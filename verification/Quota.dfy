/** Posting by points: the limit put on new and moderated users, over whole runs. */
module Quota {
  import opened Bytes
  import opened Codec
  import opened Log
  import opened Store
  import Db
  import Q = Query
  import S = Serve
  import T = Tags

  /** What the policy reads of a user: the name and two tags. */
  datatype Poster = Poster(name: Str, status: Str, limit: Str)

  const NEW: Str := "new"
  const MODERATED: Str := "moderated"

  predicate Limited(u: Poster) { u.status == NEW || u.status == MODERATED }

  function Limit(u: Poster): int { if u.limit == [] then 0 else Atoi(u.limit) }

  /** Query{From: name, Lim: lim}: no user is given, so only public messages match. */
  function ByName(name: Str, lim: int): Q.Filter {
    Q.Filter([], [], name, [], 0, lim, false, false, [], false, None)
  }

  /** The visible public messages from `name`. */
  function Posts(name: Str, infos: seq<Info>): nat { |Q.Passing(ByName(name, 0), infos)| }

  /** PointPolicy's answer from the scan it makes. */
  function Allows(u: Poster, infos: seq<Info>): bool {
    !Limited(u) || |Q.Selection(ByName(u.name, Limit(u)), Q.FULL, infos)| < Limit(u)
  }

  /** PointPolicy. */
  method PointPolicy(db: Db.DB, u: Poster) returns (ok: bool)
    requires db.Valid() && Db.SoundAfter(db.sum, db.disk.Value(), db.Value())
    requires var r := Refresh(db.sum, db.disk.Value(), db.Value()); r.status == Good && r.handle.Open?
    modifies db`loaded, db`list, db`hash, db`fileSize, db`topic, db.disk`idx
    ensures db.Valid()
    ensures var r := Refresh(db.sum, old(db.disk.Value()), old(db.Value()));
            Sound(r.handle.ix) && ok == Allows(u, Q.Records(r.handle.ix))
  {
    hide Refresh, Sound, Q.Selection, Q.Records, Db.DB.Valid, Db.Visible;
    ok := true;
    if Limited(u) {
      ghost var r := Refresh(db.sum, db.disk.Value(), db.Value());
      Db.RefreshTwice(db.sum, db.disk.Value(), db.Value());
      var q := new Q.Query(ByName(u.name, Limit(u)), 0, 0);
      var ids := db.SelectIDS(q);
      var mis := db.LookupIDS(ids);
      AllVisible(r.handle.ix, r.handle.size, ByName(u.name, Limit(u)));
      if |mis| >= Limit(u) {
        return false;
      }
    }
  }

  /** Everything such a query selects is visible, so looking it up again drops nothing. */
  lemma AllVisible(ix: Index, size: nat, f: Q.Filter)
    requires Sound(ix) && !f.blacklisted && !f.noAccess && !f.invert
    ensures var s := Q.Selection(f, Q.FULL, Q.Records(ix));
            |Db.Visible(Open(ix, size), Q.Ids(s))| == |s|
  {
    hide Q.Passing, Q.Pass, Sound, Q.Selection;
    var infos := Q.Records(ix);
    var p := Q.Passing(f, infos);
    Q.SelectionIsSlice(f, Q.FULL, infos);
    PassingShown(f, ix);
    var s := Q.Selection(f, Q.FULL, infos);
    forall i | 0 <= i < |s| ensures InTable(ix, s[i]) {
      assert s[i] == p[Q.From(f, Q.FULL, |p|) + i];
    }
    ShownVisible(ix, size, s);
  }

  ghost predicate InTable(ix: Index, x: Info) { x.id in ix.hash && ix.hash[x.id] == x && x.off >= 0 }

  lemma PassingShown(f: Q.Filter, ix: Index)
    requires Sound(ix) && !f.blacklisted && !f.noAccess
    ensures var p := Q.Passing(f, Q.Records(ix)); forall i :: 0 <= i < |p| ==> InTable(ix, p[i])
  {
    var r := Q.Records(ix);
    S.PassingFrom(f, r);
    var p := Q.Passing(f, r);
    forall i | 0 <= i < |p| ensures InTable(ix, p[i]) {
      assert p[i] in p;
      var j :| 0 <= j < |r| && r[j] == p[i];
    }
  }

  lemma {:induction false} ShownVisible(ix: Index, size: nat, s: seq<Info>)
    requires forall i :: 0 <= i < |s| ==> InTable(ix, s[i])
    ensures |Db.Visible(Open(ix, size), Q.Ids(s))| == |s|
  {
    if s != [] {
      var n := |s| - 1;
      ShownVisible(ix, size, s[..n]);
      assert Q.Ids(s)[..n] == Q.Ids(s[..n]);
      assert InTable(ix, s[n]);
    }
  }

  /** The scan stops after Limit answers, yet decides as a full count would, whatever the limit:
      zero and negative limits refuse everything. */
  lemma PolicyCounts(u: Poster, infos: seq<Info>)
    ensures Allows(u, infos) <==> !Limited(u) || Posts(u.name, infos) < Limit(u)
  {
    hide Q.Passing, Q.Selection, Atoi;
    var f := ByName(u.name, Limit(u));
    Q.SelectionIsSlice(f, Q.FULL, infos);
    Q.SamePassing(f, ByName(u.name, 0), infos);
  }

  /** The visible public messages from a name, by their ids. */
  ghost function PostIds(ix: Index, name: Str): set<Str> {
    set id | id in ix.hash && ix.hash[id].off >= 0 && (name == "" || ix.hash[id].from == name)
             && (ix.hash[id].echo == "" || ix.hash[id].echo[0] != '.')
  }

  /** Who may post: everyone whose status is neither "new" nor "moderated", and the others as long as fewer
      messages than the limit of their tags stand under their name, a missing limit being none at all. */
  lemma PolicyTells(u: Poster, ix: Index)
    requires Sound(ix)
    ensures Allows(u, Q.Records(ix))
            <==> (u.status != "new" && u.status != "moderated")
                 || |PostIds(ix, u.name)| < (if u.limit == "" then 0 else Atoi(u.limit))
  {
    hide Q.Passing, Q.Selection, Atoi, Sound, Q.Records;
    PolicyCounts(u, Q.Records(ix));
    PostsAreIds(ix, u.name);
  }

  lemma PostsAreIds(ix: Index, name: Str)
    requires Sound(ix)
    ensures Posts(name, Q.Records(ix)) == |PostIds(ix, name)|
  {
    hide Q.Passing, Q.Selection, Sound, Q.Records;
    var f := ByName(name, 0);
    var s := Q.Selection(f, Q.FULL, Q.Records(ix));
    var r := Q.Ids(s);
    Q.PlainSelection(f, Q.Records(ix));
    forall id ensures id in r <==> id in PostIds(ix, name) { Q.SelectedIff(ix, f, id); }
    Q.SelectedIff(ix, f, name);
    assert T.NoDups(r);
    SetOf(r, PostIds(ix, name));
  }

  lemma {:induction false} SetOf(r: seq<Str>, s: set<Str>)
    requires T.NoDups(r) && forall x :: x in r <==> x in s
    ensures |s| == |r|
  {
    if r == [] {
      assert s == {};
    } else {
      var x := r[|r| - 1];
      assert r == r[..|r| - 1] + [x];
      SetOf(r[..|r| - 1], s - {x});
    }
  }

  // ---------------------------------------------------------------- what the administrator does

  const STATUS: Str := "status"
  const LIMIT: Str := "limit"

  /** What the policy reads of a user with these tags. */
  function PosterOf(name: Str, t: T.Tags): Poster {
    var s, l := T.Get(t, STATUS), T.Get(t, LIMIT);
    Poster(name, if s.Some? then s.value else [], if l.Some? then l.value else [])
  }

  /** The links of the page of points. */
  datatype Action = Moderate | Unblock | Block | Remove | Approve

  function Acted(t: T.Tags, a: Action): T.Tags {
    match a
    case Moderate => T.Added(T.Added(t, "limit/3"), "status/moderate")
    case Unblock => T.Dropped(T.Added(t, "status/verified"), LIMIT)
    case Block => T.Added(T.Added(t, "status/blocked"), "limit/0")
    case Remove => T.Added(t, "status/remove")
    case Approve => T.Added(T.Dropped(t, LIMIT), "status/verified")
  }

  function StatusAfter(a: Action): Str {
    match a
    case Moderate => "moderate"
    case Block => "blocked"
    case Remove => "remove"
    case _ => "verified"
  }

  lemma PairAdded(t: T.Tags, k: Str, v: Str)
    requires Free(k, SLASH) && Free(v, SLASH)
    ensures T.Added(t, k + [SLASH] + v) == T.Put(t, k, v)
  {
    hide Split, T.Put;
    SplitFree(k, SLASH);
    SplitFree(v, SLASH);
    SplitConcat(k, v, SLASH);
    OnePair(t, [k] + [v]);
  }

  lemma ActedTags(t: T.Tags, a: Action)
    ensures T.Get(Acted(t, a), STATUS) == Some(StatusAfter(a))
    ensures a.Moderate? ==> T.Get(Acted(t, a), LIMIT) == Some("3")
    ensures a.Block? ==> T.Get(Acted(t, a), LIMIT) == Some("0")
  {
    hide T.Added, T.Remove;
    assert STATUS[0] != LIMIT[0];
    match a
    case Moderate =>
      assert "limit/3" == LIMIT + [SLASH] + "3" && "status/moderate" == STATUS + [SLASH] + "moderate";
      PairAdded(t, LIMIT, "3");
      PairAdded(T.Put(t, LIMIT, "3"), STATUS, "moderate");
    case Block =>
      assert "limit/0" == LIMIT + [SLASH] + "0" && "status/blocked" == STATUS + [SLASH] + "blocked";
      PairAdded(t, STATUS, "blocked");
      PairAdded(T.Put(t, STATUS, "blocked"), LIMIT, "0");
    case Remove =>
      assert "status/remove" == STATUS + [SLASH] + "remove";
      PairAdded(t, STATUS, "remove");
    case Unblock =>
      assert "status/verified" == STATUS + [SLASH] + "verified";
      PairAdded(t, STATUS, "verified");
    case Approve =>
      assert "status/verified" == STATUS + [SLASH] + "verified";
      PairAdded(T.Dropped(t, LIMIT), STATUS, "verified");
  }

  /** Whatever the administrator does to a user on the page of points, moderating (limit 3) and
      blocking (limit 0) included, the policy refuses that user nothing afterwards: the statuses
      set there are not those it looks for. */
  lemma ActedIsUnlimited(name: Str, t: T.Tags, a: Action, infos: seq<Info>)
    ensures !Limited(PosterOf(name, Acted(t, a))) && Allows(PosterOf(name, Acted(t, a)), infos)
    ensures a.Moderate? ==> Limit(PosterOf(name, Acted(t, a))) == 3
    ensures a.Block? ==> Limit(PosterOf(name, Acted(t, a))) == 0
  {
    hide Acted, Q.Selection, Q.Passing, Atoi;
    ActedTags(t, a);
    OtherStatus(a);
    Limits();
  }

  lemma OtherStatus(a: Action)
    ensures StatusAfter(a) != NEW && StatusAfter(a) != MODERATED
  {
    assert |NEW| == 3 && |MODERATED| == 9 && |StatusAfter(a)| == (if a.Remove? then 6 else if a.Block? then 7 else 8);
  }

  lemma Limits()
    ensures Atoi("3") == 3 && Atoi("0") == 0
  {
    var three: Str, zero: Str := "3", "0";
    assert three[..0] == [] && zero[..0] == [] && Number(three[..0]) == 0;
    assert Number(three) == 3 && Number(zero) == 0;
  }

  // ---------------------------------------------------------------- who a message is charged to

  /** The name that the index record of a message carries as its sender. */
  function ChargedTo(m: Msg): Str { Tail(m)[1] }

  /** A message from a colon-free name is charged to that name exactly when its To holds no colon,
      or happens to hold the name after its first one. */
  lemma ChargedIff(m: Msg)
    requires Free(m.from, COLON)
    ensures ChargedTo(m) == m.from <==> Free(m.to, COLON) || Split(m.to, COLON)[1] == m.from
  {
    hide Split;
    var r := Tag(m, REPTO);
    TailParts(m.to, m.from, r);
    SplitFree(m.from, COLON);
    if Free(m.to, COLON) {
      SplitFree(m.to, COLON);
    } else {
      ColonCharges(m);
    }
  }

  /** With a colon in To, what follows the first one is charged. */
  lemma ColonCharges(m: Msg)
    requires COLON in m.to
    ensures |Split(m.to, COLON)| >= 2 && ChargedTo(m) == Split(m.to, COLON)[1]
  {
    hide Split;
    TwoParts(m.to, COLON);
    TailParts(m.to, m.from, Tag(m, REPTO));
  }

  lemma TwoParts(s: Str, c: Byte)
    requires c in s
    ensures |Split(s, c)| >= 2
  {
    hide Split;
    JoinSplit(s, c);
    OnePart(Split(s, c), c);
  }

  lemma OnePart(parts: seq<Str>, c: Byte)
    requires |parts| >= 1 && AllFree(parts, c)
    ensures |parts| == 1 ==> Free(Join(parts, c), c)
  {
  }

  // ---------------------------------------------------------------- steps

  /** What is about to be stored for a user, `from` being overwritten with the user's name: a post of
      PointMsg or of the web front end, or an edit of an own message there. */
  datatype Call = Call(user: Poster, m: Msg, now: int, edit: bool)

  function Signed(c: Call): Msg { c.m.(from := c.user.name) }

  /** A post makes two calls of the database with nothing held between them: the scan of the policy,
      and the store. One that passed the policy may still be turned away before it stores. Posts
      refused earlier touch nothing. */
  datatype Step = Check(n: nat, c: Call) | Drop(n: nat) | Keep(n: nat)

  /** The database and the calls between their scan and their store. */
  datatype Server = Server(w: World, open: map<nat, Call>)

  ghost predicate Enabled(s: Server, step: Step) {
    if step.Check? then step.n !in s.open else step.n in s.open
  }

  ghost function Next(sum: Str -> Str, h: nat, s: Server, step: Step): Server
    requires Enabled(s, step)
  {
    match step
    case Check(n, c) =>
      var v := Do(sum, s.w, Load(h));
      var t := HandleOf(v, h);
      if t.Open? && Sound(t.ix) && Allows(c.user, Q.Records(t.ix)) then Server(v, s.open[n := c])
      else s.(w := v)
    case Drop(n) => s.(open := s.open - {n})
    case Keep(n) =>
      Server(Do(sum, s.w, Save(h, Signed(s.open[n]), s.open[n].now, s.open[n].edit)), s.open - {n})
  }

  ghost function After(sum: Str -> Str, h: nat, w: World, steps: seq<Step>): Option<Server> {
    if steps == [] then Some(Server(w, map[]))
    else
      var before, step := After(sum, h, w, steps[..|steps| - 1]), steps[|steps| - 1];
      if before.Some? && Enabled(before.value, step) then Some(Next(sum, h, before.value, step)) else None
  }

  /** The calls of one user between scan and store. */
  function OpenOf(s: Server, name: Str): set<nat> { set n | n in s.open && s.open[n].user.name == name }

  /** Never more than k calls of the user at once between scan and store. */
  ghost predicate AtMost(sum: Str -> Str, h: nat, w: World, steps: seq<Step>, name: Str, k: nat) {
    forall i :: 0 <= i <= |steps| && After(sum, h, w, steps[..i]).Some? ==>
      |OpenOf(After(sum, h, w, steps[..i]).value, name)| <= k
  }

  /** The posts of `name` in a world. */
  function PostsIn(sum: Str -> Str, w: World, name: Str): nat {
    ViewSound(sum, Lines(w.files.log));
    Posts(name, Q.Records(View(sum, Lines(w.files.log))))
  }

  lemma {:induction false} PassingUpdate(f: Q.Filter, s: seq<Info>, i: nat, x: Info)
    requires i < |s|
    ensures |Q.Passing(f, s[i := x])| <= |Q.Passing(f, s)| + if Q.Pass(f, x) then 1 else 0
  {
    hide Q.Pass;
    var n := |s| - 1;
    if i < n {
      assert s[i := x][..n] == s[..n][i := x];
      PassingUpdate(f, s[..n], i, x);
    } else {
      assert s[i := x][..n] == s[..n];
    }
  }

  /** One more record changes one entry or adds one at the end. */
  lemma InsertRecords(ix: Index, mi: Info)
    requires Sound(ix)
    ensures Sound(Insert(ix, mi))
    ensures var r, t := Q.Records(ix), Q.Records(Insert(ix, mi));
            if mi.id in ix.hash
            then var i := ix.hash[mi.id].num; i < |r| && t == r[i := mi.(num := i)]
            else t == r + [mi.(num := |r|)]
  {
    InsertSound(ix, mi);
    var jx := Insert(ix, mi);
    var r, t := Q.Records(ix), Q.Records(jx);
    if mi.id in ix.hash {
      assert mi.id in ix.list;
      var i :| 0 <= i < |ix.list| && ix.list[i] == mi.id;
      assert ix.hash[ix.list[i]].num == i;
      forall k | 0 <= k < |r| ensures t[k] == r[i := mi.(num := i)][k] {
        assert ix.list[k] == mi.id ==> k == i;
      }
    } else {
      forall k | 0 <= k < |r| ensures t[k] == r[k] {
        assert ix.list[k] in ix.list;
      }
    }
  }

  /** A log line adds at most one post, and only to the name its record carries. */
  lemma LineAddsOne(sum: Str -> Str, lines: seq<Str>, line: Str, name: Str)
    requires name != [] && Decode(sum, line).Ok?
    ensures Sound(View(sum, lines)) && Sound(View(sum, lines + [line]))
    ensures Posts(name, Q.Records(View(sum, lines + [line])))
            <= Posts(name, Q.Records(View(sum, lines)))
               + if ChargedTo(Decode(sum, line).value) == name then 1 else 0
  {
    hide Decode, Sound, Insert, Q.Passing, Unlines, SignedOff, Tail;
    ViewSound(sum, lines);
    ViewSound(sum, lines + [line]);
    var m := Decode(sum, line).value;
    var ix, mi := View(sum, lines), InfoOf(m, SignedOff(m, |Unlines(lines)|));
    assert (lines + [line])[..|lines|] == lines;
    InsertRecords(ix, mi);
    OneRecord(ByName(name, 0), Q.Records(ix), Q.Records(Insert(ix, mi)), mi, ix);
  }

  lemma OneRecord(f: Q.Filter, r: seq<Info>, t: seq<Info>, mi: Info, ix: Index)
    requires f.from != []
    requires if mi.id in ix.hash
             then var i := ix.hash[mi.id].num; i < |r| && t == r[i := mi.(num := i)]
             else t == r + [mi.(num := |r|)]
    ensures |Q.Passing(f, t)| <= |Q.Passing(f, r)| + if mi.from == f.from then 1 else 0
  {
    hide Q.Passing;
    if mi.id in ix.hash {
      PassingUpdate(f, r, ix.hash[mi.id].num, mi.(num := ix.hash[mi.id].num));
    } else {
      Q.SnocPassing(f, r, mi.(num := |r|));
    }
  }

  // ---------------------------------------------------------------- runs

  /** Calls whose messages can be stored and are charged to their users. */
  ghost predicate GoodCall(sum: Str -> Str, c: Call, u: Poster) {
    Storable(sum, Signed(c), c.now) && ChargedTo(Signed(c)) == c.user.name
    && (c.user.name == u.name ==> c.user == u)
  }

  ghost predicate GoodSteps(sum: Str -> Str, steps: seq<Step>, u: Poster) {
    forall i :: 0 <= i < |steps| && steps[i].Check? ==> GoodCall(sum, steps[i].c, u)
  }

  /** What every run keeps: the posts and the calls still open stay below the bound together. */
  ghost predicate Within(sum: Str -> Str, s: Server, u: Poster, k: nat, start: nat) {
    Consistent(sum, s.w)
    && (forall n :: n in s.open ==> GoodCall(sum, s.open[n], u))
    && PostsIn(sum, s.w, u.name) + |OpenOf(s, u.name)| <= Q.Max(Limit(u) + k - 1, start)
  }

  lemma LoadPosts(sum: Str -> Str, w: World, h: nat, name: Str)
    requires GoodSum(sum) && Consistent(sum, w)
    ensures var v := Do(sum, w, Load(h));
            Consistent(sum, v) && PostsIn(sum, v, name) == PostsIn(sum, w, name)
            && HandleOf(v, h).Open? && HandleOf(v, h).ix == View(sum, Lines(w.files.log))
            && Sound(View(sum, Lines(w.files.log)))
  {
    hide Consistent, Refresh, View, Lines, Sound, IndexText, Snapshot, GoodFiles, Posts;
    HandleSnapshotOf(sum, w, h);
    LogSize(sum, w);
    RefreshKeepsLog(sum, w.files, HandleOf(w, h));
    DoKeeps(sum, w, Load(h));
    RefreshGood(sum, w.files, HandleOf(w, h));
    ViewSound(sum, Lines(w.files.log));
  }

  lemma LogSize(sum: Str -> Str, w: World)
    requires Consistent(sum, w)
    ensures |w.files.log| <= MAX_INT64
  {
  }

  lemma SavePosts(sum: Str -> Str, w: World, h: nat, c: Call, u: Poster)
    requires GoodSum(sum) && Consistent(sum, w) && GoodCall(sum, c, u) && u.name != []
    requires |Do(sum, w, Save(h, Signed(c), c.now, c.edit)).files.log| <= MAX_INT64
    ensures var v := Do(sum, w, Save(h, Signed(c), c.now, c.edit));
            Consistent(sum, v)
            && PostsIn(sum, v, u.name) <= PostsIn(sum, w, u.name) + if c.user.name == u.name then 1 else 0
  {
    hide Consistent, View, Lines, StoreMsg, Storable, Sound, Posts, Filled, Bundle, Decode, Snapshot, GoodFiles, Tail;
    var m := Signed(c);
    DoKeeps(sum, w, Save(h, m, c.now, c.edit));
    HandleSnapshotOf(sum, w, h);
    StoreGood(sum, w.files, HandleOf(w, h), m, c.now, c.edit);
    ChargeKept(sum, m, c.now);
    if StoreMsg(sum, w.files, HandleOf(w, h), m, c.now, c.edit).outcome == Stored {
      LineAddsOne(sum, Lines(w.files.log), Bundle(Filled(sum, m, c.now)), u.name);
    }
  }

  /** Filling in date and id and dropping carriage returns leave the charged name alone. */
  lemma ChargeKept(sum: Str -> Str, m: Msg, now: int)
    requires Storable(sum, m, now)
    ensures ChargedTo(Stripped(Filled(sum, m, now))) == ChargedTo(m)
  {
    hide TextOf, Survives, Split;
    FilledTags(sum, m, now);
    WithoutSame(m.to, CR);
    WithoutSame(m.from, CR);
  }

  lemma OpenMore(s: Server, n: nat, c: Call, name: Str)
    requires n !in s.open
    ensures |OpenOf(s.(open := s.open[n := c]), name)|
            == |OpenOf(s, name)| + if c.user.name == name then 1 else 0
  {
    var o, p := OpenOf(s, name), OpenOf(s.(open := s.open[n := c]), name);
    forall x ensures x in p <==> x in o || (x == n && c.user.name == name) {}
    if c.user.name == name { assert p == o + {n}; } else { assert p == o; }
  }

  lemma OpenLess(s: Server, n: nat, name: Str)
    requires n in s.open
    ensures |OpenOf(s.(open := s.open - {n}), name)|
            == |OpenOf(s, name)| - if s.open[n].user.name == name then 1 else 0
  {
    var o, p := OpenOf(s, name), OpenOf(s.(open := s.open - {n}), name);
    forall x ensures x in p <==> x in o && x != n {}
    assert p == o - {n};
  }

  lemma OpenIs(s: Server, w: World, name: Str)
    ensures OpenOf(s.(w := w), name) == OpenOf(s, name)
  {
  }

  lemma StepWithin(sum: Str -> Str, h: nat, s: Server, step: Step, u: Poster, k: nat, start: nat)
    requires GoodSum(sum) && Within(sum, s, u, k, start) && Enabled(s, step) && Limited(u) && u.name != []
    requires step.Check? ==> GoodCall(sum, step.c, u)
    requires |Next(sum, h, s, step).w.files.log| <= MAX_INT64
    requires |OpenOf(Next(sum, h, s, step), u.name)| <= k
    ensures Within(sum, Next(sum, h, s, step), u, k, start)
  {
    hide Consistent, GoodCall, PostsIn, OpenOf, Do, View, Lines, Sound, Q.Records, Q.Passing, Q.Selection, Limit;
    match step
    case Check(n, c) =>
      LoadPosts(sum, s.w, h, u.name);
      OpenMore(s, n, c, u.name);
      OpenIs(s, Do(sum, s.w, Load(h)), u.name);
      OpenIs(s.(open := s.open[n := c]), Do(sum, s.w, Load(h)), u.name);
      PolicyCounts(c.user, Q.Records(View(sum, Lines(s.w.files.log))));
      if c.user.name == u.name { SameUser(sum, c, u); }
      PostsAre(sum, s.w, u.name);
    case Drop(n) => OpenLess(s, n, u.name);
    case Keep(n) =>
      OpenLess(s, n, u.name);
      OpenIs(s.(open := s.open - {n}), Next(sum, h, s, step).w, u.name);
      SavePosts(sum, s.w, h, s.open[n], u);
  }

  lemma SameUser(sum: Str -> Str, c: Call, u: Poster)
    requires GoodCall(sum, c, u) && c.user.name == u.name
    ensures c.user == u
  {
  }

  lemma PostsAre(sum: Str -> Str, w: World, name: Str)
    ensures Sound(View(sum, Lines(w.files.log)))
    ensures PostsIn(sum, w, name) == Posts(name, Q.Records(View(sum, Lines(w.files.log))))
  {
    ViewSound(sum, Lines(w.files.log));
  }

  lemma StepLog(sum: Str -> Str, h: nat, s: Server, step: Step)
    requires Enabled(s, step)
    ensures |s.w.files.log| <= |Next(sum, h, s, step).w.files.log|
  {
    hide Do, Allows, Sound;
    LogGrows(sum, s.w, Load(h));
    if step.Keep? { LogGrows(sum, s.w, Save(h, Signed(s.open[step.n]), s.open[step.n].now, s.open[step.n].edit)); }
  }

  /** Over any interleaving of posts and edits, by this user and by others, the number of visible
      public messages under a limited user's name exceeds the larger of what it was at the start
      and the limit by at most the number of the user's calls that were ever between their scan
      and their store at once, less one. One at a time keeps the limit. */
  lemma {:induction false} QuotaHolds(sum: Str -> Str, h: nat, w: World, steps: seq<Step>, u: Poster, k: nat)
    requires GoodSum(sum) && Consistent(sum, w) && GoodSteps(sum, steps, u) && Limited(u) && u.name != []
    requires After(sum, h, w, steps).Some? && |After(sum, h, w, steps).value.w.files.log| <= MAX_INT64
    requires k >= 1 && AtMost(sum, h, w, steps, u.name, k)
    ensures var s, start := After(sum, h, w, steps).value, PostsIn(sum, w, u.name);
            Within(sum, s, u, k, start)
            && PostsIn(sum, s.w, u.name) <= Q.Max(Limit(u) + k - 1, start)
  {
    hide Consistent, GoodCall, PostsIn, OpenOf, Next, Enabled, Limit, Limited;
    if steps == [] {
      NoneOpen(w, u.name);
    } else {
      var n := |steps| - 1;
      var s := After(sum, h, w, steps[..n]).value;
      StepLog(sum, h, s, steps[n]);
      forall i | 0 <= i <= n && After(sum, h, w, steps[..n][..i]).Some?
        ensures |OpenOf(After(sum, h, w, steps[..n][..i]).value, u.name)| <= k
      {
        assert steps[..n][..i] == steps[..i];
      }
      QuotaHolds(sum, h, w, steps[..n], u, k);
      assert steps[..|steps|] == steps;
      StepWithin(sum, h, s, steps[n], u, k, PostsIn(sum, w, u.name));
    }
  }

  lemma NoneOpen(w: World, name: Str)
    ensures OpenOf(Server(w, map[]), name) == {}
  {
  }

  // ---------------------------------------------------------------- what a step does to the log

  /** The first half of a post lets the call through exactly when fewer messages than its limit are to be
      seen under the name, or the user has no limit; it writes nothing. */
  lemma CheckTells(sum: Str -> Str, h: nat, s: Server, n: nat, c: Call)
    requires GoodSum(sum) && Consistent(sum, s.w) && n !in s.open
    ensures var next := Next(sum, h, s, Check(n, c)); var ix := View(sum, Lines(s.w.files.log));
            next.w.files.log == s.w.files.log
            && next.open == (if (c.user.status != "new" && c.user.status != "moderated")
                                || |PostIds(ix, c.user.name)| < (if c.user.limit == "" then 0 else Atoi(c.user.limit))
                             then s.open[n := c] else s.open)
  {
    hide Consistent, Refresh, View, Lines, Sound, Allows, Posts, PostIds, Atoi;
    LoadPosts(sum, s.w, h, c.user.name);
    PolicyTells(c.user, View(sum, Lines(s.w.files.log)));
    RefreshKeepsLog(sum, s.w.files, HandleOf(s.w, h));
  }

  /** The second half ends the call, and writes nothing when the id is known and this is no edit; otherwise
      it writes one line, of the message as it was given, but from the user. */
  lemma KeepTells(sum: Str -> Str, h: nat, s: Server, n: nat)
    requires GoodSum(sum) && Consistent(sum, s.w) && n in s.open && Storable(sum, Signed(s.open[n]), s.open[n].now)
    requires |Next(sum, h, s, Keep(n)).w.files.log| <= MAX_INT64
    ensures var next, c := Next(sum, h, s, Keep(n)), s.open[n]; var m := c.m;
            var lines, after := Lines(s.w.files.log), Lines(next.w.files.log);
            next.open == s.open - {n}
            && if LastAt(sum, lines, m.id) < |lines| && !c.edit then next.w.files.log == s.w.files.log
               else |after| == |lines| + 1 && after[..|lines|] == lines && Decode(sum, after[|lines|]).Ok?
                    && var d := Decode(sum, after[|lines|]).value;
                       d == Stripped(m).(from := Without(c.user.name, CR), id := d.id, date := d.date)
                       && d.date == (if m.date == 0 then c.now else m.date) && (m.id != [] ==> d.id == m.id)
  {
    hide View, Lines, Refresh, Do, Decode, LastAt, Storable, Consistent, Without, BundleOf;
    StoredIsRead(sum, s.w, h, h, Signed(s.open[n]), s.open[n].now, s.open[n].edit);
  }
}
