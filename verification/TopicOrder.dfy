/** The order of the ids inside a topic: what GetTopics adds for one message stands at the end, by
    number. */
module TopicOrder {
  import opened Bytes
  import opened Log
  import opened Topics
  import opened Cycles
  import T = Tags

  /** Ids of the table, in ascending number. */
  ghost predicate Ascending(ix: Index, ids: seq<Str>) {
    (forall i :: 0 <= i < |ids| ==> ids[i] in ix.hash)
    && forall i, j :: 0 <= i < j < |ids| ==> ix.hash[ids[i]].num < ix.hash[ids[j]].num
  }

  /** Every topic there was is continued in ascending number; a new one starts with its head, and its
      other members follow in ascending number. */
  ghost predicate Continued(ix: Index, old_: Groups, new_: Groups) {
    (forall k :: k in old_ ==> k in new_ && old_[k] <= new_[k] && Ascending(ix, new_[k][|old_[k]|..]))
    && forall k :: k in new_ && k !in old_ ==> new_[k] != [] && new_[k][0] == k && Ascending(ix, new_[k][1..])
  }

  // ---------------------------------------------------------------- filing

  /** The ids that filing has added under k: members of s, no longer free, by number. */
  ghost predicate Added(ix: Index, s: seq<Info>, k: Str, r: Book, a: seq<Str>) {
    Ascending(ix, a) && forall i :: 0 <= i < |a| ==> a[i] != k && a[i] in r.intopic && HasId(s, a[i])
  }

  lemma {:induction false} FiledOrder(ix: Index, s: seq<Info>, k: Str, b: Book)
    requires Sound(ix) && k in b.topics && AllListed(ix, s) && SortedByNum(s)
    ensures var r := FileAll(s, k, b);
            r.topics.Keys == b.topics.Keys && (forall j :: j in b.topics && j != k ==> r.topics[j] == b.topics[j])
            && b.topics[k] <= r.topics[k] && Added(ix, s, k, r, r.topics[k][|b.topics[k]|..])
  {
    hide Sound, Added;
    if s == [] {
      assert b.topics[k][|b.topics[k]|..] == [];
      NothingAdded(ix, k, b);
    } else {
      var n := |s| - 1;
      FiledOrder(ix, s[..n], k, b);
      var q := FileAll(s[..n], k, b);
      var a := q.topics[k][|b.topics[k]|..];
      assert q.topics[k] == b.topics[k] + a;
      AddedStep(ix, s, k, q, a);
      if s[n].id != k && s[n].id !in q.intopic {
        assert b.topics[k] + a + [s[n].id] == b.topics[k] + (a + [s[n].id]);
      }
    }
  }

  lemma NothingAdded(ix: Index, k: Str, b: Book)
    ensures Added(ix, [], k, b, [])
  {
  }

  lemma AddedStep(ix: Index, s: seq<Info>, k: Str, q: Book, a: seq<Str>)
    requires Sound(ix) && s != [] && k in q.topics && AllListed(ix, s) && SortedByNum(s)
    requires Added(ix, s[..|s| - 1], k, q, a)
    ensures var x := s[|s| - 1].id; var r := FileOne(x, k, q);
            Added(ix, s, k, r, if x == k || x in q.intopic then a else a + [x])
  {
    hide HasId, Ascending, Sound, SortedByNum, FileOne;
    var x := s[|s| - 1];
    IntopicGrows(x.id, k, q);
    AddedKept(ix, s, k, q, FileOne(x.id, k, q), a);
    if x.id != k && x.id !in q.intopic {
      forall i | 0 <= i < |a| ensures a[i] in ix.hash && ix.hash[a[i]].num < x.num {
        Before(ix, s, a[i]);
      }
      HasLast(s);
      OneMoreAscends(ix, a, x);
    }
  }

  lemma IntopicGrows(x: Str, k: Str, q: Book)
    requires k in q.topics
    ensures var r := FileOne(x, k, q);
            (forall y :: y in q.intopic ==> y in r.intopic) && (x == k || x in r.intopic)
  {
  }

  lemma AddedKept(ix: Index, s: seq<Info>, k: Str, q: Book, r: Book, a: seq<Str>)
    requires s != [] && Added(ix, s[..|s| - 1], k, q, a) && forall y :: y in q.intopic ==> y in r.intopic
    ensures Added(ix, s, k, r, a)
  {
    hide Ascending, HasId;
    forall i | 0 <= i < |a| ensures HasId(s, a[i]) { HasMore(s, a[i]); }
  }

  lemma HasMore(s: seq<Info>, y: Str)
    requires s != [] && HasId(s[..|s| - 1], y)
    ensures HasId(s, y)
  {
    var n := |s| - 1;
    var i :| 0 <= i < n && s[..n][i].id == y;
    assert s[i].id == y;
  }

  lemma HasLast(s: seq<Info>)
    requires s != []
    ensures HasId(s, s[|s| - 1].id)
  {
  }

  lemma OneMoreAscends(ix: Index, a: seq<Str>, x: Info)
    requires Ascending(ix, a) && Listed(ix, x) && forall i :: 0 <= i < |a| ==> a[i] in ix.hash && ix.hash[a[i]].num < x.num
    ensures Ascending(ix, a + [x.id])
  {
  }

  lemma Before(ix: Index, s: seq<Info>, y: Str)
    requires Sound(ix) && s != [] && AllListed(ix, s) && SortedByNum(s) && HasId(s[..|s| - 1], y) && y != s[|s| - 1].id
    ensures y in ix.hash && ix.hash[y].num < s[|s| - 1].num
  {
    var n := |s| - 1;
    var i :| 0 <= i < n && s[..n][i].id == y;
    assert s[i].num <= s[n].num && ix.hash[y] == s[i];
    NumberIs(ix, y);
    NumberIs(ix, s[n].id);
  }

  lemma NumberIs(ix: Index, id: Str)
    requires Sound(ix) && id in ix.hash
    ensures ix.hash[id].num < |ix.list| && ix.list[ix.hash[id].num] == id
  {
    assert id in ix.list;
    var i :| 0 <= i < |ix.list| && ix.list[i] == id;
  }

  // ---------------------------------------------------------------- one message

  lemma {:induction false} CollectedListed(ix: Index, m: Info, n: nat)
    requires Sound(ix) && Listed(ix, m)
    ensures AllListed(ix, Collected(ix, m, n))
  {
    hide Sound, Listed, At;
    if n > 0 {
      CollectedListed(ix, m, n - 1);
      if At(ix, m, n - 1).Some? { AtListed(ix, m, n - 1); }
    }
  }

  /** What a walk that halts has collected stands in the table. */
  lemma WalkedListed(ix: Index, m: Info, c: Cache)
    requires Sound(ix) && Listed(ix, m) && Halts(ix, m, c)
    ensures AllListed(ix, Walked(ix, m, c).l)
  {
    hide Sound, Listed, Halts, Walked, Collected, Left;
    var n := HaltsAt(ix, m, c);
    CollectedListed(ix, m, n);
  }

  lemma SortedListed(ix: Index, l: seq<Info>)
    requires AllListed(ix, l)
    ensures AllListed(ix, SortByNum(l)) && SortedByNum(SortByNum(l))
  {
    hide Listed, SortByNum;
    SortKeeps(l);
    var _ := SortSorts(l);
  }

  lemma OneContinues(ix: Index, m: Info, b: Book)
    requires Sound(ix) && Listed(ix, m) && HandleOne(ix, m, b).Some?
    ensures Continued(ix, b.topics, HandleOne(ix, m, b).value.topics)
  {
    hide Sound, Halts, Walked, FileAll, SortByNum, Ascending, Continued;
    var r := HandleOne(ix, m, b).value;
    SomeAscend(ix, m);
    if m.id in b.intopic {
      SameContinues(ix, b.topics);
    } else if Cached(b.c, m.id) != [] {
      var k := Cached(b.c, m.id);
      EndContinues(ix, b.topics, k, r.topics, if m.id == k then [] else [m.id]);
    } else {
      var w := Walked(ix, m, b.c);
      WalkedListed(ix, m, b.c);
      if w.l == [] {
        SameContinues(ix, b.topics);
      } else {
        SortedListed(ix, w.l);
        var t := w.l[|w.l| - 1].id;
        var heads := PlaceHead(b.topics, t);
        FiledOrder(ix, SortByNum(w.l), t, Book(heads, b.intopic, w.d));
        EndContinues(ix, b.topics, t, r.topics, r.topics[t][|heads[t]|..]);
      }
    }
  }

  lemma SameContinues(ix: Index, topics: Groups)
    ensures Continued(ix, topics, topics)
  {
  }

  /** Only topic t is changed, by ids at its end. */
  lemma EndContinues(ix: Index, topics: Groups, t: Str, next: Groups, a: seq<Str>)
    requires t in PlaceHead(topics, t) && next.Keys == PlaceHead(topics, t).Keys
    requires forall j :: j in PlaceHead(topics, t) && j != t ==> next[j] == PlaceHead(topics, t)[j]
    requires next[t] == PlaceHead(topics, t)[t] + a && (a == [] || Ascending(ix, a))
    ensures Continued(ix, topics, next)
  {
    hide Ascending;
    NoneAscend(ix);
    forall k | k in topics ensures topics[k] <= next[k] && Ascending(ix, next[k][|topics[k]|..]) {
      assert next[k][|topics[k]|..] == if k == t then a else [];
    }
    forall k | k in next && k !in topics ensures next[k] != [] && next[k][0] == k && Ascending(ix, next[k][1..]) {
      assert k == t && next[k] == [t] + a && next[k][1..] == a;
    }
  }

  lemma NoneAscend(ix: Index)
    ensures Ascending(ix, [])
  {
  }

  lemma SomeAscend(ix: Index, m: Info)
    requires Listed(ix, m)
    ensures Ascending(ix, [m.id])
  {
  }

  /** The ids that one more message of the input adds to the topics, whatever is cached and cycles
      included: at the end of a topic there was, or after the head of a new one, in ascending number. */
  lemma GroupsContinue(ix: Index, mi: seq<Info>, m: Info, c: Cache)
    requires Sound(ix) && Listed(ix, m) && Returns(ix, mi + [m], c)
    ensures Returns(ix, mi, c)
    ensures Continued(ix, HandleAll(ix, mi, Blank(c)).value.topics, HandleAll(ix, mi + [m], Blank(c)).value.topics)
  {
    hide Sound, Listed, HandleAll, Continued;
    var all, n := mi + [m], |mi|;
    assert all[..n] == mi && all[..n + 1] == all;
    PrefixReturns(ix, all, Blank(c), n);
    NextHandled(ix, all, Blank(c), n);
    OneContinues(ix, m, HandleAll(ix, mi, Blank(c)).value);
  }

  // ---------------------------------------------------------------- a call on one message

  /** A call on one message with nothing cached, exactly: no topic for a self-reply; otherwise one
      topic, its head first and then the other messages of the echo on the reply chain, each once, in
      ascending number. Without reply cycles the head is the topic of the plain walk. */
  lemma OneMessage(ix: Index, m: Info)
    requires Sound(ix) && PlainIds(ix) && Listed(ix, m) && Returns(ix, [m], map[])
    ensures OneTopic(ix, m, HandleAll(ix, [m], Blank(map[])).value.topics)
  {
    hide Sound, PlainIds, Listed, OnChain, HandleAll, Ascending, WellFormed, TopicOf, Ends;
    var t := OneMember(ix, m);
  }

  ghost predicate OneTopic(ix: Index, m: Info, topics: Groups) {
    if m.repto == m.id then topics == map[]
    else exists t :: t in topics && topics.Keys == {t} && topics[t] != [] && topics[t][0] == t && t !in topics[t][1..]
           && Ascending(ix, topics[t][1..])
           && (forall x :: x in topics[t] <==> OnChain(ix, m, x))
           && (WellFormed(ix) ==> Ends(ix, m) && t == TopicOf(ix, m))
  }

  lemma OneMember(ix: Index, m: Info) returns (t: Str)
    requires Sound(ix) && PlainIds(ix) && Listed(ix, m) && Returns(ix, [m], map[])
    ensures var topics := HandleAll(ix, [m], Blank(map[])).value.topics;
            if Self(m) then topics == map[]
            else topics.Keys == {t} && topics[t] != [] && topics[t][0] == t && t !in topics[t][1..]
                 && Ascending(ix, topics[t][1..])
                 && (forall x :: x in topics[t] <==> OnChain(ix, m, x))
                 && (WellFormed(ix) ==> Ends(ix, m) && t == TopicOf(ix, m))
  {
    hide Sound, PlainIds, Listed, OnChain, InSome, HandleAll, Ascending, WellFormed, Self, TopicOf, Ends;
    assert [m][..0] == [];
    forall x ensures InSome(HandleAll(ix, [m], Blank(map[])).value.topics, x) <==> OnChain(ix, m, x) {
      AllOne(ix, m);
      GroupsReached(ix, [m], x);
      ReachedOne(ix, m, x);
    }
    OwnChain(ix, m);
    t := OneWalk(ix, m);
    InOnly(HandleAll(ix, [m], Blank(map[])).value.topics, t);
  }

  lemma AllOne(ix: Index, m: Info)
    requires Listed(ix, m)
    ensures AllListed(ix, [m])
  {
  }

  lemma ReachedOne(ix: Index, m: Info, x: Str)
    ensures Reached(ix, [m], x) <==> OnChain(ix, m, x)
  {
    hide OnChain;
    if OnChain(ix, m, x) { assert OnChain(ix, [m][0], x); }
  }

  lemma InOnly(topics: Groups, t: Str)
    ensures topics.Keys == {t} ==> forall x :: InSome(topics, x) <==> x in topics[t]
  {
    if topics.Keys == {t} {
      assert t in topics;
      forall x | x in topics[t] ensures InSome(topics, x) {}
    }
  }

  lemma OneWalk(ix: Index, m: Info) returns (t: Str)
    requires Sound(ix) && PlainIds(ix) && Listed(ix, m) && Returns(ix, [m], map[])
    ensures var topics := HandleAll(ix, [m], Blank(map[])).value.topics;
            if Self(m) then topics == map[]
            else topics.Keys == {t} && topics[t] != [] && topics[t][0] == t && t !in topics[t][1..]
                 && Ascending(ix, topics[t][1..])
                 && (WellFormed(ix) ==> Ends(ix, m) && t == TopicOf(ix, m))
  {
    hide Sound, PlainIds, Listed, Halts, Walked, FileAll, SortByNum, Ascending, WellFormed, Ends, TopicOf, Added;
    var none: Groups := map[];
    var b := Blank(map[]);
    assert [m][..0] == [] && HandleAll(ix, [], b) == Some(b);
    assert HandleAll(ix, [m], b) == HandleOne(ix, m, b);
    var w := Walked(ix, m, map[]);
    WalkedListed(ix, m, map[]);
    EmptyIff(ix, m);
    t := [];
    if w.l != [] {
      SortedListed(ix, w.l);
      t := w.l[|w.l| - 1].id;
      var b0 := Book(none[t := [t]], map[], w.d);
      FiledOrder(ix, SortByNum(w.l), t, b0);
      var a := HandleAll(ix, [m], b).value.topics[t];
      assert [t] <= a && a[1..] == a[|b0.topics[t]|..];
      NotHead(ix, SortByNum(w.l), t, HandleAll(ix, [m], b).value, a[1..]);
      if WellFormed(ix) { HeadIsTopic(ix, m); }
    }
  }

  lemma NotHead(ix: Index, s: seq<Info>, t: Str, r: Book, a: seq<Str>)
    requires Added(ix, s, t, r, a)
    ensures t !in a && Ascending(ix, a)
  {
    hide Ascending;
  }

  /** Only a self-reply collects nothing. */
  lemma EmptyIff(ix: Index, m: Info)
    requires Sound(ix) && Listed(ix, m) && Halts(ix, m, map[])
    ensures Walked(ix, m, map[]).l == [] <==> Self(m)
  {
    hide Sound, Listed, Halts, Walked, Collected, Left;
    var n := HaltsAt(ix, m, map[]);
    NothingCached(ix);
    CollectedIs(ix, m, map[], n, m.id);
    OwnChain(ix, m);
    NoIds();
    var l := Collected(ix, m, n);
    if l != [] {
      FirstId(l);
      CollectedIs(ix, m, map[], n, l[0].id);
    }
  }

  lemma FirstId(l: seq<Info>)
    requires l != []
    ensures HasId(l, l[0].id)
  {
  }

  lemma HeadIsTopic(ix: Index, m: Info)
    requires WellFormed(ix) && Listed(ix, m) && !Self(m)
    ensures Ends(ix, m) && Halts(ix, m, map[]) && Walked(ix, m, map[]).l != []
    ensures var l := Walked(ix, m, map[]).l; l[|l| - 1].id == TopicOf(ix, m)
  {
    hide WellFormed, Listed, Halts, Walked, Line, TopicOf;
    ListedEnds(ix, m);
    NoCache(ix);
    WalkAcyclic(ix, m, map[]);
    LineStarts(ix, m);
    LineMembers(ix, m);
  }

  lemma NoCache(ix: Index)
    requires WellFormed(ix)
    ensures CacheOk(ix, map[])
  {
  }

  // ---------------------------------------------------------------- replies that come after

  /** Every message was stored after the visible message it replies to. */
  ghost predicate RepliesFollow(ix: Index) {
    forall id :: id in ix.hash && !Self(ix.hash[id]) && Parent(ix, ix.hash[id]).Some? ==>
      Parent(ix, ix.hash[id]).value.num < ix.hash[id].num
  }

  ghost predicate ByNumber(mi: seq<Info>) { forall i, j :: 0 <= i < j < |mi| ==> mi[i].num < mi[j].num }

  lemma {:induction false} LineOlder(ix: Index, p: Info, echo: Str, i: nat)
    requires Sound(ix) && RepliesFollow(ix) && Listed(ix, p) && Ends(ix, p) && i < |Line(ix, p, echo)|
    ensures Line(ix, p, echo)[i].num <= p.num
    decreases Height(ix, p)
  {
    hide Ends, Height, Sound;
    if Self(p) {
      SelfLine(ix, p, echo);
    } else {
      LineUnfold(ix, p, echo);
      var d := if p.echo == echo then 1 else 0;
      if i >= d && Parent(ix, p).Some? {
        ParentLower(ix, p);
        HashNames(ix, p.repto);
        LineOlder(ix, Parent(ix, p).value, echo, i - d);
      }
    }
  }

  lemma HashNames(ix: Index, id: Str)
    requires Sound(ix)
    ensures id in ix.hash ==> ix.hash[id].id == id
  {
  }

  lemma InClosed(ix: Index, mi: seq<Info>, j: nat, x: Info)
    requires AncestorClosed(ix, mi) && j < |mi| && Ends(ix, mi[j]) && x in Line(ix, mi[j], mi[j].echo)
    ensures x in mi
  {
    hide Ends, Line;
  }

  /** What comes before in the listing holds its ancestors too. */
  lemma PrefixClosed(ix: Index, mi: seq<Info>, n: nat)
    requires WellFormed(ix) && RepliesFollow(ix) && ByNumber(mi) && AllListed(ix, mi) && AncestorClosed(ix, mi) && n <= |mi|
    ensures AncestorClosed(ix, mi[..n]) && AllListed(ix, mi[..n]) && ByNumber(mi[..n])
  {
    hide WellFormed, RepliesFollow, Line, Ends;
    forall j, x | 0 <= j < n && Ends(ix, mi[j]) && x in Line(ix, mi[j], mi[j].echo) ensures x in mi[..n] {
      var l := Line(ix, mi[j], mi[j].echo);
      var i :| 0 <= i < |l| && l[i] == x;
      SoundOf(ix);
      LineOlder(ix, mi[j], mi[j].echo, i);
      InClosed(ix, mi, j, x);
      var k :| 0 <= k < |mi| && mi[k] == x;
      assert k <= j;
      assert mi[..n][k] == x;
    }
  }

  lemma SoundOf(ix: Index)
    requires WellFormed(ix)
    ensures Sound(ix)
  {
  }

  lemma NextInOrder(ix: Index, mi: seq<Info>, m: Info, old_: Groups, new_: Groups)
    requires WellFormed(ix) && AllListed(ix, mi) && Listed(ix, m) && forall i :: 0 <= i < |mi| ==> mi[i].num < m.num
    requires (forall k :: k in old_ ==> Ascending(ix, old_[k])) && Continued(ix, old_, new_) && Grouped(ix, new_)
    requires forall k, x :: (k in old_ && x in old_[k]) <==> Expected(ix, mi, k, x)
    requires forall k, x :: (k in new_ && x in new_[k]) <==> Expected(ix, mi + [m], k, x)
    ensures forall k :: k in new_ ==> Ascending(ix, new_[k])
  {
    hide WellFormed, Expected, Ascending, MemberOf, GroupOk, AllListed;
    forall k | k in new_ ensures Ascending(ix, new_[k]) {
      NoneAscend(ix);
      NextGroup(ix, mi, m, k, if k in old_ then old_[k] else [], new_[k]);
    }
  }

  lemma NextGroup(ix: Index, mi: seq<Info>, m: Info, k: Str, was: seq<Str>, now: seq<Str>)
    requires WellFormed(ix) && AllListed(ix, mi) && Listed(ix, m) && forall i :: 0 <= i < |mi| ==> mi[i].num < m.num
    requires Ascending(ix, was) && was <= now && GroupOk(ix, k, now)
    requires forall x :: x in was <==> Expected(ix, mi, k, x)
    requires forall x :: x in now <==> Expected(ix, mi + [m], k, x)
    ensures Ascending(ix, now)
  {
    hide WellFormed, Expected, Ascending, MemberOf, AllListed;
    assert was == now[..|was|];
    var a := now[|was|..];
    assert now == was + a;
    forall i | |was| <= i < |now| ensures now[i] == m.id {
      NewIsLast(ix, mi, m, k, now[i]);
      LaterIsNew(now, |was|, i);
    }
    AtMostOne(now, |was|, m.id);
    WasOlder(ix, mi, m, k, was);
    OneAtEnd(ix, was, a, m);
  }

  lemma LaterIsNew(r: seq<Str>, n: nat, i: nat)
    requires T.NoDups(r) && n <= i < |r|
    ensures r[i] !in r[..n]
  {
    forall j | 0 <= j < n ensures r[..n][j] != r[i] { assert r[..n][j] == r[j]; }
  }

  lemma AtMostOne(r: seq<Str>, n: nat, x: Str)
    requires T.NoDups(r) && forall i :: n <= i < |r| ==> r[i] == x
    ensures |r| <= n + 1
  {
    if n < |r| { assert r[n] == x && r[|r| - 1] == x; }
  }

  lemma NewIsLast(ix: Index, mi: seq<Info>, m: Info, k: Str, x: Str)
    requires Expected(ix, mi + [m], k, x)
    ensures Expected(ix, mi, k, x) || x == m.id
  {
    hide Ends, TopicOf;
    var j :| 0 <= j < |mi + [m]| && Ends(ix, (mi + [m])[j]) && !Self((mi + [m])[j]) && TopicOf(ix, (mi + [m])[j]) == k
             && (mi + [m])[j].id == x;
    if j < |mi| { assert (mi + [m])[j] == mi[j]; }
  }

  lemma WasOlder(ix: Index, mi: seq<Info>, m: Info, k: Str, was: seq<Str>)
    requires AllListed(ix, mi) && forall i :: 0 <= i < |mi| ==> mi[i].num < m.num
    requires forall x :: x in was ==> Expected(ix, mi, k, x)
    ensures forall i :: 0 <= i < |was| ==> was[i] in ix.hash && ix.hash[was[i]].num < m.num
  {
    hide Ends, TopicOf;
    forall i | 0 <= i < |was| ensures was[i] in ix.hash && ix.hash[was[i]].num < m.num {
      assert Expected(ix, mi, k, was[i]);
    }
  }

  lemma OneAtEnd(ix: Index, was: seq<Str>, a: seq<Str>, m: Info)
    requires Listed(ix, m) && Ascending(ix, was) && |a| <= 1 && (a != [] ==> a[0] == m.id)
    requires forall i :: 0 <= i < |was| ==> was[i] in ix.hash && ix.hash[was[i]].num < m.num
    ensures Ascending(ix, was + a)
  {
  }

  /** Where no reply was stored before the message it replies to, every topic of an ancestor-closed
      listing in list order ends up in ascending number, whatever is cached: oldest first, and the last
      id is the newest message. */
  lemma {:induction false} OldestFirst(ix: Index, mi: seq<Info>, c: Cache)
    requires WellFormed(ix) && CacheOk(ix, c) && RepliesFollow(ix)
    requires AllListed(ix, mi) && ByNumber(mi) && AncestorClosed(ix, mi)
    ensures Returns(ix, mi, c)
    ensures var topics := HandleAll(ix, mi, Blank(c)).value.topics; forall k :: k in topics ==> Ascending(ix, topics[k])
  {
    hide WellFormed, CacheOk, RepliesFollow, AncestorClosed, Listed, HandleAll, Continued, Ascending, Expected, Grouped, AllFiled,
         AllDue;
    GroupsComplete(ix, mi, c);
    if mi == [] {
      NothingHandled(ix, Blank(c));
    } else {
      var n := |mi| - 1;
      var init, m := mi[..n], mi[n];
      assert mi == init + [m];
      PrefixClosed(ix, mi, n);
      OldestFirst(ix, init, c);
      GroupsComplete(ix, init, c);
      SoundOf(ix);
      GroupsContinue(ix, init, m, c);
      var b, d := HandleAll(ix, init, Blank(c)).value, HandleAll(ix, mi, Blank(c)).value;
      forall k, x ensures (k in b.topics && x in b.topics[k]) <==> Expected(ix, init, k, x) {
        GroupsExact(ix, init, b.topics, b.c, k, x);
      }
      forall k, x ensures (k in d.topics && x in d.topics[k]) <==> Expected(ix, mi, k, x) {
        GroupsExact(ix, mi, d.topics, d.c, k, x);
      }
      NextInOrder(ix, init, m, b.topics, d.topics);
    }
  }

  // ---------------------------------------------------------------- what a topic is

  /** The ids from m upwards: each is shown and is what the message before it replies to. */
  ghost predicate Chain(ix: Index, m: Info, ids: seq<Str>) {
    ids != [] && ids[0] == m.id && (forall i :: 0 <= i < |ids| ==> ids[i] in ix.hash)
    && forall i :: 0 < i < |ids| ==> Link(ix, ids, i)
  }

  ghost predicate Link(ix: Index, ids: seq<Str>, i: nat)
    requires 0 < i < |ids| && ids[i - 1] in ix.hash && ids[i] in ix.hash
  {
    var p := ix.hash[ids[i - 1]];
    p.repto == ids[i] && p.repto != "" && p.repto != p.id && ix.hash[ids[i]].off >= 0
  }

  /** Nothing is shown above the last one, or it replies to itself. */
  ghost predicate ChainEnds(ix: Index, ids: seq<Str>)
    requires ids != [] && ids[|ids| - 1] in ix.hash
  {
    var p := ix.hash[ids[|ids| - 1]];
    p.repto == "" || p.repto == p.id || p.repto !in ix.hash || ix.hash[p.repto].off < 0
  }

  /** A message of the echo that does not reply to itself. */
  ghost predicate Counts(ix: Index, id: Str, echo: Str) {
    id in ix.hash && ix.hash[id].echo == echo && ix.hash[id].repto != ix.hash[id].id
  }

  lemma {:induction false} WalkFurthest(ix: Index, p: Info, ids: seq<Str>, echo: Str, topic: Str, i: int)
    requires Sound(ix) && Listed(ix, p) && Chain(ix, p, ids) && ChainEnds(ix, ids) && -1 <= i < |ids|
    requires i >= 0 ==> Counts(ix, ids[i], echo)
    requires forall j :: i < j < |ids| ==> !Counts(ix, ids[j], echo)
    ensures Ends(ix, p) && PlainWalk(ix, p, echo, topic) == if i < 0 then topic else ids[i]
    decreases |ids|
  {
    hide Sound, Ends, Height;
    if |ids| == 1 {
      EndsHere(ix, p);
      WalkStep(ix, p, echo, topic);
    } else {
      var q, rest := ix.hash[ids[1]], ids[1..];
      HashNames(ix, ids[1]);
      RestChain(ix, p, ids);
      var here := if p.echo == echo then p.id else topic;
      WalkFurthest(ix, q, rest, echo, here, if i <= 0 then -1 else i - 1);
      EndsAbove(ix, p, q);
      WalkStep(ix, p, echo, topic);
    }
  }

  lemma RestChain(ix: Index, p: Info, ids: seq<Str>)
    requires Sound(ix) && Listed(ix, p) && Chain(ix, p, ids) && ChainEnds(ix, ids) && |ids| > 1
    ensures Chain(ix, ix.hash[ids[1]], ids[1..]) && ChainEnds(ix, ids[1..])
    ensures Parent(ix, p) == Some(ix.hash[ids[1]]) && !Self(p)
  {
    HashNames(ix, ids[1]);
    assert Link(ix, ids, 1);
    var rest := ids[1..];
    forall i | 0 <= i < |rest| ensures rest[i] in ix.hash { assert rest[i] == ids[i + 1]; }
    forall i | 0 < i < |rest| ensures Link(ix, rest, i) {
      assert Link(ix, ids, i + 1) && rest[i] == ids[i + 1] && rest[i - 1] == ids[i];
    }
  }

  lemma EndsHere(ix: Index, p: Info)
    ensures Self(p) || Parent(ix, p).None? ==> Ends(ix, p)
  {
    assert Self(p) || Parent(ix, p).None? ==> EndsIn(ix, p, 0);
  }

  lemma EndsAbove(ix: Index, p: Info, q: Info)
    requires Parent(ix, p) == Some(q) && Ends(ix, q)
    ensures Ends(ix, p)
  {
    var n: nat :| EndsIn(ix, q, n);
    assert EndsIn(ix, p, n + 1);
  }

  lemma WalkStep(ix: Index, p: Info, echo: Str, topic: Str)
    requires Ends(ix, p)
    ensures !Self(p) && Parent(ix, p).Some? ==> Ends(ix, Parent(ix, p).value)
    ensures PlainWalk(ix, p, echo, topic)
            == if Self(p) then topic
               else if Parent(ix, p).None? then (if p.echo == echo then p.id else topic)
               else PlainWalk(ix, Parent(ix, p).value, echo, if p.echo == echo then p.id else topic)
  {
    hide Ends, Height;
    if !Self(p) && Parent(ix, p).Some? { ParentLower(ix, p); }
  }

  /** The topic of a message, read off its reply chain: the last message on it of the same echo that
      does not reply to itself, whatever other echoes the chain passes through. */
  lemma TopicIsFurthest(ix: Index, m: Info, ids: seq<Str>, i: nat)
    requires Sound(ix) && Listed(ix, m) && Chain(ix, m, ids) && ChainEnds(ix, ids)
    requires i < |ids| && Counts(ix, ids[i], m.echo) && forall j :: i < j < |ids| ==> !Counts(ix, ids[j], m.echo)
    ensures Ends(ix, m) && TopicOf(ix, m) == ids[i]
  {
    hide Sound, Ends, PlainWalk, Chain, ChainEnds, Counts;
    WalkFurthest(ix, m, ids, m.echo, m.id, i);
  }

  lemma {:induction false} ChainOf(ix: Index, p: Info) returns (ids: seq<Str>)
    requires Sound(ix) && Listed(ix, p) && Ends(ix, p)
    ensures Chain(ix, p, ids) && ChainEnds(ix, ids)
    decreases Height(ix, p)
  {
    hide Ends, Height, Sound;
    if Self(p) || Parent(ix, p).None? {
      ids := [p.id];
    } else {
      var q := Parent(ix, p).value;
      ParentLower(ix, p);
      HashNames(ix, p.repto);
      var rest := ChainOf(ix, q);
      ids := [p.id] + rest;
      MoreChain(ix, p, q, rest);
    }
  }

  lemma MoreChain(ix: Index, p: Info, q: Info, rest: seq<Str>)
    requires Listed(ix, p) && !Self(p) && Parent(ix, p) == Some(q) && q.id == p.repto && Chain(ix, q, rest) && ChainEnds(ix, rest)
    ensures Chain(ix, p, [p.id] + rest) && ChainEnds(ix, [p.id] + rest)
  {
    var ids := [p.id] + rest;
    forall i | 0 <= i < |ids| ensures ids[i] in ix.hash {
      if i > 0 { assert ids[i] == rest[i - 1]; }
    }
    forall i | 0 < i < |ids| ensures Link(ix, ids, i) {
      if i > 1 {
        assert Link(ix, rest, i - 1);
        assert ids[i] == rest[i - 1] && ids[i - 1] == rest[i - 2];
      }
    }
    assert ids[|ids| - 1] == rest[|rest| - 1];
  }
}
