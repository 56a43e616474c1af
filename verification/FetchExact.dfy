/** A run of Fetch against the fetcher on its own: for an echo that only its own fetcher reaches, a run
    without errors stores exactly the ids that Fetch.Fetcher works out, whatever the others do. */
module FetchExact {
  import opened Bytes
  import opened Codec
  import opened Log
  import opened Store
  import opened Url
  import opened Fetch
  import opened FetchRun
  import opened FetchData
  import Db
  import S = Serve
  import T = Tags

  /** The same ids of the list are in both. */
  ghost predicate Same(l: seq<Str>, a: set<Str>, b: set<Str>) { forall i :: 0 <= i < |l| ==> (l[i] in a <==> l[i] in b) }

  /** What the fetcher of e would ask for at the start. */
  ghost function Want(c: Config, was: set<Str>, e: Str): seq<Str> {
    ToFetch(was, ListOf(c, e), c.limit, c.force, c.feature)
  }

  /** One fetcher for e, reached by no other, and all that is missing can be asked for. */
  ghost predicate Exact(c: Config, was: set<Str>, e: Str) {
    Ready(c) && Alone(c, e) && T.NoDups(Valid(c.echoes))
    && forall i :: 0 <= i < |ListOf(c, e)| ==> ListOf(c, e)[i] in was || UrlPlain(ListOf(c, e)[i])
  }

  /** All but `rest` of what was wanted has been stored. */
  ghost predicate Got(l: seq<Str>, known: set<Str>, was: set<Str>, want: seq<Str>, rest: seq<Str>) {
    var n := |want| - |rest|;
    n >= 0 && want[n..] == rest && Same(l, known, Fetched(was, want[..n]))
  }

  /** How far the fetcher of e has come, `known` being held by now. */
  ghost predicate ExactPc(c: Config, was: set<Str>, known: set<Str>, e: Str, pc: Pc) {
    var l, want := ListOf(c, e), Want(c, was, e);
    match pc
    case AskLast => Same(l, known, was)
    case Probing(limit, tries) =>
      Same(l, known, was) && c.feature && c.limit < 0 && (c.force || !LastKnown(was, l)) && limit <= MAX_INT64
      && Settle(was, l, limit, tries) == Settle(was, l, Wrap(-c.limit), 0)
    case Asking(limit) => Same(l, known, was) && limit <= MAX_INT64 && want == Missing(was, Asked(l, limit))
    case Listing(todo, res) => Same(l, known, was) && AllIn(todo, l) && want == res + Missing(was, todo)
    case Sending(left) => Got(l, known, was, want, left)
    case Saving(lines, left) => Got(l, known, was, want, IdsIn(c.sum, lines) + left)
    case _ => Got(l, known, was, want, [])
  }

  // ---------------------------------------------------------------- small facts

  lemma SameOther(l: seq<Str>, known: set<Str>, next: set<Str>, b: set<Str>)
    requires Same(l, known, b) && known <= next && forall x :: x in next && x !in known ==> x !in l
    ensures Same(l, next, b)
  {
  }

  lemma PcOther(c: Config, was: set<Str>, known: set<Str>, next: set<Str>, e: Str, pc: Pc)
    requires ExactPc(c, was, known, e, pc) && known <= next && forall x :: x in next && x !in known ==> x !in ListOf(c, e)
    ensures ExactPc(c, was, next, e, pc)
  {
    hide Want, ListOf, Settle, Missing, Asked, IdsIn, LastKnown, Fetched, AllIn;
    forall b | Same(ListOf(c, e), known, b) ensures Same(ListOf(c, e), next, b) { SameOther(ListOf(c, e), known, next, b); }
  }

  /** What another name's fetcher stores is not on the list. */
  lemma OtherList(c: Config, e: Str, g: Str, x: Str)
    requires Alone(c, g) && e in c.echoes && IsEcho(e) && e != g && Theirs(c, e, x)
    ensures x !in ListOf(c, g)
  {
    hide S.Public, Table, Sound, IsEcho, Touches, UrlPlain;
    var h :| IsEcho(h) && Touches(e, h) && x in ListOf(c, h);
    if h != g {
      EchoNotEmpty(h);
      EchoNotEmpty(g);
      PublicApart(c, h, g, x);
    }
  }

  lemma PublicApart(c: Config, h: Str, g: Str, x: Str)
    requires h != [] && g != [] && h != g && x in ListOf(c, h)
    ensures x !in ListOf(c, g)
  {
    hide S.Public, Table, Sound;
    S.PublicDistinct(Table(c), h, g);
  }

  lemma {:induction false} MissingCons(known: set<Str>, x: Str, rest: seq<Str>)
    ensures Missing(known, [x] + rest) == (if x in known then [] else [x]) + Missing(known, rest)
  {
    if rest == [] {
      assert [x] + rest == [x] && [x][..0] == [];
    } else {
      var n := |rest| - 1;
      MissingCons(known, x, rest[..n]);
      assert ([x] + rest)[..n + 1] == [x] + rest[..n];
    }
  }

  lemma MissingHead(known: set<Str>, todo: seq<Str>)
    requires todo != []
    ensures Missing(known, todo) == (if todo[0] in known then [] else [todo[0]]) + Missing(known, todo[1..])
  {
    assert todo == [todo[0]] + todo[1..];
    MissingCons(known, todo[0], todo[1..]);
  }

  lemma AskedIn(l: seq<Str>, limit: int)
    ensures AllIn(Asked(l, limit), l)
  {
  }

  /** All that is wanted is on the list, was not held, and can be asked for. */
  lemma WantPlain(c: Config, was: set<Str>, e: Str)
    requires Exact(c, was, e)
    ensures var want := Want(c, was, e);
            AllIn(want, ListOf(c, e)) && AllUrlPlain(want) && forall i :: 0 <= i < |want| ==> want[i] !in was
  {
    hide ListOf, Settle, Missing, Alone, Ready, Asked, Valid, UrlPlain;
    var l, want := ListOf(c, e), Want(c, was, e);
    var limit := if c.limit < 0 then Settle(was, l, Wrap(-c.limit), 0) else c.limit;
    MissingIs(was, l);
    MissingIs(was, Asked(l, limit));
    AskedIn(l, limit);
    forall i | 0 <= i < |want| ensures want[i] in l && want[i] !in was && UrlPlain(want[i]) {
      assert want[i] in want;
      if want[i] in Asked(l, limit) { var k :| 0 <= k < |Asked(l, limit)| && Asked(l, limit)[k] == want[i]; }
      var k :| 0 <= k < |l| && l[k] == want[i];
    }
  }

  /** One answer of a probe holds one id of the list, or none. */
  lemma ReplyIn(l: seq<Str>, start: int)
    ensures S.Concat(S.Slice(l, start, 1)) in l || S.Concat(S.Slice(l, start, 1)) == []
  {
    var s := S.Slice(l, start, 1);
    assert |s| <= 1;
    if |s| == 1 {
      ConcatOne(s[0]);
      assert s == [s[0]];
    } else {
      assert s == [];
    }
  }

  lemma SameIn(l: seq<Str>, a: set<Str>, b: set<Str>, x: Str)
    requires Same(l, a, b) && x in l
    ensures x in a <==> x in b
  {
    var i :| 0 <= i < |l| && l[i] == x;
  }

  lemma NoIdEmpty()
    ensures !IsMsgId([])
  {
  }

  // ---------------------------------------------------------------- the fetcher's own steps

  /** A step of the fetcher of e that keeps to what it should do, and is not cut. */
  ghost predicate ExactOut(c: Config, was: set<Str>, e: Str, o: Out) { !o.cut && ExactPc(c, was, Held(c, o.local), e, o.pc) }

  lemma AskLastExact(c: Config, was: set<Str>, local: World, e: Str, now: int)
    requires Exact(c, was, e) && Consistent(c.sum, local) && ExactPc(c, was, Held(c, local), e, AskLast)
    ensures ExactOut(c, was, e, BodyStep(c, local, e, AskLast, now))
  {
    hide S.Listed, Table, ListOf, IsEcho, UrlPlain, Consistent, Held, Looked, Exists, GoodSum, IsMsgId, S.Concat, S.Slice, S.AllIds,
         T.NoDups, S.SlicePath, Settle, Missing, Valid, Touches;
    var l, known := ListOf(c, e), Held(c, local);
    LookedGood(c, local);
    Reads(c, e, -1, 1);
    ReplyIn(l, -1);
    NoIdEmpty();
    var id := S.Concat(S.Slice(l, -1, 1));
    S.SliceIds(l, -1, 1);
    PayloadOfIds(S.Slice(l, -1, 1));
    LastId(l, known, id);
    LastId(l, was, id);
    if id in l { SameIn(l, known, was, id); }
    WholeAsked(l);
    Done0(l, known, was);
  }

  lemma WholeAsked(l: seq<Str>)
    ensures Asked(l, 0) == l
  {
  }

  /** Nothing wanted, nothing stored. */
  lemma Done0(l: seq<Str>, known: set<Str>, was: set<Str>)
    requires Same(l, known, was)
    ensures Got(l, known, was, [], [])
  {
    assert Fetched(was, []) == was;
  }

  /** What a probe finds, read with the ids held by now, and where it leaves the loop. */
  lemma ProbeExact(l: seq<Str>, known: set<Str>, was: set<Str>, limit: int, tries: nat)
    requires S.AllIds(l) && Same(l, known, was)
    ensures var id := S.Concat(S.Slice(l, Wrap(-limit), 1));
            Settle(was, l, limit, tries)
            == if tries > 16 || !IsMsgId(id) then 0
               else if id in known then limit else Settle(was, l, Wrap(limit * 2), tries + 1)
  {
    hide IsMsgId, S.Concat, S.Slice;
    TurnAt(was, l, limit, tries);
    ReplyIn(l, Wrap(-limit));
    NoIdEmpty();
    var id := S.Concat(S.Slice(l, Wrap(-limit), 1));
    if id in l { SameIn(l, known, was, id); }
  }

  lemma ProbingExact(c: Config, was: set<Str>, local: World, e: Str, pc: Pc, now: int)
    requires Exact(c, was, e) && Consistent(c.sum, local) && pc.Probing? && ExactPc(c, was, Held(c, local), e, pc)
    ensures ExactOut(c, was, e, BodyStep(c, local, e, pc, now))
  {
    hide S.Listed, Table, ListOf, IsEcho, UrlPlain, Consistent, Held, Looked, Exists, GoodSum, IsMsgId, S.Concat, S.Slice, S.AllIds,
         T.NoDups, S.SlicePath, Missing, Valid, Touches, LastKnown, Settle, Same, Asked;
    var l, known, limit := ListOf(c, e), Held(c, local), pc.limit;
    LookedGood(c, local);
    Reads(c, e, Wrap(-limit), 1);
    ProbeExact(l, known, was, limit, pc.tries);
    NoLimit(l);
  }

  lemma NoLimit(l: seq<Str>)
    ensures forall limit: int :: limit <= 0 ==> Asked(l, limit) == Asked(l, 0)
  {
  }

  lemma AskingExact(c: Config, was: set<Str>, local: World, e: Str, pc: Pc, now: int)
    requires Exact(c, was, e) && pc.Asking? && ExactPc(c, was, Held(c, local), e, pc)
    ensures ExactOut(c, was, e, BodyStep(c, local, e, pc, now))
  {
    hide S.Listed, Table, ListOf, IsEcho, UrlPlain, Held, T.NoDups, S.SlicePath, Missing, Valid, Touches, Asked, Want, Ready;
    var l := ListOf(c, e);
    PlainAsks(c, e, pc.limit);
    AskedIn(l, pc.limit);
    var none: seq<Str> := [];
    assert none + Missing(was, Asked(l, pc.limit)) == Missing(was, Asked(l, pc.limit));
  }

  lemma ListingExact(c: Config, was: set<Str>, local: World, e: Str, pc: Pc, now: int)
    requires Exact(c, was, e) && Consistent(c.sum, local) && pc.Listing? && ExactPc(c, was, Held(c, local), e, pc)
    ensures ExactOut(c, was, e, BodyStep(c, local, e, pc, now))
  {
    hide ListOf, IsEcho, UrlPlain, Held, T.NoDups, Missing, Valid, Want, Exists, Looked, GoodSum, Consistent, Alone;
    var l, known, todo, res := ListOf(c, e), Held(c, local), pc.todo, pc.res;
    LookedGood(c, local);
    if todo == [] {
      NoneMissing(was);
      assert res + [] == res;
      AllLeft(l, known, was, res);
    } else {
      MissingHead(was, todo);
      SameIn(l, known, was, todo[0]);
      var rest := Missing(was, todo[1..]);
      assert res + ([todo[0]] + rest) == (res + [todo[0]]) + rest && res + ([] + rest) == res + rest;
    }
  }

  lemma AllLeft(l: seq<Str>, known: set<Str>, was: set<Str>, want: seq<Str>)
    requires Same(l, known, was)
    ensures Got(l, known, was, want, want)
  {
    assert want[..0] == [] && want[0..] == want && Fetched(was, []) == was;
  }

  lemma SendingExact(c: Config, was: set<Str>, known: set<Str>, local: World, w: Worker, now: int)
    requires Exact(c, was, w.echo) && known == Held(c, local) && w.pc.Sending? && ExactPc(c, was, known, w.echo, w.pc)
    requires WorkOk(c, was, known, w)
    ensures ExactOut(c, was, w.echo, BodyStep(c, local, w.echo, w.pc, now))
  {
    hide ListOf, UrlPlain, Held, Want, Elements, Node, Db.MLines, IdsIn, AllCarried, Got, Theirs, GoodEcho, Alone, Valid, Queue;
    var left := w.pc.left;
    if left != [] {
      WantPlain(c, was, w.echo);
      RestPlain(ListOf(c, w.echo), known, was, Want(c, was, w.echo), left);
      var batch := Batch(left);
      assert left == batch + left[|batch|..];
      TheirsIds(c, w.echo, batch);
      RequestPathIff(batch, 20);
      assert AllUrlPlain(batch);
      assert AllTheirs(c, w.echo, batch);
      BatchAnswer(c, w.echo, batch);
    }
  }

  lemma RestPlain(l: seq<Str>, known: set<Str>, was: set<Str>, want: seq<Str>, rest: seq<Str>)
    requires AllUrlPlain(want) && Got(l, known, was, want, rest)
    ensures AllUrlPlain(rest)
  {
    hide UrlPlain;
    var n := |want| - |rest|;
    forall i | 0 <= i < |rest| ensures UrlPlain(rest[i]) { assert rest[i] == want[n + i]; }
  }

  /** One more of what was wanted has been stored. */
  lemma OneMoreGot(l: seq<Str>, known: set<Str>, was: set<Str>, want: seq<Str>, rest: seq<Str>)
    requires rest != [] && Got(l, known, was, want, rest)
    ensures Got(l, known + {rest[0]}, was, want, rest[1..])
  {
    var n := |want| - |rest|;
    assert rest[0] == want[n] && want[..n + 1] == want[..n] + [want[n]];
    assert want[n + 1..] == rest[1..];
    assert Fetched(was, want[..n + 1]) == Fetched(was, want[..n]) + {want[n]};
  }

  lemma SavingExact(c: Config, was: set<Str>, local: World, w: Worker, now: int)
    requires Exact(c, was, w.echo) && Consistent(c.sum, local) && w.pc.Saving?
    requires ExactPc(c, was, Held(c, local), w.echo, w.pc) && WorkOk(c, was, Held(c, local), w)
    requires MIN_INT64 <= now <= MAX_INT64 && |BodyStep(c, local, w.echo, w.pc, now).local.files.log| <= MAX_INT64
    ensures ExactOut(c, was, w.echo, BodyStep(c, local, w.echo, w.pc, now))
  {
    hide ListOf, UrlPlain, Held, Want, IdsIn, AllCarried, Got, Theirs, GoodEcho, Alone, Valid, Queue, Decode, Do, Consistent, GoodSum,
         Carried;
    var lines, left, known := w.pc.lines, w.pc.left, Held(c, local);
    var ids := IdsIn(c.sum, lines);
    if lines == [] {
      assert ids + left == left;
    } else {
      LineOk(c, was, known, w);
      SaveLine(c, local, lines[0], ids[0], now);
      OneMoreGot(ListOf(c, w.echo), known, was, Want(c, was, w.echo), ids + left);
      assert (ids + left)[1..] == ids[1..] + left && (ids + left)[0] == ids[0];
      TailIds(c.sum, lines);
    }
  }

  lemma TailIds(sum: Str -> Str, lines: seq<Str>)
    requires lines != []
    ensures IdsIn(sum, lines[1..]) == IdsIn(sum, lines)[1..]
  {
    hide Decode;
  }

  lemma BodyExact(c: Config, was: set<Str>, local: World, w: Worker, now: int)
    requires Exact(c, was, w.echo) && Consistent(c.sum, local) && InBody(w.pc) && MIN_INT64 <= now <= MAX_INT64
    requires ExactPc(c, was, Held(c, local), w.echo, w.pc) && WorkOk(c, was, Held(c, local), w)
    requires |BodyStep(c, local, w.echo, w.pc, now).local.files.log| <= MAX_INT64
    ensures ExactOut(c, was, w.echo, BodyStep(c, local, w.echo, w.pc, now))
  {
    hide Exact, Consistent, ExactPc, WorkOk, BodyStep, ExactOut, Held;
    match w.pc
    case AskLast => AskLastExact(c, was, local, w.echo, now);
    case Probing(_, _) => ProbingExact(c, was, local, w.echo, w.pc, now);
    case Asking(_) => AskingExact(c, was, local, w.echo, w.pc, now);
    case Listing(_, _) => ListingExact(c, was, local, w.echo, w.pc, now);
    case Sending(_) => SendingExact(c, was, Held(c, local), local, w, now);
    case Saving(_, _) => SavingExact(c, was, local, w, now);
  }

  // ---------------------------------------------------------------- the whole system

  /** What a run without errors keeps for e. */
  ghost predicate ExactSys(c: Config, was: set<Str>, e: Str, s: Sys) {
    (forall j :: 0 <= j < |s.workers| && s.workers[j].echo == e ==>
       !s.workers[j].cut && ExactPc(c, was, Held(c, s.local), e, s.workers[j].pc))
    && (e !in Echoes(s.workers) ==> Same(ListOf(c, e), Held(c, s.local), was))
  }

  lemma {:induction false} ValidPrefix(echoes: seq<Str>, n: nat)
    requires n <= |echoes|
    ensures Valid(echoes[..n]) <= Valid(echoes)
    decreases |echoes| - n
  {
    if n < |echoes| {
      ValidPrefix(echoes, n + 1);
      ValidNext(echoes, n);
    } else {
      assert echoes[..n] == echoes;
    }
  }

  /** Each valid echo has one fetcher at most. */
  lemma OneEach(c: Config, s: Sys)
    requires ControlOk(c, s) && T.NoDups(Valid(c.echoes))
    ensures T.NoDups(Echoes(s.workers))
    ensures forall i, j :: 0 <= i < j < |s.workers| ==> s.workers[i].echo != s.workers[j].echo
  {
    hide LockOk, BoundOk, Valid;
    ValidPrefix(c.echoes, Handled(c, s.master));
    var r := Echoes(s.workers);
    assert forall i :: 0 <= i < |r| ==> r[i] == Valid(c.echoes)[i];
  }

  lemma MasterExact(c: Config, was: set<Str>, e: Str, s: Sys)
    requires Exact(c, was, e) && ControlOk(c, s) && ExactSys(c, was, e, s) && Enabled(c, s, M)
    ensures ExactSys(c, was, e, MasterStep(c, s))
  {
    hide Held, ListOf, Ready, Alone, UrlPlain, LockOk, SpawnOk, BoundOk, Valid, Want, Same, IsEcho;
    var t := MasterStep(c, s);
    MasterControl(c, s);
    OneEach(c, t);
    if |t.workers| > |s.workers| {
      var n := |s.workers|;
      assert t.workers == s.workers + [t.workers[n]];
      EchoesSpawn(s.workers, t.workers[n]);
      assert forall j :: 0 <= j < n ==> t.workers[j] == s.workers[j];
      assert Echoes(t.workers)[n] == t.workers[n].echo;
    }
  }

  lemma WorkerExact(c: Config, was: set<Str>, e: Str, s: Sys, j: nat, now: int)
    requires Exact(c, was, e) && ControlOk(c, s) && DataOk(c, was, s) && ExactSys(c, was, e, s) && Enabled(c, s, W(j, now))
    requires |WorkerStep(c, s, j, now).local.files.log| <= MAX_INT64
    ensures ExactSys(c, was, e, WorkerStep(c, s, j, now))
  {
    hide Held, ListOf, Ready, ControlOk, UrlPlain, Valid, Want, Same, IsEcho, BodyStep, WorkOk, ExactPc, Consistent, GoodEcho, Prefix,
         Alone, Theirs;
    var w, t := s.workers[j], WorkerStep(c, s, j, now);
    OneEach(c, s);
    BodyStays(c, s, j, now);
    EchoesUpdate(s.workers, j, t.workers[j]);
    if InBody(w.pc) {
      var known, next := Held(c, s.local), Held(c, t.local);
      WorkerEcho(c, s, j);
      BodyData(c, was, s.local, w, now);
      if w.echo == e {
        BodyExact(c, was, s.local, w, now);
        assert e in Echoes(s.workers) by { assert Echoes(s.workers)[j] == e; }
      } else {
        forall x | x in next && x !in known ensures x !in ListOf(c, e) { OtherList(c, w.echo, e, x); }
        forall i | 0 <= i < |s.workers| && s.workers[i].echo == e ensures ExactPc(c, was, next, e, s.workers[i].pc) {
          PcOther(c, was, known, next, e, s.workers[i].pc);
        }
        if Same(ListOf(c, e), known, was) { SameOther(ListOf(c, e), known, next, was); }
      }
    } else {
      AfterExact(c, was, Held(c, s.local), e, w, t.workers[j]);
    }
  }

  lemma AfterExact(c: Config, was: set<Str>, known: set<Str>, e: Str, w: Worker, v: Worker)
    requires !InBody(w.pc) && !InBody(v.pc)
    ensures ExactPc(c, was, known, e, w.pc) <==> ExactPc(c, was, known, e, v.pc)
  {
    hide Got, Want, ListOf;
  }

  lemma {:induction false} RunExact(c: Config, local: World, evs: seq<Event>, e: Str)
    requires Exact(c, Held(c, local), e) && Consistent(c.sum, local) && Exec(c, local, evs).Some? && Calm(evs)
    requires |Exec(c, local, evs).value.local.files.log| <= MAX_INT64
    ensures ExactSys(c, Held(c, local), e, Exec(c, local, evs).value)
  {
    hide Ready, Consistent, Held, DataOk, Enabled, ControlOk, Alone, ListOf, Valid, UrlPlain, WorkerStep, ExactPc;
    var was := Held(c, local);
    if evs == [] {
      assert Same(ListOf(c, e), was, was);
    } else {
      var before, ev := evs[..|evs| - 1], evs[|evs| - 1];
      var s := Exec(c, local, before).value;
      StepLog(c, s, ev);
      RunExact(c, local, before, e);
      RunData(c, local, before);
      RunControl(c, local, before);
      assert !ev.Fail?;
      if ev.M? { MasterExact(c, was, e, s); } else { WorkerExact(c, was, e, s, ev.j, ev.now); }
    }
  }

  lemma {:induction false} ValidIn(echoes: seq<Str>, e: Str)
    requires e in echoes && IsEcho(e)
    ensures e in Valid(echoes)
  {
    hide IsEcho;
    if echoes != [] {
      var n := |echoes| - 1;
      if e != echoes[n] { ValidIn(echoes[..n], e); }
    }
  }

  /** When Fetch has returned from a run without errors, in whatever interleaving, the ids of such an echo
      that are held are those held before and those its fetcher on its own would have asked for: for
      every limit and mode, with its fast path, its probes and its window. */
  lemma FetchExactly(c: Config, local: World, evs: seq<Event>, e: Str, x: Str)
    requires Exact(c, Held(c, local), e) && Consistent(c.sum, local) && Exec(c, local, evs).Some? && Calm(evs)
    requires |Exec(c, local, evs).value.local.files.log| <= MAX_INT64
    requires Exec(c, local, evs).value.master.Returned? && e in c.echoes && x in ListOf(c, e)
    ensures x in Held(c, Exec(c, local, evs).value.local)
            <==> x in Held(c, local) || x in ToFetch(Held(c, local), ListOf(c, e), c.limit, c.force, c.feature)
  {
    hide Ready, Consistent, Held, ControlOk, ListOf, Valid, UrlPlain, Exec, ToFetch, Touches, IsEcho;
    var s, was, l, want := Exec(c, local, evs).value, Held(c, local), ListOf(c, e), Want(c, Held(c, local), e);
    RunExact(c, local, evs, e);
    RunControl(c, local, evs);
    ReturnedDone(c, local, evs);
    ValidIn(c.echoes, e);
    var j :| 0 <= j < |Echoes(s.workers)| && Echoes(s.workers)[j] == e;
    assert Got(l, Held(c, s.local), was, want, []);
    assert want[..|want|] == want;
    SameIn(l, Held(c, s.local), Fetched(was, want), x);
  }
}
