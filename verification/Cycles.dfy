/** Reply cycles: exactly when the walk of GetTopics halts, and exactly when a call returns. */
module Cycles {
  import opened Bytes
  import opened Log
  import opened Topics

  function Up(ix: Index, p: Info): Option<Info> { if Self(p) then None else Parent(ix, p) }

  /** The n-th message of the reply chain. */
  function At(ix: Index, p: Info, n: nat): Option<Info>
    decreases n
  {
    if n == 0 then Some(p) else if Up(ix, p).None? then None else At(ix, Up(ix, p).value, n - 1)
  }

  /** The cache after the walk from m has handled n messages. */
  function MarksAt(ix: Index, m: Info, c: Cache, n: nat): Cache {
    if n == 0 then c
    else
      var before, p := MarksAt(ix, m, c, n - 1), At(ix, m, n - 1);
      if p.Some? && p.value.echo == m.echo && Cached(before, p.value.id) == []
      then before[p.value.id := VISITED] else before
  }

  /** The loop condition or the break of the walk applies at message n. */
  predicate StopsAt(ix: Index, m: Info, c: Cache, n: nat) {
    var p := At(ix, m, n);
    p.None? || Self(p.value) || Cached(MarksAt(ix, m, c, n), p.value.id) == VISITED
  }

  /** What the walk from m has collected of its first n messages. */
  function Collected(ix: Index, m: Info, n: nat): seq<Info> {
    if n == 0 then []
    else
      var p := At(ix, m, n - 1);
      Collected(ix, m, n - 1) + if p.Some? && p.value.echo == m.echo then [p.value] else []
  }

  /** The chain comes back to a message of m's echo that had no cached topic. */
  ghost predicate Revisits(ix: Index, m: Info, c: Cache, i: nat, j: nat) {
    i < j && At(ix, m, i).Some? && At(ix, m, i) == At(ix, m, j)
    && At(ix, m, i).value.echo == m.echo && Cached(c, At(ix, m, i).value.id) == []
  }

  lemma {:induction false} AtNext(ix: Index, p: Info, n: nat)
    ensures At(ix, p, n + 1) == if At(ix, p, n).None? then None else Up(ix, At(ix, p, n).value)
    decreases n
  {
    if n > 0 && Up(ix, p).Some? {
      AtNext(ix, Up(ix, p).value, n - 1);
    }
  }

  lemma {:induction false} EndsIsAt(ix: Index, p: Info, n: nat)
    ensures EndsIn(ix, p, n) <==> At(ix, p, n + 1).None?
    decreases n
  {
    if n > 0 && Up(ix, p).Some? {
      EndsIsAt(ix, Up(ix, p).value, n - 1);
    }
  }

  lemma {:induction false} AtListed(ix: Index, p: Info, n: nat)
    requires Sound(ix) && Listed(ix, p) && At(ix, p, n).Some?
    ensures Listed(ix, At(ix, p, n).value)
    decreases n
  {
    if n > 0 {
      AtListed(ix, Up(ix, p).value, n - 1);
    }
  }

  ghost predicate MetBefore(ix: Index, m: Info, n: nat, id: Str) {
    exists i :: 0 <= i < n && MetAt(ix, m, i, id)
  }

  ghost predicate MetAt(ix: Index, m: Info, i: nat, id: Str) {
    At(ix, m, i).Some? && At(ix, m, i).value.id == id && At(ix, m, i).value.echo == m.echo
  }

  lemma {:induction false} MarksAre(ix: Index, m: Info, c: Cache, n: nat, id: Str)
    ensures Cached(MarksAt(ix, m, c, n), id)
            == if Cached(c, id) == [] && MetBefore(ix, m, n, id) then VISITED else Cached(c, id)
  {
    if n > 0 {
      MarksAre(ix, m, c, n - 1, id);
      assert MetBefore(ix, m, n, id) <==> MetBefore(ix, m, n - 1, id) || MetAt(ix, m, n - 1, id);
    }
  }

  // ---------------------------------------------------------------- one walk

  ghost predicate Unstopped(ix: Index, m: Info, c: Cache, n: nat) {
    forall k: nat :: k < n ==> !StopsAt(ix, m, c, k)
  }

  /** The loop of the walk, turn by turn. */
  lemma {:induction false} TurnsAre(ix: Index, m: Info, c: Cache, n: nat)
    requires Unstopped(ix, m, c, n)
    ensures Turns(ix, m, c, n)
            == match At(ix, m, n)
               case Some(p) => Walking(p, Collected(ix, m, n), MarksAt(ix, m, c, n))
               case None => Halted(Collected(ix, m, n), MarksAt(ix, m, c, n))
  {
    hide At, Parent;
    if n == 0 {
      AtStart(ix, m);
    } else {
      assert !StopsAt(ix, m, c, n - 1);
      TurnsAre(ix, m, c, n - 1);
      AtNext(ix, m, n - 1);
    }
  }

  lemma AtStart(ix: Index, m: Info)
    ensures At(ix, m, 0) == Some(m)
  {
  }

  lemma {:induction false} FirstStop(ix: Index, m: Info, c: Cache, n: nat) returns (k: nat)
    requires StopsAt(ix, m, c, n)
    ensures k <= n && StopsAt(ix, m, c, k) && Unstopped(ix, m, c, k)
  {
    hide StopsAt;
    if Unstopped(ix, m, c, n) {
      k := n;
    } else {
      k :| k < n && StopsAt(ix, m, c, k);
      k := FirstStop(ix, m, c, k);
    }
  }

  /** The cache a walk leaves that stops at message n: a self-reply or a mark met is unmarked. */
  function Left(ix: Index, m: Info, c: Cache, n: nat): Cache {
    var d := MarksAt(ix, m, c, n);
    match At(ix, m, n)
    case Some(p) => d[p.id := []]
    case None => d
  }

  lemma StopHalts(ix: Index, m: Info, c: Cache, n: nat)
    requires StopsAt(ix, m, c, n) && Unstopped(ix, m, c, n)
    ensures Halts(ix, m, c) && Walked(ix, m, c) == Halted(Collected(ix, m, n), Left(ix, m, c, n))
  {
    hide At, Parent, Turns, Collected, MarksAt, Walked;
    TurnsAre(ix, m, c, n);
    NextTurn(ix, m, c, n);
    WalkedIs(ix, m, c, if At(ix, m, n).Some? then n + 1 else n);
  }

  /** The walk halts exactly when one of its stopping conditions is met somewhere on the chain. */
  lemma HaltsAt(ix: Index, m: Info, c: Cache) returns (n: nat)
    requires Halts(ix, m, c)
    ensures StopsAt(ix, m, c, n) && Unstopped(ix, m, c, n)
    ensures Walked(ix, m, c) == Halted(Collected(ix, m, n), Left(ix, m, c, n))
  {
    hide At, Turns, Collected, MarksAt, Walked;
    var k: nat :| Turns(ix, m, c, k).Halted?;
    if Unstopped(ix, m, c, k) {
      TurnsAre(ix, m, c, k);
      n := k;
    } else {
      var i: nat :| i < k && StopsAt(ix, m, c, i);
      n := FirstStop(ix, m, c, i);
    }
    StopHalts(ix, m, c, n);
  }

  ghost predicate NoMarks(c: Cache) { forall id :: Cached(c, id) != VISITED }

  /** Exactly when one walk halts, cycles included: the chain ends, or it returns to a message of
      the walker's own echo that had no topic yet. */
  lemma WalkHaltsIff(ix: Index, m: Info, c: Cache)
    requires Sound(ix) && Listed(ix, m) && NoMarks(c)
    ensures Halts(ix, m, c) <==> Ends(ix, m) || exists i: nat, j: nat :: Revisits(ix, m, c, i, j)
  {
    hide Sound, At, MarksAt, EndsIn, Collected, Halts;
    if Halts(ix, m, c) {
      var n := HaltsAt(ix, m, c);
      StopMeans(ix, m, c, n);
    }
    if Ends(ix, m) {
      var n: nat :| EndsIn(ix, m, n);
      EndsIsAt(ix, m, n);
      assert StopsAt(ix, m, c, n + 1);
      var k := FirstStop(ix, m, c, n + 1);
      StopHalts(ix, m, c, k);
    }
    if i: nat, j: nat :| Revisits(ix, m, c, i, j) {
      MarksAre(ix, m, c, j, At(ix, m, j).value.id);
      assert MetAt(ix, m, i, At(ix, m, j).value.id);
      assert StopsAt(ix, m, c, j);
      var k := FirstStop(ix, m, c, j);
      StopHalts(ix, m, c, k);
    }
  }

  lemma StopMeans(ix: Index, m: Info, c: Cache, n: nat)
    requires Sound(ix) && Listed(ix, m) && StopsAt(ix, m, c, n) && NoMarks(c)
    ensures Ends(ix, m) || exists i: nat :: Revisits(ix, m, c, i, n)
  {
    hide Sound, At, MarksAt, EndsIn;
    var p := At(ix, m, n);
    if p.None? || Self(p.value) {
      AtNext(ix, m, n);
      EndsIsAt(ix, m, n);
    } else {
      MarksAre(ix, m, c, n, p.value.id);
      var i :| 0 <= i < n && MetAt(ix, m, i, p.value.id);
      AtListed(ix, m, i);
      AtListed(ix, m, n);
      assert Revisits(ix, m, c, i, n);
    }
  }

  // ---------------------------------------------------------------- what a walk reaches

  ghost predicate Met(ix: Index, m: Info, i: nat, id: Str) {
    MetAt(ix, m, i, id) && !Self(At(ix, m, i).value)
  }

  /** A message of m's echo on the reply chain from m, no self-reply. */
  ghost predicate OnChain(ix: Index, m: Info, id: Str) { exists i: nat :: Met(ix, m, i, id) }

  lemma {:induction false} AtSum(ix: Index, m: Info, i: nat, k: nat)
    requires At(ix, m, i).Some?
    ensures At(ix, m, i + k) == At(ix, At(ix, m, i).value, k)
    decreases i
  {
    if i > 0 { AtSum(ix, Up(ix, m).value, i - 1, k); }
  }

  lemma {:induction false} CollectedMet(ix: Index, m: Info, n: nat, id: Str)
    ensures HasId(Collected(ix, m, n), id) <==> MetBefore(ix, m, n, id)
  {
    hide At;
    if n == 0 {
      NoIds();
    } else {
      CollectedMet(ix, m, n - 1, id);
      assert MetBefore(ix, m, n, id) <==> MetBefore(ix, m, n - 1, id) || MetAt(ix, m, n - 1, id);
      var p := At(ix, m, n - 1);
      if p.Some? { MarkSnoc(map[], Collected(ix, m, n - 1), p.value); }
      var before := Collected(ix, m, n - 1);
      assert before + [] == before;
    }
  }

  /** A halting walk collects every message of its echo on the chain. */
  lemma {:induction false} AllMet(ix: Index, m: Info, c: Cache, n: nat, i: nat, id: Str)
    requires Sound(ix) && Listed(ix, m) && NoMarks(c) && StopsAt(ix, m, c, n) && Met(ix, m, i, id)
    ensures MetBefore(ix, m, n, id)
    decreases i
  {
    hide At, MarksAt, Sound, EndsIn;
    if i >= n {
      assert i == n + (i - n);
      if At(ix, m, n).None? { AtGone(ix, m, n, i); }
      AtSum(ix, m, n, i - n);
      var p := At(ix, m, n).value;
      if Self(p) {
        SelfTop(ix, p, i - n);
        AtStart(ix, p);
      } else {
        MarksAre(ix, m, c, n, p.id);
        var i0 :| 0 <= i0 < n && MetAt(ix, m, i0, p.id);
        AtListed(ix, m, i0);
        AtListed(ix, m, n);
        AtSum(ix, m, i0, i - n);
        AllMet(ix, m, c, n, i0 + (i - n), id);
      }
    }
  }

  lemma {:induction false} AtGone(ix: Index, m: Info, n: nat, i: nat)
    requires At(ix, m, n).None? && n <= i
    ensures At(ix, m, i).None?
  {
    hide At;
    if n < i {
      AtGone(ix, m, n, i - 1);
      AtNext(ix, m, i - 1);
    }
  }

  lemma SelfTop(ix: Index, p: Info, k: nat)
    requires Self(p) && At(ix, p, k).Some?
    ensures k == 0
  {
  }

  lemma CollectedIs(ix: Index, m: Info, c: Cache, n: nat, id: Str)
    requires Sound(ix) && Listed(ix, m) && NoMarks(c) && StopsAt(ix, m, c, n) && Unstopped(ix, m, c, n)
    ensures HasId(Collected(ix, m, n), id) <==> OnChain(ix, m, id)
  {
    hide At, MarksAt, Sound, Collected;
    CollectedMet(ix, m, n, id);
    if OnChain(ix, m, id) {
      var i: nat :| Met(ix, m, i, id);
      AllMet(ix, m, c, n, i, id);
    }
    if MetBefore(ix, m, n, id) {
      var i :| 0 <= i < n && MetAt(ix, m, i, id);
      assert !StopsAt(ix, m, c, i);
      assert Met(ix, m, i, id);
    }
  }

  /** Whatever stands above a message of the chain stands on the chain. */
  lemma ChainClosed(ix: Index, m: Info, p: Info, id: Str)
    requires Sound(ix) && Listed(ix, m) && Listed(ix, p) && OnChain(ix, m, p.id) && OnChain(ix, p, id)
    ensures OnChain(ix, m, id)
  {
    hide At, Sound;
    var i: nat :| Met(ix, m, i, p.id);
    var k: nat :| Met(ix, p, k, id);
    AtListed(ix, m, i);
    AtSum(ix, m, i, k);
    assert Met(ix, m, i + k, id);
  }

  lemma ChainListed(ix: Index, m: Info, id: Str)
    requires Sound(ix) && Listed(ix, m) && OnChain(ix, m, id)
    ensures id in ix.hash && !Self(ix.hash[id])
  {
    hide At, Sound;
    var i: nat :| Met(ix, m, i, id);
    AtListed(ix, m, i);
  }

  lemma OwnChain(ix: Index, m: Info)
    ensures !Self(m) ==> OnChain(ix, m, m.id)
    ensures Self(m) ==> forall id :: !OnChain(ix, m, id)
  {
    assert At(ix, m, 0) == Some(m);
    if Self(m) {
      forall id, i: nat ensures !Met(ix, m, i, id) {
        if At(ix, m, i).Some? { SelfTop(ix, m, i); }
      }
    } else {
      assert Met(ix, m, 0, m.id);
    }
  }

  // ---------------------------------------------------------------- a whole call

  /** x stands on the chain of one of the messages handled before. */
  ghost predicate Reached(ix: Index, before: seq<Info>, id: Str) {
    exists i :: 0 <= i < |before| && OnChain(ix, before[i], id)
  }

  /** Exactly what was reached has a cached topic. */
  ghost predicate CachedBy(ix: Index, c: Cache, before: seq<Info>) {
    forall id :: Cached(c, id) != [] <==> Reached(ix, before, id)
  }

  ghost predicate BookOk(ix: Index, b: Book, before: seq<Info>) {
    CachedBy(ix, b.c, before) && NoMarks(b.c) && forall id :: id in b.intopic ==> Cached(b.c, id) != []
  }

  /** The chain from m comes back to a message of m's echo that nothing handled before reached. */
  ghost predicate FreshCycle(ix: Index, before: seq<Info>, m: Info, i: nat, j: nat) {
    i < j && At(ix, m, i).Some? && At(ix, m, i) == At(ix, m, j)
    && At(ix, m, i).value.echo == m.echo && !Reached(ix, before, At(ix, m, i).value.id)
  }

  /** Handling m after the messages of `before` returns. */
  ghost predicate CanHandle(ix: Index, before: seq<Info>, m: Info) {
    Reached(ix, before, m.id) || Ends(ix, m) || exists i: nat, j: nat :: FreshCycle(ix, before, m, i, j)
  }

  lemma ReachedSnoc(ix: Index, before: seq<Info>, m: Info, id: Str)
    ensures Reached(ix, before + [m], id) <==> Reached(ix, before, id) || OnChain(ix, m, id)
  {
    hide OnChain;
    var all := before + [m];
    assert all[|before|] == m;
    if Reached(ix, before, id) {
      var i :| 0 <= i < |before| && OnChain(ix, before[i], id);
      assert OnChain(ix, all[i], id);
    }
  }

  /** A message already reached adds nothing. */
  lemma ReachedSame(ix: Index, before: seq<Info>, m: Info)
    requires Sound(ix) && AllListed(ix, before) && Listed(ix, m) && Reached(ix, before, m.id)
    ensures forall id :: Reached(ix, before + [m], id) <==> Reached(ix, before, id)
  {
    hide OnChain, Sound, Listed;
    forall id ensures Reached(ix, before + [m], id) <==> Reached(ix, before, id) {
      ReachedSnoc(ix, before, m, id);
      if OnChain(ix, m, id) {
        var i :| 0 <= i < |before| && OnChain(ix, before[i], m.id);
        ChainClosed(ix, before[i], m, id);
      }
    }
  }

  /** Walking exactly halts under the condition on the graph, when the cache is what the messages
      handled before have left. */
  lemma HaltsIffFresh(ix: Index, before: seq<Info>, m: Info, c: Cache)
    requires Sound(ix) && Listed(ix, m) && NoMarks(c) && CachedBy(ix, c, before)
    ensures Halts(ix, m, c) <==> Ends(ix, m) || exists i: nat, j: nat :: FreshCycle(ix, before, m, i, j)
  {
    hide Sound, Halts, At, Reached, Ends;
    WalkHaltsIff(ix, m, c);
    forall i: nat, j: nat ensures Revisits(ix, m, c, i, j) <==> FreshCycle(ix, before, m, i, j) {}
  }

  lemma {:induction false} FiledCache(s: seq<Info>, k: Str, b: Book, id: Str)
    requires k in b.topics
    ensures var r := FileAll(s, k, b);
            Cached(r.c, id) == (if HasId(s, id) && (id == k || id !in b.intopic) then k else Cached(b.c, id))
            && (id in r.intopic <==> id in b.intopic || (HasId(s, id) && id != k))
  {
    hide HasId;
    if s == [] {
      NoIds();
    } else {
      var n := |s| - 1;
      FiledCache(s[..n], k, b, id);
      FiledOne(s[n].id, k, FileAll(s[..n], k, b), id);
      MarkSnoc(map[], s[..n], s[n]);
      assert s == s[..n] + [s[n]];
    }
  }

  lemma FiledOne(x: Str, k: Str, b: Book, id: Str)
    requires k in b.topics
    ensures var r := FileOne(x, k, b);
            Cached(r.c, id) == (if x == id && (id == k || id !in b.intopic) then k else Cached(b.c, id))
            && (id in r.intopic <==> id in b.intopic || (x == id && id != k))
  {
  }

  /** What a halting walk does to the cache: cached topics stay, and what it did not collect stays
      without one. */
  lemma WalkedCache(ix: Index, before: seq<Info>, m: Info, c: Cache, id: Str)
    requires Sound(ix) && Listed(ix, m) && AllListed(ix, before) && NoMarks(c) && CachedBy(ix, c, before)
    requires Halts(ix, m, c)
    ensures var w := Walked(ix, m, c);
            (HasId(w.l, id) <==> OnChain(ix, m, id))
            && (Cached(c, id) != [] || !HasId(w.l, id) ==> Cached(w.d, id) == Cached(c, id))
  {
    hide Sound, At, OnChain, MarksAt, Collected, Halts, Walked;
    var n := HaltsAt(ix, m, c);
    CollectedIs(ix, m, c, n, id);
    MarksAre(ix, m, c, n, id);
    CollectedMet(ix, m, n, id);
    var p := At(ix, m, n);
    if p.Some? && p.value.id == id && Cached(c, id) != [] {
      AtListed(ix, m, n);
      var i :| 0 <= i < |before| && OnChain(ix, before[i], id);
      ChainListed(ix, before[i], id);
      assert false;
    }
  }

  lemma HandledIff(ix: Index, before: seq<Info>, m: Info, b: Book)
    requires Sound(ix) && PlainIds(ix) && AllListed(ix, before) && Listed(ix, m) && BookOk(ix, b, before)
    ensures HandleOne(ix, m, b).Some? <==> CanHandle(ix, before, m)
    ensures HandleOne(ix, m, b).Some? ==> BookOk(ix, HandleOne(ix, m, b).value, before + [m])
  {
    hide Sound, PlainIds, Reached, Ends, Halts, Walked, FileAll, SortByNum, Listed, OnChain, FreshCycle;
    if m.id in b.intopic || Cached(b.c, m.id) != [] {
      ReachedSame(ix, before, m);
    } else {
      HaltsIffFresh(ix, before, m, b.c);
      if Halts(ix, m, b.c) {
        WalkedBook(ix, before, m, b);
      }
    }
  }

  lemma WalkedBook(ix: Index, before: seq<Info>, m: Info, b: Book)
    requires Sound(ix) && PlainIds(ix) && AllListed(ix, before) && Listed(ix, m) && BookOk(ix, b, before)
    requires m.id !in b.intopic && Cached(b.c, m.id) == [] && Halts(ix, m, b.c)
    ensures HandleOne(ix, m, b).Some? && BookOk(ix, HandleOne(ix, m, b).value, before + [m])
  {
    hide Sound, PlainIds, Reached, Halts, Walked, FileAll, SortByNum, Listed, OnChain, Self;
    var w, r := Walked(ix, m, b.c), HandleOne(ix, m, b).value;
    NoIds();
    if w.l != [] { LastPlain(ix, before, m, b.c); }
    forall id
      ensures Cached(r.c, id) != [] <==> Reached(ix, before + [m], id)
      ensures Cached(r.c, id) != VISITED
      ensures id in r.intopic ==> Cached(r.c, id) != []
    {
      ReachedSnoc(ix, before, m, id);
      WalkedCache(ix, before, m, b.c, id);
      if w.l != [] {
        var t := w.l[|w.l| - 1].id;
        FiledCache(SortByNum(w.l), t, Book(PlaceHead(b.topics, t), b.intopic, w.d), id);
        SortKeepsIds(w.l, id);
      }
    }
  }

  /** The head of a walk's line is an id of the table. */
  lemma LastPlain(ix: Index, before: seq<Info>, m: Info, c: Cache)
    requires Sound(ix) && PlainIds(ix) && AllListed(ix, before) && Listed(ix, m) && NoMarks(c)
    requires CachedBy(ix, c, before) && Halts(ix, m, c) && Walked(ix, m, c).l != []
    ensures var l := Walked(ix, m, c).l; l[|l| - 1].id != [] && l[|l| - 1].id != VISITED
  {
    hide Sound, Reached, Halts, Walked, OnChain, Self;
    var l := Walked(ix, m, c).l;
    var id := l[|l| - 1].id;
    assert HasId(l, id);
    WalkedCache(ix, before, m, c, id);
    ChainListed(ix, m, id);
  }

  /** Exactly when a call of GetTopics returns, for any table, reply cycles included, any input and
      whatever calls on the same table went before (`before` being their inputs one after the
      other): when the walk from each message either has been spared, an earlier message having
      reached it, or runs to an end of its reply chain, or comes back to a message of its echo that
      no earlier message reached. Then exactly what has been reached by now has a cached topic. */
  lemma {:induction false} CallReturnsIff(ix: Index, before: seq<Info>, mi: seq<Info>, c: Cache)
    requires Sound(ix) && PlainIds(ix) && AllListed(ix, before) && AllListed(ix, mi)
    requires NoMarks(c) && CachedBy(ix, c, before)
    ensures Returns(ix, mi, c) <==> forall j :: 0 <= j < |mi| ==> CanHandle(ix, before + mi[..j], mi[j])
    ensures Returns(ix, mi, c) ==> BookOk(ix, HandleAll(ix, mi, Blank(c)).value, before + mi)
  {
    hide Sound, PlainIds, Reached, Listed, HandleOne, CanHandle;
    if mi == [] {
      assert before + mi == before;
    } else {
      var n := |mi| - 1;
      var init := mi[..n];
      CallReturnsIff(ix, before, init, c);
      forall j | 0 <= j < n ensures CanHandle(ix, before + mi[..j], mi[j]) <==> CanHandle(ix, before + init[..j], init[j]) {
        assert init[..j] == mi[..j];
      }
      assert mi[..n] == init && before + mi == before + init + [mi[n]];
      if Returns(ix, init, c) {
        AllListedBoth(ix, before, init);
        HandledIff(ix, before + init, mi[n], HandleAll(ix, init, Blank(c)).value);
      }
    }
  }

  lemma AllListedBoth(ix: Index, a: seq<Info>, b: seq<Info>)
    requires AllListed(ix, a) && AllListed(ix, b)
    ensures AllListed(ix, a + b)
  {
    hide Listed;
  }

  lemma NothingCached(ix: Index)
    ensures NoMarks(map[]) && CachedBy(ix, map[], [])
  {
  }

  // ---------------------------------------------------------------- who stands in a group

  ghost predicate InSome(topics: Groups, x: Str) { exists k :: k in topics && x in topics[k] }

  /** From an empty cache on: every topic holds its head, what stands in a topic is what has a cached
      topic, and that is one of the topics. */
  ghost predicate Shelved(b: Book) {
    && (forall k :: k in b.topics ==> k in b.topics[k])
    && (forall x :: Cached(b.c, x) != [] <==> InSome(b.topics, x))
    && (forall x :: Cached(b.c, x) != [] ==> Cached(b.c, x) in b.topics)
  }

  lemma {:induction false} FiledTopics(s: seq<Info>, k: Str, b: Book)
    requires k in b.topics && forall j :: j in b.topics ==> j in b.topics[j]
    ensures var r := FileAll(s, k, b);
            (forall j :: j in r.topics ==> j in r.topics[j])
            && (forall x :: InSome(r.topics, x) <==> InSome(b.topics, x) || (HasId(s, x) && x !in b.intopic))
  {
    hide HasId, InSome;
    if s == [] {
      NoIds();
    } else {
      var n := |s| - 1;
      FiledTopics(s[..n], k, b);
      MarkSnoc(map[], s[..n], s[n]);
      assert s == s[..n] + [s[n]];
      FiledCache(s[..n], k, b, s[n].id);
      FileOneTopics(s[n].id, k, FileAll(s[..n], k, b));
      HeadIn(b.topics, k);
    }
  }

  lemma HeadIn(topics: Groups, k: Str)
    requires k in topics && k in topics[k]
    ensures InSome(topics, k)
  {
  }

  lemma FileOneTopics(x: Str, k: Str, b: Book)
    requires k in b.topics && forall j :: j in b.topics ==> j in b.topics[j]
    ensures var r := FileOne(x, k, b);
            (forall j :: j in r.topics ==> j in r.topics[j])
            && (forall y :: InSome(r.topics, y) <==> InSome(b.topics, y) || (y == x && x != k && x !in b.intopic))
  {
    var r := FileOne(x, k, b);
    forall y ensures InSome(r.topics, y) <==> InSome(b.topics, y) || (y == x && x != k && x !in b.intopic) {
      if InSome(b.topics, y) {
        var j :| j in b.topics && y in b.topics[j];
        assert y in r.topics[j];
      }
      if InSome(r.topics, y) {
        var j :| j in r.topics && y in r.topics[j];
        if j == k && x != k && x !in b.intopic { assert y in b.topics[k] || y == x; }
      }
      if y == x && x != k && x !in b.intopic { assert x in r.topics[k]; }
    }
  }

  lemma PlacedHead(topics: Groups, t: Str)
    requires forall j :: j in topics ==> j in topics[j]
    ensures forall j :: j in PlaceHead(topics, t) ==> j in PlaceHead(topics, t)[j]
    ensures forall x :: InSome(PlaceHead(topics, t), x) <==> InSome(topics, x) || x == t
  {
    var p := PlaceHead(topics, t);
    forall x ensures InSome(p, x) <==> InSome(topics, x) || x == t {
      if InSome(topics, x) {
        var j :| j in topics && x in topics[j];
        assert x in p[j];
      }
      assert t in p[t];
    }
  }

  /** The fast path adds a message that has a place already. */
  lemma FastShelved(m: Info, b: Book)
    requires Shelved(b) && Cached(b.c, m.id) != []
    ensures var k := Cached(b.c, m.id);
            k in b.topics && PlaceHead(b.topics, k) == b.topics
            && Shelved(Book(b.topics[k := b.topics[k] + [m.id]], b.intopic[m.id := k], b.c))
  {
    var k := Cached(b.c, m.id);
    var next := b.topics[k := b.topics[k] + [m.id]];
    forall x ensures InSome(next, x) <==> InSome(b.topics, x) {
      if InSome(b.topics, x) {
        var j :| j in b.topics && x in b.topics[j];
        assert x in next[j];
      }
      if InSome(next, x) {
        var j :| j in next && x in next[j];
        assert j == k ==> x in b.topics[k] || x == m.id;
      }
    }
  }

  lemma WalkedShelved(ix: Index, before: seq<Info>, m: Info, b: Book)
    requires Sound(ix) && PlainIds(ix) && AllListed(ix, before) && Listed(ix, m) && BookOk(ix, b, before) && Shelved(b)
    requires m.id !in b.intopic && Cached(b.c, m.id) == [] && Halts(ix, m, b.c)
    ensures Shelved(HandleOne(ix, m, b).value)
  {
    hide Sound, PlainIds, Reached, Halts, Walked, FileAll, SortByNum, Listed, OnChain, Self, HasId, InSome;
    var w, r := Walked(ix, m, b.c), HandleOne(ix, m, b).value;
    NoIds();
    if w.l == [] {
      forall x ensures Cached(w.d, x) == Cached(b.c, x) { WalkedCache(ix, before, m, b.c, x); }
    } else {
      var t, s := w.l[|w.l| - 1].id, SortByNum(w.l);
      var b0 := Book(PlaceHead(b.topics, t), b.intopic, w.d);
      LastPlain(ix, before, m, b.c);
      PlacedHead(b.topics, t);
      FiledTopics(s, t, b0);
      LastHasId(w.l);
      forall x
        ensures Cached(r.c, x) != [] <==> InSome(r.topics, x)
        ensures Cached(r.c, x) != [] ==> Cached(r.c, x) in r.topics
      {
        WalkedCache(ix, before, m, b.c, x);
        FiledCache(s, t, b0, x);
        SortKeepsIds(w.l, x);
      }
    }
  }

  lemma LastHasId(l: seq<Info>)
    requires l != []
    ensures HasId(l, l[|l| - 1].id)
  {
  }

  lemma {:induction false} CallShelves(ix: Index, mi: seq<Info>)
    requires Sound(ix) && PlainIds(ix) && AllListed(ix, mi) && Returns(ix, mi, map[])
    ensures var b := HandleAll(ix, mi, Blank(map[])).value; BookOk(ix, b, mi) && Shelved(b)
  {
    hide Sound, PlainIds, Listed, Halts, Walked, FileAll, SortByNum, Shelved, BookOk;
    var none: seq<Info> := [];
    NothingCached(ix);
    assert none + mi == mi;
    CallReturnsIff(ix, none, mi, map[]);
    if mi == [] {
      NothingShelved();
    } else {
      var n := |mi| - 1;
      PrefixReturns(ix, mi, Blank(map[]), n);
      CallShelves(ix, mi[..n]);
      var b := HandleAll(ix, mi[..n], Blank(map[])).value;
      HandleShelves(ix, mi[..n], mi[n], b);
    }
  }

  lemma NothingShelved()
    ensures Shelved(Blank(map[]))
  {
  }

  lemma HandleShelves(ix: Index, before: seq<Info>, m: Info, b: Book)
    requires Sound(ix) && PlainIds(ix) && AllListed(ix, before) && Listed(ix, m) && BookOk(ix, b, before) && Shelved(b)
    requires HandleOne(ix, m, b).Some?
    ensures Shelved(HandleOne(ix, m, b).value)
  {
    hide Sound, PlainIds, Listed, Halts, Walked, FileAll, SortByNum, BookOk, Shelved;
    if m.id in b.intopic {
    } else if Cached(b.c, m.id) != [] {
      FastShelved(m, b);
    } else {
      WalkedShelved(ix, before, m, b);
    }
  }

  /** Exactly who stands in the groups of a call that starts with nothing cached, reply cycles
      included: the messages on the reply chains of its input, in the echo of each. */
  lemma GroupsReached(ix: Index, mi: seq<Info>, x: Str)
    requires Sound(ix) && PlainIds(ix) && AllListed(ix, mi) && Returns(ix, mi, map[])
    ensures InSome(HandleAll(ix, mi, Blank(map[])).value.topics, x) <==> Reached(ix, mi, x)
  {
    hide Sound, PlainIds, Listed, Reached, InSome, HandleAll;
    CallShelves(ix, mi);
  }
}
