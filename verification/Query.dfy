/** Queries over the loaded table: a predicate that consumes its own Skip and Count, scanned
    forwards or backwards with early exits. */
module Query {
  import opened Bytes
  import opened Codec
  import opened Log
  import T = Tags

  const ALL: Str := "All"
  const HEADS_ONLY: Str := "!"

  /** The fields of a query that a scan does not change. `want` is the optional Match callback. */
  datatype Filter = Filter(echo: Str, repto: Str, from: Str, to: Str, start: int, lim: int,
                           blacklisted: bool, noAccess: bool, user: Str, invert: bool,
                           want: Option<Info -> bool>)

  /** The fields that a scan consumes. */
  datatype Budget = Budget(skip: int, count: int)

  /** DB.Access. */
  predicate Access(info: Info, user: Str) {
    IsPrivate(info.echo) ==>
      user != [] && (info.to == ALL || info.from == user || info.to == user)
  }

  /** Every check of _Match that does not involve Skip and Count. */
  predicate Pass(f: Filter, info: Info) {
    && (if f.blacklisted then info.off < 0 else info.off >= 0 || f.noAccess)
    && (f.echo != [] ==> f.echo == info.echo)
    && (if f.repto == HEADS_ONLY then info.repto == [] else f.repto != [] ==> f.repto == info.repto)
    && (f.to != [] ==> f.to == info.to)
    && (f.from != [] ==> f.from == info.from)
    && (f.noAccess || Access(info, f.user))
    && (f.want.Some? ==> f.want.value(info))
  }

  function Taken(f: Filter, b: Budget, info: Info): bool {
    b.count >= 0 && Pass(f, info) && b.skip <= 0
  }

  function Spent(f: Filter, b: Budget, info: Info): Budget {
    if b.count < 0 || !Pass(f, info) then b
    else if b.skip > 0 then b.(skip := b.skip - 1)
    else if b.count == 1 then b.(count := -1)
    else if b.count > 0 then b.(count := b.count - 1)
    else b
  }

  /** The budget left after scanning `infos`. */
  function After(f: Filter, b: Budget, infos: seq<Info>): Budget {
    if infos == [] then b
    else Spent(f, After(f, b, infos[..|infos| - 1]), infos[|infos| - 1])
  }

  /** The messages for which Match answers true, in scan order. */
  function Hits(f: Filter, b: Budget, infos: seq<Info>): seq<Info> {
    if infos == [] then []
    else
      var init, last := infos[..|infos| - 1], infos[|infos| - 1];
      Hits(f, b, init) + if Taken(f, After(f, b, init), last) != f.invert then [last] else []
  }

  /** The messages that pass the stateless filter. */
  function Passing(f: Filter, infos: seq<Info>): seq<Info> {
    if infos == [] then []
    else
      var init, last := infos[..|infos| - 1], infos[|infos| - 1];
      Passing(f, init) + if Pass(f, last) then [last] else []
  }

  function Rev(s: seq<Info>): (r: seq<Info>)
    ensures |r| == |s|
    ensures forall i :: 0 <= i < |s| ==> r[i] == s[|s| - 1 - i]
  {
    seq(|s|, i requires 0 <= i < |s| => s[|s| - 1 - i])
  }

  function Min(a: int, b: int): int { if a < b then a else b }
  function Max(a: int, b: int): int { if a < b then b else a }

  function Cut(s: seq<Info>, lim: int): seq<Info> {
    if lim > 0 then s[..Min(lim, |s|)] else s
  }

  /** The answer in terms of the scan alone, without early exits. */
  function Selection(f: Filter, b: Budget, infos: seq<Info>): seq<Info> {
    if f.start < 0 then
      var h := Hits(f, b, Rev(infos));
      Cut(Rev(h[..Min(-f.start, |h|)]), f.lim)
    else
      var h := Hits(f, b, infos);
      Cut(h[Min(f.start, |h|)..], f.lim)
  }

  function Ids(infos: seq<Info>): (r: seq<Str>)
    ensures |r| == |infos| && forall i :: 0 <= i < |infos| ==> r[i] == infos[i].id
  {
    seq(|infos|, i requires 0 <= i < |infos| => infos[i].id)
  }

  /** The records in list order. */
  function Records(ix: Index): (r: seq<Info>)
    requires Sound(ix)
    ensures |r| == |ix.list|
    ensures forall i :: 0 <= i < |r| ==> ix.list[i] in ix.hash && r[i] == ix.hash[ix.list[i]]
  {
    assert forall i :: 0 <= i < |ix.list| ==> ix.list[i] in ix.list;
    seq(|ix.list|, i requires 0 <= i < |ix.list| => ix.hash[ix.list[i]])
  }

  // ---------------------------------------------------------------- the scan itself

  class Query {
    const f: Filter
    var skip: int
    var count: int

    ghost function Left(): Budget reads this { Budget(skip, count) }

    constructor (f: Filter, skip: int, count: int)
      ensures this.f == f && Left() == Budget(skip, count)
    {
      this.f, this.skip, this.count := f, skip, count;
    }

    /** _Match. */
    method Match0(info: Info) returns (ret: bool)
      modifies this
      ensures ret == Taken(f, old(Left()), info)
      ensures Left() == Spent(f, old(Left()), info)
    {
      if count < 0 { return false; }
      if f.blacklisted {
        if info.off >= 0 { return false; }
      } else if info.off < 0 && !f.noAccess {
        return false;
      }
      if f.echo != [] && f.echo != info.echo { return false; }
      if f.repto == HEADS_ONLY {
        if info.repto != [] { return false; }
      } else if f.repto != [] && f.repto != info.repto {
        return false;
      }
      if f.to != [] && f.to != info.to { return false; }
      if f.from != [] && f.from != info.from { return false; }
      if !f.noAccess && !Access(info, f.user) { return false; }
      ret := true;
      if f.want.Some? {
        ret := f.want.value(info);
      }
      if ret {
        if skip > 0 {
          skip := skip - 1;
          return false;
        } else if count > 0 {
          count := count - 1;
          if count == 0 { count := -1; }
          return true;
        }
      }
    }

    /** Match. */
    method Match(info: Info) returns (ret: bool)
      modifies this
      ensures ret == (Taken(f, old(Left()), info) != f.invert)
      ensures Left() == Spent(f, old(Left()), info)
    {
      ret := Match0(info);
      if f.invert { ret := !ret; }
    }
  }

  /** SelectIDS over a loaded table. */
  method SelectIDS(ix: Index, q: Query) returns (resp: seq<Str>)
    requires Sound(ix)
    modifies q
    ensures resp == Ids(Selection(q.f, old(q.Left()), Records(ix)))
  {
    hide Taken, Spent, Pass, Sound;
    var infos := Records(ix);
    if q.f.start < 0 {
      resp := SelectBackwards(infos, q);
    } else {
      resp := SelectForwards(infos, q);
    }
  }

  method SelectForwards(infos: seq<Info>, q: Query) returns (resp: seq<Str>)
    requires q.f.start >= 0
    modifies q
    ensures resp == Ids(Selection(q.f, old(q.Left()), infos))
  {
    hide Taken, Spent, Pass, Ids;
    ghost var b := q.Left();
    ghost var h: seq<Info> := [];
    resp := [];
    var found := 0;
    for i := 0 to |infos|
      invariant q.Left() == After(q.f, b, infos[..i])
      invariant h == Hits(q.f, b, infos[..i]) && found == |h|
      invariant resp == Ids(h[Min(q.f.start, found)..])
      invariant q.f.lim > 0 ==> |resp| < q.f.lim
    {
      HitsStep(q.f, b, infos, i);
      var hit := q.Match(infos[i]);
      if hit {
        OneMore(h, infos[i], q.f.start);
        h := h + [infos[i]];
        if found >= q.f.start {
          resp := resp + [infos[i].id];
        }
        found := found + 1;
        if q.f.lim > 0 && |resp| >= q.f.lim {
          HitsGrow(q.f, b, infos, i + 1);
          EnoughFound(h, Hits(q.f, b, infos), q.f.start, q.f.lim);
          return;
        }
      } else {
        assert h + [] == h;
      }
    }
    assert infos[..|infos|] == infos;
    NotCut(h[Min(q.f.start, found)..], q.f.lim);
  }

  lemma OneMore(h: seq<Info>, x: Info, start: int)
    requires start >= 0
    ensures Ids((h + [x])[Min(start, |h| + 1)..])
            == Ids(h[Min(start, |h|)..]) + if |h| >= start then [x.id] else []
  {
  }

  /** Once Lim answers are found, further hits change nothing. */
  lemma EnoughFound(h: seq<Info>, all: seq<Info>, start: int, lim: int)
    requires start >= 0 && lim > 0 && h <= all && |h[Min(start, |h|)..]| == lim
    ensures Cut(all[Min(start, |all|)..], lim) == h[Min(start, |h|)..]
  {
  }

  lemma NotCut(s: seq<Info>, lim: int)
    requires lim > 0 ==> |s| < lim
    ensures Cut(s, lim) == s
  {
  }

  method SelectBackwards(infos: seq<Info>, q: Query) returns (resp: seq<Str>)
    requires q.f.start < 0
    modifies q
    ensures resp == Ids(Selection(q.f, old(q.Left()), infos))
  {
    hide Hits;
    resp := ScanBackwards(infos, q);
    if q.f.lim > 0 && |resp| > q.f.lim {
      resp := resp[..q.f.lim];
    }
  }

  /** The downward loop: each hit is put in front (prependStr) until enough are found. */
  method ScanBackwards(infos: seq<Info>, q: Query) returns (resp: seq<Str>)
    requires q.f.start < 0
    modifies q
    ensures var h := Hits(q.f, old(q.Left()), Rev(infos));
            resp == Ids(Rev(h[..Min(-q.f.start, |h|)]))
  {
    hide Taken, Spent, Pass, Ids, After, Hits;
    ghost var b, rev := q.Left(), Rev(infos);
    ghost var h: seq<Info>, n := [], 0;
    NoHits(q.f, b);
    assert rev[..0] == [];
    resp := [];
    var start := 0;
    var i := |infos| - 1;
    while i >= 0
      invariant -1 <= i < |infos| && n == |infos| - 1 - i
      invariant q.Left() == After(q.f, b, rev[..n])
      invariant h == Hits(q.f, b, rev[..n])
      invariant resp == Ids(Rev(h))
      invariant start == -|h| && start > q.f.start
    {
      HitsStep(q.f, b, rev, n);
      var hit := q.Match(infos[i]);
      n := n + 1;
      if hit {
        Prepended(h, infos[i]);
        h := h + [infos[i]];
        resp := [infos[i].id] + resp;
        start := start - 1;
        if start == q.f.start {
          HitsGrow(q.f, b, rev, n);
          assert Hits(q.f, b, rev)[..|h|] == h;
          return;
        }
      } else {
        assert h + [] == h;
      }
      i := i - 1;
    }
    assert rev[..|infos|] == rev;
    assert h[..|h|] == h;
  }

  lemma NoHits(f: Filter, b: Budget)
    ensures After(f, b, []) == b && Hits(f, b, []) == []
    ensures Ids(Rev([])) == []
  {
  }

  lemma HitsStep(f: Filter, b: Budget, s: seq<Info>, n: nat)
    requires n < |s|
    ensures After(f, b, s[..n + 1]) == Spent(f, After(f, b, s[..n]), s[n])
    ensures Hits(f, b, s[..n + 1])
            == Hits(f, b, s[..n]) + if Taken(f, After(f, b, s[..n]), s[n]) != f.invert then [s[n]] else []
  {
    hide Taken, Spent;
    assert s[..n + 1][..n] == s[..n];
  }

  lemma Prepended(h: seq<Info>, x: Info)
    ensures Ids(Rev(h + [x])) == [x.id] + Ids(Rev(h))
  {
  }

  lemma {:induction false} HitsGrow(f: Filter, b: Budget, infos: seq<Info>, k: nat)
    requires k <= |infos|
    ensures Hits(f, b, infos[..k]) <= Hits(f, b, infos)
    decreases |infos| - k
  {
    hide Taken, After;
    if k < |infos| {
      assert infos[..k + 1][..k] == infos[..k];
      HitsGrow(f, b, infos, k + 1);
    } else {
      assert infos[..k] == infos;
    }
  }

  // ---------------------------------------------------------------- Skip and Count are a window

  function Lo(n: nat, b: Budget): (r: int)
    ensures 0 <= r <= n
  {
    Min(Max(b.skip, 0), n)
  }

  function Hi(n: nat, b: Budget): (r: int)
    ensures Lo(n, b) <= r <= n
  {
    if b.count < 0 then Lo(n, b) else if b.count == 0 then n else Min(Lo(n, b) + b.count, n)
  }

  /** F[Skip..Skip+Count], without an upper cut when Count is 0; nothing when it is negative. */
  function Window(s: seq<Info>, b: Budget): seq<Info> { s[Lo(|s|, b)..Hi(|s|, b)] }

  /** The budget after `n` messages have passed the filter. */
  function Drained(b: Budget, n: nat): Budget {
    if b.count < 0 then b
    else
      var taken := n - Min(Max(b.skip, 0), n);
      Budget(if b.skip <= 0 then b.skip else Max(b.skip - n, 0),
             if b.count == 0 then 0 else if taken >= b.count then -1 else b.count - taken)
  }

  lemma DrainStep(f: Filter, b: Budget, n: nat, x: Info)
    ensures Spent(f, Drained(b, n), x) == Drained(b, if Pass(f, x) then n + 1 else n)
    ensures Taken(f, Drained(b, n), x) <==> Pass(f, x) && Lo(n + 1, b) <= n < Hi(n + 1, b)
  {
    hide Pass;
  }

  lemma WindowStep(s: seq<Info>, b: Budget, x: Info)
    ensures Window(s + [x], b)
            == Window(s, b) + if Lo(|s| + 1, b) <= |s| < Hi(|s| + 1, b) then [x] else []
  {
    var n := |s|;
    var lo, hi := Lo(n + 1, b), Hi(n + 1, b);
    if lo <= n {
      assert Lo(n, b) == lo && Hi(n, b) == Min(hi, n);
      SliceSnoc(s, x, lo, hi);
    } else {
      assert Lo(n, b) == Hi(n, b) == n && hi == n + 1;
    }
  }

  lemma SliceSnoc(s: seq<Info>, x: Info, lo: int, hi: int)
    requires 0 <= lo <= |s| && lo <= hi <= |s| + 1
    ensures (s + [x])[lo..hi] == s[lo..Min(hi, |s|)] + if |s| < hi then [x] else []
  {
  }

  /** Whatever the scan order, the messages taken are a window over the filtered messages. */
  lemma {:induction false} TakenIsWindow(f: Filter, b: Budget, infos: seq<Info>)
    ensures After(f, b, infos) == Drained(b, |Passing(f, infos)|)
    ensures Hits(f.(invert := false), b, infos) == Window(Passing(f, infos), b)
  {
    hide Pass, Taken, Spent, Drained, Window, Lo, Hi;
    if infos == [] {
      NothingDrained(b);
    } else {
      var n := |infos| - 1;
      var init, x := infos[..n], infos[n];
      TakenIsWindow(f, b, init);
      AfterInvert(f, false, b, init);
      StepInvert(f, false, After(f, b, init), x);
      DrainStep(f, b, |Passing(f, init)|, x);
      WindowStep(Passing(f, init), b, x);
      assert infos[..n + 1] == infos;
      HitsStep(f.(invert := false), b, infos, n);
      NothingAdded(Passing(f, init));
    }
  }

  lemma NothingAdded(s: seq<Info>)
    ensures s + [] == s
  {
  }

  lemma NothingDrained(b: Budget)
    ensures Drained(b, 0) == b && Window([], b) == []
  {
  }

  lemma StepInvert(f: Filter, v: bool, b: Budget, x: Info)
    ensures Taken(f.(invert := v), b, x) == Taken(f, b, x)
    ensures Spent(f.(invert := v), b, x) == Spent(f, b, x)
  {
  }

  lemma {:induction false} AfterInvert(f: Filter, v: bool, b: Budget, infos: seq<Info>)
    ensures After(f.(invert := v), b, infos) == After(f, b, infos)
  {
    hide Spent;
    if infos != [] {
      var n := |infos| - 1;
      AfterInvert(f, v, b, infos[..n]);
      StepInvert(f, v, After(f, b, infos[..n]), infos[n]);
    }
  }

  lemma {:induction false} PassingAppend(f: Filter, a: seq<Info>, b: seq<Info>)
    ensures Passing(f, a + b) == Passing(f, a) + Passing(f, b)
  {
    hide Pass;
    if b == [] {
      assert a + b == a;
    } else {
      assert (a + b)[..|a + b| - 1] == a + b[..|b| - 1];
      PassingAppend(f, a, b[..|b| - 1]);
    }
  }

  lemma {:induction false} PassingRev(f: Filter, infos: seq<Info>)
    ensures Passing(f, Rev(infos)) == Rev(Passing(f, infos))
  {
    hide Pass;
    if infos == [] {
      assert Rev(infos) == [];
    } else {
      var n := |infos| - 1;
      var init, x := infos[..n], infos[n];
      PassingRev(f, init);
      assert Rev(infos) == [x] + Rev(init);
      PassingAppend(f, [x], Rev(init));
      assert [x][..0] == [];
      assert Rev(Passing(f, init) + [x]) == [x] + Rev(Passing(f, init));
    }
  }

  /** Where the answer of a non-inverted query begins and ends in the filtered list. */
  function From(f: Filter, b: Budget, n: nat): int {
    if f.start < 0 then Max(n - Hi(n, b), n - Lo(n, b) + f.start)
    else Min(Lo(n, b) + f.start, Hi(n, b))
  }

  function To(f: Filter, b: Budget, n: nat): int {
    var end := if f.start < 0 then n - Lo(n, b) else Hi(n, b);
    if f.lim > 0 then Min(From(f, b, n) + f.lim, end) else end
  }

  lemma FromTo(f: Filter, b: Budget, n: nat)
    ensures 0 <= From(f, b, n) <= To(f, b, n) <= n
  {
  }

  /** SelectIDS without inversion answers one contiguous piece of the filtered list, in list
      order: Skip and Count cut first (from the end of the list when Start is negative), then
      Start >= 0 drops that many and Start < 0 keeps the last -Start, then Lim keeps the first. */
  lemma SelectionIsSlice(f: Filter, b: Budget, infos: seq<Info>)
    requires !f.invert
    ensures var p := Passing(f, infos);
            0 <= From(f, b, |p|) <= To(f, b, |p|) <= |p|
            && Selection(f, b, infos) == p[From(f, b, |p|)..To(f, b, |p|)]
  {
    hide Passing, Hits, Lo, Hi, Selection;
    assert f.(invert := false) == f;
    var n := |Passing(f, infos)|;
    FromTo(f, b, n);
    if f.start < 0 {
      SelectionBackwards(f, b, infos);
    } else {
      SelectionForwards(f, b, infos);
    }
  }

  lemma SelectionForwards(f: Filter, b: Budget, infos: seq<Info>)
    requires !f.invert && f.start >= 0
    ensures var p := Passing(f, infos);
            Selection(f, b, infos) == p[From(f, b, |p|)..To(f, b, |p|)]
  {
    hide Passing, Hits, Lo, Hi, Cut;
    assert f.(invert := false) == f;
    var p := Passing(f, infos);
    var lo, hi := Lo(|p|, b), Hi(|p|, b);
    var k := Min(f.start, hi - lo);
    TakenIsWindow(f, b, infos);
    DropSlice(p, lo, hi, k);
    CutSlice(p, lo + k, hi, f.lim);
  }

  lemma SelectionBackwards(f: Filter, b: Budget, infos: seq<Info>)
    requires !f.invert && f.start < 0
    ensures var p := Passing(f, infos);
            Selection(f, b, infos) == p[From(f, b, |p|)..To(f, b, |p|)]
  {
    hide Passing, Hits, Lo, Hi, Cut, Rev;
    assert f.(invert := false) == f;
    var p := Passing(f, infos);
    var lo, hi := Lo(|p|, b), Hi(|p|, b);
    var k := Min(-f.start, hi - lo);
    TakenIsWindow(f, b, Rev(infos));
    PassingRev(f, infos);
    RevSlice(p, lo, hi, k);
    CutSlice(p, |p| - lo - k, |p| - lo, f.lim);
  }

  /** The first `k` of a window over the reversed list, reversed back. */
  lemma RevSlice(p: seq<Info>, lo: int, hi: int, k: int)
    requires 0 <= lo <= hi <= |p| && 0 <= k <= hi - lo
    ensures Rev(Rev(p)[lo..hi][..k]) == p[|p| - lo - k..|p| - lo]
  {
  }

  lemma DropSlice(p: seq<Info>, lo: int, hi: int, k: int)
    requires 0 <= lo <= hi <= |p| && 0 <= k <= hi - lo
    ensures p[lo..hi][k..] == p[lo + k..hi]
  {
  }

  lemma CutSlice(p: seq<Info>, lo: int, hi: int, lim: int)
    requires 0 <= lo <= hi <= |p|
    ensures Cut(p[lo..hi], lim) == p[lo..if lim > 0 then Min(lo + lim, hi) else hi]
  {
  }

  // ---------------------------------------------------------------- what is answered

  lemma {:induction false} PassingIs(f: Filter, infos: seq<Info>, x: Info)
    ensures x in Passing(f, infos) <==> x in infos && Pass(f, x)
  {
    hide Pass;
    if infos != [] {
      var n := |infos| - 1;
      PassingIs(f, infos[..n], x);
      assert infos == infos[..n] + [infos[n]];
    }
  }

  lemma {:induction false} PassingOrder(f: Filter, infos: seq<Info>)
    requires forall i, j :: 0 <= i < j < |infos| ==> infos[i].num < infos[j].num
    ensures var p := Passing(f, infos); forall i, j :: 0 <= i < j < |p| ==> p[i].num < p[j].num
  {
    hide Pass;
    if infos != [] {
      var n := |infos| - 1;
      PassingOrder(f, infos[..n]);
      var p := Passing(f, infos[..n]);
      forall i | 0 <= i < |p| ensures p[i].num < infos[n].num {
        PassingIs(f, infos[..n], p[i]);
      }
    }
  }

  lemma RecordIs(ix: Index, x: Info)
    requires Sound(ix)
    ensures x in Records(ix) <==> x.id in ix.hash && ix.hash[x.id] == x
  {
    var r := Records(ix);
    if x.id in ix.hash && ix.hash[x.id] == x {
      assert x.id in ix.list;
      var i :| 0 <= i < |ix.list| && ix.list[i] == x.id;
      assert r[i] == x;
    }
  }

  lemma RecordOrder(ix: Index)
    requires Sound(ix)
    ensures var r := Records(ix); forall i, j :: 0 <= i < j < |r| ==> r[i].num < r[j].num
  {
  }

  lemma PlainSelection(f: Filter, infos: seq<Info>)
    requires f.start == 0 && f.lim == 0 && !f.invert
    ensures Selection(f, FULL, infos) == Passing(f, infos)
  {
    hide Passing, Selection;
    SelectionIsSlice(f, FULL, infos);
  }

  /** What a query answers that cuts nothing off: the ids of exactly those messages that meet each
      field asked for, in ascending number. A message of a private echo is answered to a named user
      only, and only if that user wrote it, it is addressed to that user, or it is to "All". */
  lemma SelectedIff(ix: Index, f: Filter, id: Str)
    requires Sound(ix) && f.start == 0 && f.lim == 0 && !f.invert
    ensures id in Ids(Selection(f, FULL, Records(ix)))
            <==> id in ix.hash && var x := ix.hash[id];
                 (f.blacklisted ==> x.off < 0) && (!f.blacklisted && !f.noAccess ==> x.off >= 0)
                 && (f.echo == "" || x.echo == f.echo)
                 && (f.to == "" || x.to == f.to)
                 && (f.from == "" || x.from == f.from)
                 && (f.repto == "" || (if f.repto == "!" then x.repto == "" else x.repto == f.repto))
                 && (f.noAccess || x.echo == "" || x.echo[0] != '.'
                     || (f.user != "" && (x.from == f.user || x.to == f.user || x.to == "All")))
                 && (f.want.Some? ==> f.want.value(x))
    ensures var r := Ids(Selection(f, FULL, Records(ix)));
            (forall i :: 0 <= i < |r| ==> r[i] in ix.hash)
            && forall i, j :: 0 <= i < j < |r| ==> ix.hash[r[i]].num < ix.hash[r[j]].num
  {
    hide Passing, Selection, Sound;
    var infos := Records(ix);
    PlainSelection(f, infos);
    var p := Passing(f, infos);
    forall x ensures x in p <==> x.id in ix.hash && ix.hash[x.id] == x && Pass(f, x) {
      PassingIs(f, infos, x);
      RecordIs(ix, x);
    }
    RecordOrder(ix);
    PassingOrder(f, infos);
    forall i | 0 <= i < |p| ensures p[i].id in ix.hash && ix.hash[p[i].id] == p[i] { assert p[i] in p; }
    if id in ix.hash {
      HashId(ix, id);
      if ix.hash[id] in p {
        var i :| 0 <= i < |p| && p[i] == ix.hash[id];
        assert Ids(p)[i] == id;
      }
    }
    if id in Ids(p) {
      var i :| 0 <= i < |p| && Ids(p)[i] == id;
      assert p[i] in p;
    }
  }

  lemma HashId(ix: Index, id: Str)
    requires Sound(ix) && id in ix.hash
    ensures ix.hash[id].id == id
  {
  }

  /** What any other query answers of that list. Scanning upwards, Skip drops the first ones, Count is
      how many of the rest are looked at (0 for all), Start drops of these, Lim keeps the first.
      Scanning downwards (Start < 0), Skip drops the last ones, Count counts from there, the last
      -Start are kept, and of these Lim keeps the first. */
  lemma SelectedWindow(f: Filter, b: Budget, infos: seq<Info>)
    requires !f.invert && b.skip >= 0
    ensures var all, r := Selection(f.(start := 0, lim := 0), FULL, infos), Selection(f, b, infos);
            var n := |all|;
            if b.count < 0 then r == []
            else if f.start >= 0 then
              var end := if b.count == 0 || b.skip + b.count >= n then n else b.skip + b.count;
              var from := b.skip + f.start;
              var to := if f.lim <= 0 || from + f.lim >= end then end else from + f.lim;
              r == if from < to then all[from..to] else []
            else
              var end := n - b.skip;
              var first := if b.count == 0 || end - b.count < 0 then 0 else end - b.count;
              var from := if end + f.start < first then first else end + f.start;
              var to := if f.lim <= 0 || from + f.lim >= end then end else from + f.lim;
              r == if from < to then all[from..to] else []
  {
    hide Passing, Selection;
    var g := f.(start := 0, lim := 0);
    PlainSelection(g, infos);
    SelectionIsSlice(f, b, infos);
    SamePassing(f, g, infos);
  }

  lemma {:induction false} SamePassing(f: Filter, g: Filter, infos: seq<Info>)
    requires g == f.(start := g.start, lim := g.lim)
    ensures Passing(f, infos) == Passing(g, infos)
  {
    if infos != [] { SamePassing(f, g, infos[..|infos| - 1]); }
  }

  // ---------------------------------------------------------------- inversion

  ghost predicate Distinct(infos: seq<Info>) {
    forall i, j :: 0 <= i < j < |infos| ==> infos[i].id != infos[j].id
  }

  function Except(infos: seq<Info>, out: seq<Info>): seq<Info> {
    if infos == [] then []
    else
      var last := infos[|infos| - 1];
      Except(infos[..|infos| - 1], out) + if last in out then [] else [last]
  }

  lemma {:induction false} HitsWithin(f: Filter, b: Budget, infos: seq<Info>)
    ensures forall x :: x in Hits(f, b, infos) ==> x in infos
  {
    hide Taken, After;
    if infos != [] {
      HitsWithin(f, b, infos[..|infos| - 1]);
    }
  }

  lemma {:induction false} ExceptExtra(infos: seq<Info>, out: seq<Info>, x: Info)
    requires x !in infos
    ensures Except(infos, out + [x]) == Except(infos, out)
  {
    if infos != [] {
      ExceptExtra(infos[..|infos| - 1], out, x);
      assert infos[|infos| - 1] in infos;
    }
  }

  lemma {:induction false} HitsComplement(f: Filter, b: Budget, infos: seq<Info>)
    requires Distinct(infos)
    ensures Hits(f.(invert := true), b, infos) == Except(infos, Hits(f.(invert := false), b, infos))
  {
    hide Taken, Spent, Distinct;
    if infos != [] {
      var n := |infos| - 1;
      var init, x := infos[..n], infos[n];
      DistinctInit(infos);
      HitsComplement(f, b, init);
      AfterInvert(f, false, b, init);
      AfterInvert(f, true, b, init);
      StepInvert(f, false, After(f, b, init), x);
      StepInvert(f, true, After(f, b, init), x);
      HitsWithin(f.(invert := false), b, init);
      var h := Hits(f.(invert := false), b, init);
      ExceptExtra(init, h, x);
      assert h + [] == h;
      assert x in h + [x];
    }
  }

  lemma DistinctInit(infos: seq<Info>)
    requires Distinct(infos) && infos != []
    ensures Distinct(infos[..|infos| - 1]) && infos[|infos| - 1] !in infos[..|infos| - 1]
  {
  }

  lemma RecordsDistinct(ix: Index)
    requires Sound(ix)
    ensures Distinct(Records(ix))
  {
    var r := Records(ix);
    forall i, j | 0 <= i < j < |r| ensures r[i].id != r[j].id {
      assert r[i].id == ix.list[i] && r[j].id == ix.list[j];
    }
  }

  /** With Start and Lim at zero the inverted query answers exactly the messages the same query
      does not answer, in list order, even though Skip and Count run down during the scan. */
  lemma InvertedIsComplement(ix: Index, f: Filter, b: Budget)
    requires Sound(ix) && f.start == 0 && f.lim == 0
    ensures Selection(f.(invert := true), b, Records(ix))
            == Except(Records(ix), Selection(f.(invert := false), b, Records(ix)))
  {
    hide Sound, Hits, Except, Distinct;
    RecordsDistinct(ix);
    HitsComplement(f, b, Records(ix));
  }

  /** The query of `ii-tool -i select e`. */
  function Removal(e: Str): Filter {
    Filter(e, [], [], [], 0, 0, false, true, [], true, None)
  }

  function Outside(infos: seq<Info>, e: Str): seq<Info> {
    if infos == [] then []
    else Outside(infos[..|infos| - 1], e) + if infos[|infos| - 1].echo == e then [] else [infos[|infos| - 1]]
  }

  const FULL := Budget(0, 0)

  /** It answers the messages of every other echo, blacklisted and private ones included. */
  lemma {:induction false} RemovalIsOutside(infos: seq<Info>, e: Str)
    requires e != []
    ensures After(Removal(e), FULL, infos) == FULL
    ensures Hits(Removal(e), FULL, infos) == Outside(infos, e)
    ensures Selection(Removal(e), FULL, infos) == Outside(infos, e)
  {
    if infos != [] {
      RemovalIsOutside(infos[..|infos| - 1], e);
      assert Pass(Removal(e), infos[|infos| - 1]) <==> infos[|infos| - 1].echo == e;
    }
  }

  // ---------------------------------------------------------------- echoes

  datatype Stat = Stat(count: nat, topics: nat, last: Info)

  function InEcho(s: seq<Info>, e: Str): seq<Info> {
    if s == [] then []
    else
      var last := s[|s| - 1];
      InEcho(s[..|s| - 1], e) + if last.echo == e then [last] else []
  }

  function Heads(s: seq<Info>): nat {
    if s == [] then 0
    else Heads(s[..|s| - 1]) + if s[|s| - 1].repto == [] then 1 else 0
  }

  /** Echoes looks at messages with a non-negative offset only. */
  function Shown(s: seq<Info>): seq<Info> {
    if s == [] then []
    else Shown(s[..|s| - 1]) + if s[|s| - 1].off < 0 then [] else [s[|s| - 1]]
  }

  /** The statistics of echo `e` over the messages `h`. */
  ghost predicate StatOf(stats: map<Str, Stat>, h: seq<Info>, e: Str) {
    var in_e := InEcho(h, e);
    (e in stats <==> in_e != [])
    && (e in stats ==> stats[e] == Stat(|in_e|, Heads(in_e), in_e[|in_e| - 1]))
  }

  /** The counting loop of DB.Echoes; `names` is the optional list of echoes to keep to. */
  method Echoes(ix: Index, q: Query, names: Option<set<Str>>) returns (stats: map<Str, Stat>)
    requires Sound(ix)
    modifies q
    ensures var h := Hits(q.f, old(q.Left()), Shown(Records(ix)));
            forall e :: if names.None? || e in names.value then StatOf(stats, h, e) else e !in stats
  {
    hide Taken, Spent, Pass, Sound, StatOf, Counted, After, Hits;
    var infos := Records(ix);
    ghost var b := q.Left();
    NoHits(q.f, b);
    NoStats();
    ghost var h: seq<Info> := [];
    stats := map[];
    for i := 0 to |infos|
      invariant q.Left() == After(q.f, b, Shown(infos[..i]))
      invariant h == Hits(q.f, b, Shown(infos[..i]))
      invariant forall e :: if names.None? || e in names.value then StatOf(stats, h, e) else e !in stats
    {
      var info := infos[i];
      ghost var shown := Shown(infos[..i]);
      assert infos[..i + 1][..i] == infos[..i];
      assert Shown(infos[..i + 1]) == shown + if info.off < 0 then [] else [info];
      if info.off < 0 {
        assert shown + [] == shown;
        continue;
      }
      HitsSnoc(q.f, b, shown, info);
      var hit := q.Match(info);
      if !hit {
        assert h + [] == h;
        continue;
      }
      ghost var was := stats;
      if names.None? || info.echo in names.value {
        CountedKeys(stats, info);
        stats := Counted(stats, info);
      }
      forall e | names.None? || e in names.value ensures StatOf(stats, h + [info], e) {
        StatStep(was, h, info, e);
      }
      h := h + [info];
    }
    assert infos[..|infos|] == infos;
  }

  lemma NoStats()
    ensures Shown([]) == [] && forall e :: StatOf(map[], [], e)
  {
  }

  /** Counting a message leaves the other echoes' statistics alone. */
  lemma CountedKeys(stats: map<Str, Stat>, x: Info)
    ensures forall e :: e != x.echo ==> (e in Counted(stats, x) <==> e in stats)
  {
  }

  lemma HitsSnoc(f: Filter, b: Budget, s: seq<Info>, x: Info)
    ensures After(f, b, s + [x]) == Spent(f, After(f, b, s), x)
    ensures Hits(f, b, s + [x]) == Hits(f, b, s) + if Taken(f, After(f, b, s), x) != f.invert then [x] else []
  {
    hide Taken, Spent;
    assert (s + [x])[..|s|] == s;
  }

  /** One message counted into its echo. */
  function Counted(stats: map<Str, Stat>, info: Info): map<Str, Stat> {
    var head := if info.repto == [] then 1 else 0;
    if info.echo in stats then
      var v := stats[info.echo];
      stats[info.echo := Stat(v.count + 1, v.topics + head, info)]
    else stats[info.echo := Stat(1, head, info)]
  }

  lemma StatStep(stats: map<Str, Stat>, h: seq<Info>, x: Info, e: Str)
    requires StatOf(stats, h, e)
    ensures StatOf(Counted(stats, x), h + [x], e)
    ensures x.echo != e ==> StatOf(stats, h + [x], e)
  {
    hide InEcho, Heads;
    var i := InEcho(h, e);
    InEchoSnoc(h, x, e);
    HeadsSnoc(i, x);
    assert i + [] == i;
  }

  lemma InEchoSnoc(h: seq<Info>, x: Info, e: Str)
    ensures InEcho(h + [x], e) == InEcho(h, e) + if x.echo == e then [x] else []
  {
    assert (h + [x])[..|h|] == h;
  }

  lemma HeadsSnoc(h: seq<Info>, x: Info)
    ensures Heads(h + [x]) == Heads(h) + if x.repto == [] then 1 else 0
    ensures Heads([]) == 0
  {
    assert (h + [x])[..|h|] == h;
  }

  /** The query that lists one echo for a user, and the one that lists its topic heads. */
  function Listing(e: Str, user: Str, heads: bool): Filter {
    Filter(e, if heads then HEADS_ONLY else [], [], [], 0, 0, false, false, user, false, None)
  }

  lemma {:induction false} ListingIsEcho(e: Str, user: Str, s: seq<Info>)
    requires e != []
    ensures InEcho(Passing(Listing([], user, false), Shown(s)), e) == Passing(Listing(e, user, false), s)
    ensures Heads(Passing(Listing(e, user, false), s)) == |Passing(Listing(e, user, true), s)|
  {
    hide Pass, Listing;
    if s != [] {
      var n := |s| - 1;
      var init, x := s[..n], s[n];
      ListingIsEcho(e, user, init);
      PassSplits(e, user, x);
      var p, l := Passing(Listing([], user, false), Shown(init)), Passing(Listing(e, user, false), init);
      if x.off >= 0 {
        SnocPassing(Listing([], user, false), Shown(init), x);
        assert (p + [x])[..|p|] == p;
      } else {
        assert Shown(s) == Shown(init) + [] == Shown(init);
      }
      assert InEcho(p + [x], e) == if x.echo == e then l + [x] else l by {
        NothingAdded(l);
        assert (p + [x])[..|p|] == p;
      }
      NothingAdded(p);
      NothingAdded(l);
      assert Passing(Listing(e, user, false), s)
             == if Pass(Listing(e, user, false), x) then l + [x] else l;
      assert (l + [x])[..|l|] == l;
    }
  }

  lemma SnocPassing(f: Filter, s: seq<Info>, x: Info)
    ensures Passing(f, s + [x]) == Passing(f, s) + if Pass(f, x) then [x] else []
  {
    hide Pass;
    assert (s + [x])[..|s|] == s;
  }

  lemma PassSplits(e: Str, user: Str, x: Info)
    requires e != []
    ensures Pass(Listing(e, user, false), x) <==> Pass(Listing([], user, false), x) && x.echo == e
    ensures Pass(Listing(e, user, true), x) <==> Pass(Listing(e, user, false), x) && x.repto == []
    ensures Pass(Listing([], user, false), x) ==> x.off >= 0
  {
    hide Access;
  }

  /** For every table and user, the echo statistics agree with the listings: Count is the length
      of SelectIDS on that echo, Topics the length with Repto "!", Last its last message. */
  lemma CountsAgree(ix: Index, user: Str, e: Str, stats: map<Str, Stat>)
    requires Sound(ix) && e != []
    requires StatOf(stats, Hits(Listing([], user, false), FULL, Shown(Records(ix))), e)
    ensures var all := Selection(Listing(e, user, false), FULL, Records(ix));
            var heads := Selection(Listing(e, user, true), FULL, Records(ix));
            (e in stats <==> all != [])
            && (e in stats ==> stats[e] == Stat(|all|, |heads|, all[|all| - 1]))
  {
    hide Sound, Passing, Hits, Heads, InEcho, Shown, Selection;
    var s := Records(ix);
    WholeWindow(Listing([], user, false), Shown(s));
    ListingIsEcho(e, user, s);
    SelectionIsSlice(Listing(e, user, false), FULL, s);
    SelectionIsSlice(Listing(e, user, true), FULL, s);
  }

  lemma WholeWindow(f: Filter, s: seq<Info>)
    requires !f.invert
    ensures Hits(f, FULL, s) == Passing(f, s)
  {
    hide Passing, Hits;
    TakenIsWindow(f, FULL, s);
    assert f.(invert := false) == f;
  }

  function Sum(h: seq<Info>, es: seq<Str>): nat {
    if es == [] then 0 else Sum(h, es[..|es| - 1]) + |InEcho(h, es[|es| - 1])|
  }

  lemma {:induction false} SumSnoc(h: seq<Info>, x: Info, es: seq<Str>)
    requires T.NoDups(es)
    ensures Sum(h + [x], es) == Sum(h, es) + if x.echo in es then 1 else 0
  {
    if es != [] {
      var n := |es| - 1;
      SumSnoc(h, x, es[..n]);
      assert (h + [x])[..|h|] == h;
      assert x.echo in es <==> x.echo in es[..n] || x.echo == es[n];
    }
  }

  /** The per-echo counts add up to the number of messages shown to the user. */
  lemma {:induction false} CountsSum(h: seq<Info>, es: seq<Str>)
    requires T.NoDups(es) && forall i :: 0 <= i < |h| ==> h[i].echo in es
    ensures Sum(h, es) == |h|
  {
    if h == [] {
      SumEmpty(es);
    } else {
      var n := |h| - 1;
      CountsSum(h[..n], es);
      assert h[..n] + [h[n]] == h;
      SumSnoc(h[..n], h[n], es);
    }
  }

  lemma {:induction false} SumEmpty(es: seq<Str>)
    ensures Sum([], es) == 0
  {
    if es != [] {
      SumEmpty(es[..|es| - 1]);
    }
  }
}
