/** The fetching side: adaptive probing, listing, batches of eight, and one message carried over. */
module Fetch {
  import opened Bytes
  import opened Codec
  import opened Log
  import opened Store
  import opened Serve
  import opened Url
  import Db
  import Q = Query
  import T = Tags

  // ---------------------------------------------------------------- what is known of a list

  /** The known ids of the remote list form a prefix of it. */
  ghost predicate Prefix(known: set<Str>, l: seq<Str>) {
    forall i, j :: 0 <= i < j < |l| && l[j] in known ==> l[i] in known
  }

  ghost predicate AllKnown(known: set<Str>, l: seq<Str>) {
    forall i :: 0 <= i < |l| ==> l[i] in known
  }

  /** Every id before the last `limit` ones is known. */
  ghost predicate WindowCovers(known: set<Str>, l: seq<Str>, limit: int) {
    forall i :: 0 <= i < |l| && i < |l| - limit ==> l[i] in known
  }

  // ---------------------------------------------------------------- probing

  datatype Probe = Again(limit: int) | Settled(limit: int)

  /** One turn of the probe loop: `reply` is the remote's answer for the slice -limit:1. */
  function Turn(known: set<Str>, reply: seq<Str>, limit: int, tries: nat): Probe {
    if tries > 16 then Settled(0)
    else if !IsMsgId(Concat(reply)) then Settled(0)
    else if Concat(reply) in known then Settled(limit)
    else Again(Wrap(limit * 2))
  }

  /** What the loop asks for at `limit`. */
  function Reply(l: seq<Str>, limit: int): seq<Str> { Slice(l, Wrap(-limit), 1) }

  lemma ReplyIsOne(l: seq<Str>, limit: int)
    requires limit >= 1
    ensures l == [] ==> Reply(l, limit) == []
    ensures l != [] && limit <= MAX_INT64 ==> Reply(l, limit) == [l[Q.Max(0, |l| - limit)]]
  {
  }

  lemma ConcatOne(x: Str)
    ensures Concat([x]) == x
  {
    assert [x][..0] == [];
    assert [] + x == x;
  }

  /** When probing settles on a positive limit, the last `limit` ids hold everything missing. */
  lemma SettledCovers(known: set<Str>, l: seq<Str>, limit: int, tries: nat)
    requires Prefix(known, l) && AllIds(l) && limit <= MAX_INT64
    ensures var t := Turn(known, Reply(l, limit), limit, tries);
            t.Settled? && t.limit > 0 ==> t.limit == limit && WindowCovers(known, l, limit)
  {
    var t := Turn(known, Reply(l, limit), limit, tries);
    if t.Settled? && t.limit > 0 {
      ReplyIsOne(l, limit);
      if l != [] {
        ConcatOne(l[Q.Max(0, |l| - limit)]);
      }
    }
  }

  /** Where probing ends: the first of limit, 2*limit, 4*limit, ... whose window starts at a known
      id, or 0 when an answer is no id or seventeen probes were not enough. */
  function Settle(known: set<Str>, l: seq<Str>, limit: int, tries: nat): int
    decreases 18 - tries
  {
    match Turn(known, Reply(l, limit), limit, tries)
    case Settled(lim) => lim
    case Again(lim) => if tries > 16 then 0 else Settle(known, l, lim, tries + 1)
  }

  /** A positive limit that probing ends with certifies its window. */
  lemma {:induction false} SettleCovers(known: set<Str>, l: seq<Str>, limit: int, tries: nat)
    requires Prefix(known, l) && AllIds(l) && limit <= MAX_INT64
    ensures var lim := Settle(known, l, limit, tries);
            lim <= 0 || WindowCovers(known, l, lim)
    decreases 18 - tries
  {
    hide Reply, Prefix, AllIds, WindowCovers, Concat, IsMsgId;
    SettledCovers(known, l, limit, tries);
    if tries <= 16 && Turn(known, Reply(l, limit), limit, tries).Again? {
      SettleCovers(known, l, Wrap(limit * 2), tries + 1);
    }
  }

  /** The probe loop of Fetcher for limit < 0. */
  method ProbeLimit(known: set<Str>, l: seq<Str>, limit0: int) returns (limit: int, probes: nat)
    requires MIN_INT64 <= limit0 < 0 && AllIds(l)
    ensures probes <= 17
    ensures limit == Settle(known, l, Wrap(-limit0), 0)
  {
    hide Reply, AllIds, Concat, IsMsgId;
    limit, probes := Wrap(-limit0), 0;
    var tries := 0;
    while true
      invariant probes == tries <= 17
      invariant Settle(known, l, limit, tries) == Settle(known, l, Wrap(-limit0), 0)
      decreases 17 - tries
    {
      TurnAt(known, l, limit, tries);
      if tries > 16 {
        return 0, probes;
      }
      var id := GetId(Reply(l, limit));
      probes := probes + 1;
      if !IsMsgId(id) {
        return 0, probes;
      }
      if id in known {
        return limit, probes;
      }
      tries := tries + 1;
      limit := Wrap(limit * 2);
    }
  }

  /** The branches of a turn, with the answer read off its lines. */
  lemma TurnAt(known: set<Str>, l: seq<Str>, limit: int, tries: nat)
    requires AllIds(l)
    ensures Payload(Reply(l, limit)) == Reply(l, limit)
    ensures var id := Concat(Reply(l, limit));
            Turn(known, Reply(l, limit), limit, tries)
            == if tries > 16 || !IsMsgId(id) then Settled(0)
               else if id in known then Settled(limit) else Again(Wrap(limit * 2))
  {
    SliceIds(l, Wrap(-limit), 1);
    PayloadOfIds(Reply(l, limit));
  }

  lemma {:induction false} PayloadOfIds(ids: seq<Str>)
    requires AllIds(ids)
    ensures Payload(ids) == ids
  {
    if ids != [] {
      PayloadOfIds(ids[..|ids| - 1]);
      assert IsMsgId(ids[|ids| - 1]);
    }
  }

  /** The limit after k doublings, in 64 bits. */
  function Doubled(limit: int, k: nat): int
    decreases k
  {
    if k == 0 then limit else Doubled(Wrap(limit * 2), k - 1)
  }

  /** The window of the last `limit` ids, as the remote cuts it, starts at a known id. */
  predicate StartKnown(known: set<Str>, l: seq<Str>, limit: int) {
    var s := Slice(l, Wrap(-limit), 1); s != [] && s[0] in known
  }

  /** A limit that probing ends with is the first one in the row of doublings whose window starts at a
      known id, at most sixteen doublings on. */
  lemma {:induction false} SettleDoubles(known: set<Str>, l: seq<Str>, limit: int, tries: nat) returns (k: nat)
    requires AllIds(l) && tries <= 17
    ensures var r := Settle(known, l, limit, tries);
            r != 0 ==> tries + k <= 16 && r == Doubled(limit, k) && StartKnown(known, l, r)
                       && forall i :: 0 <= i < k ==> !StartKnown(known, l, Doubled(limit, i))
    decreases 17 - tries
  {
    hide Slice, Concat, IsMsgId, AllIds;
    k := 0;
    TurnAt(known, l, limit, tries);
    ProbeIs(known, l, limit);
    if tries <= 16 && Turn(known, Reply(l, limit), limit, tries).Again? {
      k := SettleDoubles(known, l, Wrap(limit * 2), tries + 1);
      k := k + 1;
      forall i | 0 <= i < k ensures !StartKnown(known, l, Doubled(limit, i)) || Settle(known, l, limit, tries) == 0 {
        if i > 0 { assert Doubled(limit, i) == Doubled(Wrap(limit * 2), i - 1); }
      }
    }
  }

  /** The answer to a probe is the id its window starts at, if there is one. */
  lemma ProbeIs(known: set<Str>, l: seq<Str>, limit: int)
    requires AllIds(l)
    ensures var id := Concat(Reply(l, limit)); IsMsgId(id) && id in known <==> StartKnown(known, l, limit)
  {
    hide IsMsgId;
    var s := Reply(l, limit);
    SliceIds(l, Wrap(-limit), 1);
    assert |s| <= 1;
    NoId();
    if |s| == 1 {
      ConcatOne(s[0]);
      assert s == [s[0]];
    } else {
      assert s == [];
    }
  }

  // ---------------------------------------------------------------- the queue of missing ids

  /** Position of an id in the remote list. */
  function Pos(l: seq<Str>, x: Str): (p: nat)
    ensures p <= |l|
    ensures p < |l| ==> l[p] == x
    ensures x in l ==> p < |l|
  {
    if l == [] then 0
    else if l[0] == x then 0
    else 1 + Pos(l[1..], x)
  }

  lemma {:induction false} PosAt(l: seq<Str>, i: nat)
    requires i < |l| && T.NoDups(l)
    ensures Pos(l, l[i]) == i
  {
  }

  /** The queue runs through the list in order. */
  ghost predicate InOrder(l: seq<Str>, q: seq<Str>) {
    (forall i :: 0 <= i < |q| ==> q[i] in l)
    && (forall i, j :: 0 <= i < j < |q| ==> Pos(l, q[i]) < Pos(l, q[j]))
  }

  /** Nothing is missing but what the queue holds. */
  ghost predicate Covers(l: seq<Str>, known: set<Str>, q: seq<Str>) {
    forall i :: 0 <= i < |l| ==> l[i] in known || l[i] in q
  }

  ghost predicate Queue(l: seq<Str>, known: set<Str>, q: seq<Str>) { InOrder(l, q) && Covers(l, known, q) }

  /** Everything before the head of the queue is known already. */
  lemma BeforeHead(l: seq<Str>, known: set<Str>, q: seq<Str>, i: nat)
    requires T.NoDups(l) && Queue(l, known, q) && q != [] && i < Pos(l, q[0])
    ensures l[i] in known
  {
    hide Pos;
    PosAt(l, i);
    forall n | 0 <= n < |q| ensures q[n] != l[i] {
      assert n > 0 ==> Pos(l, q[0]) < Pos(l, q[n]);
    }
  }

  /** Storing the head of the queue keeps the known ids a prefix. */
  lemma StoreHead(l: seq<Str>, known: set<Str>, q: seq<Str>)
    requires T.NoDups(l) && Queue(l, known, q) && q != [] && Prefix(known, l)
    ensures Prefix(known + {q[0]}, l)
    ensures Queue(l, known + {q[0]}, q[1..])
  {
    hide Pos;
    var next := known + {q[0]};
    assert q[0] in l;
    forall i, j | 0 <= i < j < |l| && l[j] in next ensures l[i] in next {
      if l[j] == q[0] {
        PosAt(l, j);
        BeforeHead(l, known, q, i);
      }
    }
    assert InOrder(l, q[1..]);
    forall i | 0 <= i < |l| ensures l[i] in next || l[i] in q[1..] {
      if l[i] !in known {
        var n :| 0 <= n < |q| && q[n] == l[i];
        assert n > 0 ==> q[1..][n - 1] == l[i];
      }
    }
  }

  /** A known id may be left out of the queue. */
  lemma DropKnown(l: seq<Str>, known: set<Str>, a: seq<Str>, b: seq<Str>)
    requires b != [] && Queue(l, known, a + b) && b[0] in known
    ensures Queue(l, known, a + b[1..])
  {
    hide Pos;
    var q, r := a + b, a + b[1..];
    forall i | 0 <= i < |r| ensures r[i] == q[if i < |a| then i else i + 1] {}
    forall i | 0 <= i < |l| ensures l[i] in known || l[i] in r {
      if l[i] !in known {
        var n :| 0 <= n < |q| && q[n] == l[i];
        assert n != |a|;
        assert r[if n < |a| then n else n - 1] == l[i];
      }
    }
  }

  lemma QueueGrows(l: seq<Str>, known: set<Str>, more: set<Str>, q: seq<Str>)
    requires Queue(l, known, q) && known <= more
    ensures Queue(l, more, q)
  {
    hide Pos;
  }

  lemma EmptyQueue(l: seq<Str>, known: set<Str>)
    requires Queue(l, known, [])
    ensures AllKnown(known, l)
  {
  }

  /** What is asked for once probing is over. */
  function Asked(l: seq<Str>, limit: int): seq<Str> {
    if limit > 0 then Slice(l, -limit, limit) else l
  }

  lemma AskedQueue(l: seq<Str>, known: set<Str>, limit: int)
    requires T.NoDups(l) && (limit <= 0 || WindowCovers(known, l, limit))
    ensures Queue(l, known, Asked(l, limit))
    ensures |Asked(l, limit)| <= |l|
  {
    hide Pos;
    var q := Asked(l, limit);
    var from := |l| - |q|;
    assert q == l[from..];
    forall i | 0 <= i < |q| ensures q[i] in l && Pos(l, q[i]) == from + i {
      PosAt(l, from + i);
    }
    forall i | 0 <= i < |l| ensures l[i] in known || l[i] in q {
      if i >= from {
        assert q[i - from] == l[i];
      }
    }
  }

  // ---------------------------------------------------------------- one fetcher on its own

  /** The listing loop: ids not known yet, in the order they are listed. */
  function Missing(known: set<Str>, asked: seq<Str>): seq<Str> {
    if asked == [] then []
    else
      var x := asked[|asked| - 1];
      Missing(known, asked[..|asked| - 1]) + if x in known then [] else [x]
  }

  lemma {:induction false} MissingQueue(l: seq<Str>, known: set<Str>, a: seq<Str>, b: seq<Str>)
    requires Queue(l, known, Missing(known, a) + b)
    ensures Queue(l, known, Missing(known, a + b))
    decreases |b|
  {
    hide Queue;
    if b == [] {
      assert a + b == a;
      assert Missing(known, a) + b == Missing(known, a);
    } else {
      var c, m := a + [b[0]], Missing(known, a);
      assert c[..|a|] == a;
      assert a + b == c + b[1..];
      if b[0] in known {
        DropKnown(l, known, m, b);
        assert m + [] == m;
      } else {
        assert m + [b[0]] + b[1..] == m + b;
      }
      MissingQueue(l, known, c, b[1..]);
    }
  }

  /** The fast path ends the fetch: there is nothing on the list, or its last id is known. */
  predicate LastKnown(known: set<Str>, l: seq<Str>) { l == [] || l[|l| - 1] in known }

  /** The ids a fetcher asks the remote for, for every limit and mode. */
  function ToFetch(known: set<Str>, l: seq<Str>, limit: int, force: bool, feature: bool): seq<Str> {
    if !feature then Missing(known, l)
    else if !force && LastKnown(known, l) then []
    else Missing(known, Asked(l, if limit < 0 then Settle(known, l, Wrap(-limit), 0) else limit))
  }

  /** Fetcher without its storing half: which ids it will ask the remote for. `known` is what
      db.Exists answers, `l` the remote's list for the echo. */
  method Fetcher(known: set<Str>, l: seq<Str>, limit0: int, force: bool, feature: bool)
    returns (res: seq<Str>, probes: nat)
    requires MIN_INT64 <= limit0 <= MAX_INT64 && AllIds(l)
    ensures probes <= 17
    ensures res == ToFetch(known, l, limit0, force, feature)
  {
    hide Settle, AllIds, IsMsgId, Missing, Slice;
    var limit := limit0;
    probes := 0;
    if feature {
      if !force {
        var id := GetId(Slice(l, -1, 1));
        LastId(l, known, id);
        if !IsMsgId(id) || id in known {
          return [], probes;
        }
      }
      if limit < 0 {
        limit, probes := ProbeLimit(known, l, limit);
      }
    } else {
      limit := 0;
    }
    res := List(known, Asked(l, limit));
  }

  /** With limit <= 0 and the known ids a prefix, exactly the missing ids are asked for, in list
      order. */
  lemma FetcherMissing(known: set<Str>, l: seq<Str>, limit: int, force: bool, feature: bool)
    requires MIN_INT64 <= limit <= 0 && AllIds(l) && T.NoDups(l) && Prefix(known, l)
    ensures var res := ToFetch(known, l, limit, force, feature);
            Queue(l, known, res) && forall x :: x in res <==> x in l && x !in known
  {
    hide Queue, WindowCovers, AllIds, Missing, Settle, Asked;
    var res := ToFetch(known, l, limit, force, feature);
    if feature && !force && LastKnown(known, l) {
      NothingMissing(known, l);
    } else {
      var lim := if feature && limit < 0 then Settle(known, l, Wrap(-limit), 0) else 0;
      if feature && limit < 0 { SettleCovers(known, l, Wrap(-limit), 0); }
      var asked := Asked(l, lim);
      AskedAll(l);
      AskedQueue(l, known, lim);
      MissingIs(known, asked);
      assert Missing(known, []) + asked == asked && [] + asked == asked by { NoneMissing(known); }
      MissingQueue(l, known, [], asked);
    }
    QueueHolds(l, known, res);
  }

  /** What is asked for in general: nothing when the fast path ends the fetch; otherwise exactly the unknown
      ids among the last k of the list, or in all of it when k is not positive, in the order of the list;
      k is the limit given, or the one that probing ends with, or 0 without the feature. */
  lemma ToFetchTells(known: set<Str>, l: seq<Str>, limit: int, force: bool, feature: bool)
    requires T.NoDups(l) && MIN_INT64 <= limit <= MAX_INT64
    ensures var res := ToFetch(known, l, limit, force, feature);
            var k := if !feature then 0 else if limit < 0 then Settle(known, l, Wrap(-limit), 0) else limit;
            if feature && !force && (l == [] || l[|l| - 1] in known) then res == []
            else (forall x :: x in res <==> x !in known && exists i :: 0 <= i < |l| && l[i] == x && (k <= 0 || i >= |l| - k))
                 && forall a, b, i, j :: 0 <= a < b < |res| && 0 <= i < |l| && 0 <= j < |l| && l[i] == res[a] && l[j] == res[b] ==> i < j
  {
    hide Missing, Settle, Asked;
    var k := if !feature then 0 else if limit < 0 then Settle(known, l, Wrap(-limit), 0) else limit;
    AskedAll(l);
    MissingIs(known, Asked(l, k));
    LastOnes(l, k);
    MissingOrder(l, known, Asked(l, k));
  }

  lemma LastOnes(l: seq<Str>, k: int)
    requires T.NoDups(l)
    ensures forall x :: x in Asked(l, k) <==> exists i :: 0 <= i < |l| && l[i] == x && (k <= 0 || i >= |l| - k)
    ensures Positioned(l, Asked(l, k))
  {
    var q := Asked(l, k);
    var from := |l| - |q|;
    assert q == l[from..];
    forall x ensures x in q <==> exists i :: 0 <= i < |l| && l[i] == x && (k <= 0 || i >= |l| - k) {
      if x in q {
        var j :| 0 <= j < |q| && q[j] == x;
        assert l[from + j] == x;
      }
      if i :| 0 <= i < |l| && l[i] == x && (k <= 0 || i >= |l| - k) {
        assert q[i - from] == x;
      }
    }
  }

  /** In the order of the list. */
  ghost predicate Positioned(l: seq<Str>, q: seq<Str>) {
    forall a, b, i, j :: 0 <= a < b < |q| && 0 <= i < |l| && 0 <= j < |l| && l[i] == q[a] && l[j] == q[b] ==> i < j
  }

  lemma {:induction false} MissingOrder(l: seq<Str>, known: set<Str>, q: seq<Str>)
    requires Positioned(l, q)
    ensures Positioned(l, Missing(known, q))
  {
    if q != [] {
      var n := |q| - 1;
      var r := Missing(known, q[..n]);
      MissingOrder(l, known, q[..n]);
      MissingIs(known, q[..n]);
      forall a, i, j | 0 <= a < |r| && 0 <= i < |l| && 0 <= j < |l| && l[i] == r[a] && l[j] == q[n] ensures i < j {
        assert r[a] in r;
        var b :| 0 <= b < n && q[..n][b] == r[a];
        assert q[b] == r[a];
      }
    }
  }

  lemma AskedAll(l: seq<Str>)
    ensures Asked(l, 0) == l
  {
  }

  lemma NothingMissing(known: set<Str>, l: seq<Str>)
    requires Prefix(known, l) && LastKnown(known, l)
    ensures Queue(l, known, [])
  {
    hide Pos;
  }

  lemma QueueHolds(l: seq<Str>, known: set<Str>, q: seq<Str>)
    requires Queue(l, known, q)
    ensures forall x :: x in q ==> x in l
    ensures forall x :: x in l && x !in known ==> x in q
  {
    hide Pos;
  }

  lemma NoneMissing(known: set<Str>)
    ensures Missing(known, []) == []
  {
  }

  method List(known: set<Str>, asked: seq<Str>) returns (res: seq<Str>)
    ensures res == Missing(known, asked)
  {
    res := [];
    for i := 0 to |asked|
      invariant res == Missing(known, asked[..i])
    {
      assert asked[..i + 1][..i] == asked[..i];
      if asked[i] !in known {
        res := res + [asked[i]];
      }
    }
    assert asked[..|asked|] == asked;
  }

  /** The answer to -1:1 is the last id, or no id when the list is empty. */
  lemma LastId(l: seq<Str>, known: set<Str>, id: Str)
    requires AllIds(l) && id == Concat(Payload(Slice(l, -1, 1)))
    ensures !IsMsgId(id) || id in known <==> LastKnown(known, l)
  {
    hide Slice, Payload, Concat, IsMsgId;
    SliceIds(l, -1, 1);
    PayloadOfIds(Slice(l, -1, 1));
    LastSlice(l);
    if l == [] {
      NoId();
    } else {
      ConcatOne(l[|l| - 1]);
      assert IsMsgId(l[|l| - 1]);
    }
  }

  lemma NoId()
    ensures !IsMsgId(Concat([]))
  {
  }

  lemma LastSlice(l: seq<Str>)
    ensures Slice(l, -1, 1) == if l == [] then [] else [l[|l| - 1]]
  {
  }

  /** The ids known after a fetch that stored everything it asked for. */
  function Fetched(known: set<Str>, res: seq<Str>): set<Str> { known + set x | x in res }

  lemma WindowIsTail(l: seq<Str>, limit: int)
    requires limit > 0
    ensures Slice(l, -limit, limit) == l[Q.Max(0, |l| - limit)..]
  {
  }

  lemma WindowEnough(known: set<Str>, l: seq<Str>, from: nat)
    requires from <= |l| && forall i :: 0 <= i < from ==> l[i] in known
    ensures AllKnown(Fetched(known, Missing(known, l[from..])), l)
  {
    hide Missing;
    MissingIs(known, l[from..]);
    forall i | 0 <= i < |l| ensures l[i] in Fetched(known, Missing(known, l[from..])) {
      if i >= from { assert l[from..][i - from] == l[i]; }
    }
  }

  lemma WindowNeeded(known: set<Str>, l: seq<Str>, from: nat, i: nat)
    requires i < from <= |l| && T.NoDups(l) && l[i] in Fetched(known, Missing(known, l[from..]))
    ensures l[i] in known
  {
    hide Missing;
    MissingIs(known, l[from..]);
    forall n | 0 <= n < |l[from..]| ensures l[from..][n] != l[i] { assert l[from..][n] == l[from + n]; }
  }

  /** A window leaves everything known exactly when it reaches back to the known part. */
  lemma WindowCompleteIff(known: set<Str>, l: seq<Str>, limit: int)
    requires limit > 0 && T.NoDups(l)
    ensures AllKnown(Fetched(known, Missing(known, Slice(l, -limit, limit))), l)
            <==> WindowCovers(known, l, limit)
  {
    hide Missing, Fetched, Slice;
    var from := Q.Max(0, |l| - limit);
    WindowIsTail(l, limit);
    if WindowCovers(known, l, limit) {
      WindowEnough(known, l, from);
    }
    if AllKnown(Fetched(known, Missing(known, l[from..])), l) {
      forall i | 0 <= i < |l| && i < |l| - limit ensures l[i] in known {
        WindowNeeded(known, l, from, i);
      }
    }
  }

  /** The limit that is in force once probing is over; 0 asks for the whole list. */
  function LimitUsed(known: set<Str>, l: seq<Str>, limit: int): int {
    if limit < 0 then Settle(known, l, Wrap(-limit), 0) else limit
  }

  /** For every set of known ids, list, limit and mode: a fetch that stores all it asks for leaves
      everything known exactly when
      - the remote has no u/e feature, so the whole list is asked for whatever the limit; or
      - the fast path ended it and there was no hole before the last id; or
      - the limit in force is not positive, or its window reaches back to the known part. */
  lemma FetchCompleteIff(known: set<Str>, l: seq<Str>, limit: int, force: bool, feature: bool)
    requires AllIds(l) && T.NoDups(l)
    ensures AllKnown(Fetched(known, ToFetch(known, l, limit, force, feature)), l)
            <==> if !feature then true
                 else if !force && LastKnown(known, l) then AllKnown(known, l)
                 else LimitUsed(known, l, limit) <= 0
                      || WindowCovers(known, l, LimitUsed(known, l, limit))
  {
    hide Missing, Settle, Slice, WindowCovers, AllIds, AllKnown, Fetched, T.NoDups;
    var lim := LimitUsed(known, l, limit);
    assert l[0..] == l;
    WindowEnough(known, l, 0);
    FetchedNothing(known);
    if lim > 0 { WindowCompleteIff(known, l, lim); }
  }

  lemma FetchedNothing(known: set<Str>)
    ensures Fetched(known, []) == known
  {
  }

  lemma {:induction false} MissingIs(known: set<Str>, s: seq<Str>)
    ensures forall x :: x in Missing(known, s) <==> x in s && x !in known
  {
    if s != [] {
      MissingIs(known, s[..|s| - 1]);
      assert s == s[..|s| - 1] + [s[|s| - 1]];
    }
  }

  // ---------------------------------------------------------------- batches

  /** The first eight ids, or all of them. */
  function Batch(ids: seq<Str>): (b: seq<Str>)
    ensures b <= ids && |b| == if |ids| <= 8 then |ids| else 8
  {
    if |ids| <= 8 then ids else ids[..8]
  }

  /** Consecutive groups of eight, the last one possibly shorter. */
  function Batches(ids: seq<Str>): seq<seq<Str>> {
    if |ids| == 0 then [] else [Batch(ids)] + Batches(ids[|Batch(ids)|..])
  }

  function Request(batch: seq<Str>): Str {
    if batch == [] then [] else Request(batch[..|batch| - 1]) + ([SLASH] + batch[|batch| - 1])
  }

  function Requests(batches: seq<seq<Str>>): seq<Str> {
    if batches == [] then [] else [Request(batches[0])] + Requests(batches[1..])
  }

  /** Node.Store: the request strings, built up id by id and sent at every eighth and at the end. */
  method StoreRequests(ids: seq<Str>) returns (reqs: seq<Str>)
    ensures reqs == Requests(Batches(ids))
  {
    hide Requests, Batches;
    reqs := [];
    var req: Str, nreq := [], 0;
    var count := |ids|;
    ghost var from := 0;
    assert ids[0..] == ids;
    for i := 0 to count
      invariant 0 <= from <= i && nreq == i - from < 8
      invariant i == count ==> from == count
      invariant req == Request(ids[from..i])
      invariant reqs + Requests(Batches(ids[from..])) == Requests(Batches(ids))
    {
      assert ids[from..i + 1][..i - from] == ids[from..i];
      req := req + ([SLASH] + ids[i]);
      nreq := nreq + 1;
      if nreq < 8 && i < count - 1 { continue; }
      SendBatch(ids[from..], nreq);
      assert ids[from..][..nreq] == ids[from..i + 1];
      assert ids[from..][nreq..] == ids[i + 1..];
      assert reqs + ([req] + Requests(Batches(ids[i + 1..]))) == (reqs + [req]) + Requests(Batches(ids[i + 1..]));
      reqs := reqs + [req];
      nreq, req, from := 0, [], i + 1;
    }
    assert ids[count..] == [];
    NoBatches();
    assert reqs + [] == reqs;
  }

  lemma NoBatches()
    ensures Requests(Batches([])) == []
  {
  }

  lemma SendBatch(ids: seq<Str>, n: nat)
    requires 1 <= n <= 8 && n <= |ids| && (n == 8 || n == |ids|)
    ensures Requests(Batches(ids)) == [Request(ids[..n])] + Requests(Batches(ids[n..]))
  {
    assert ids[..|ids|] == ids;
    assert Batch(ids) == ids[..n];
    assert ([Batch(ids)] + Batches(ids[n..]))[1..] == Batches(ids[n..]);
  }

  function Flat(bs: seq<seq<Str>>): seq<Str> { if bs == [] then [] else bs[0] + Flat(bs[1..]) }

  /** Batching neither loses nor reorders an id, and asks for one to eight at a time. */
  lemma {:induction false} BatchesPartition(ids: seq<Str>)
    ensures Flat(Batches(ids)) == ids
    ensures forall i :: 0 <= i < |Batches(ids)| ==> 1 <= |Batches(ids)[i]| <= 8
    ensures |Batches(ids)| == (|ids| + 7) / 8
    decreases |ids|
  {
    if |ids| > 0 {
      var b := Batch(ids);
      BatchesPartition(ids[|b|..]);
      assert ids == b + ids[|b|..];
    }
  }

  lemma {:induction false} RequestIsJoin(batch: seq<Str>)
    requires batch != []
    ensures Request(batch) == [SLASH] + Join(batch, SLASH)
  {
    var n := |batch| - 1;
    if n == 0 {
      assert batch[..0] == [];
    } else {
      RequestIsJoin(batch[..n]);
      assert batch[..n] + [batch[n]] == batch;
      JoinConcat(batch[..n], [batch[n]], SLASH);
      Glue(Join(batch[..n], SLASH), batch[n]);
    }
  }

  lemma Glue(a: Str, b: Str)
    ensures ([SLASH] + a) + ([SLASH] + b) == [SLASH] + (a + [SLASH] + b)
  {
  }

  /** The path elements the node looks up for a batch request, or None when it cannot be made. */
  function Elements(batch: seq<Str>): Option<seq<Str>>
    requires batch != []
  {
    RequestIsJoin(batch);
    match Arrive(Request(batch)[1..])
    case None => None
    case Some(p) => Some(Split(p, SLASH))
  }

  /** For batches of ids of one length: every element of that length is an id of the batch, and a
      plain one; and the batch arrives as it was sent exactly when all of its ids are plain. */
  lemma RequestPathIff(batch: seq<Str>, n: nat)
    requires batch != [] && forall i :: 0 <= i < |batch| ==> |batch[i]| == n
    ensures Elements(batch).Some? ==>
              forall x :: x in Elements(batch).value && |x| == n ==> x in batch && UrlPlain(x)
    ensures Elements(batch) == Some(batch) <==> AllUrlPlain(batch)
  {
    hide Arrive, Request, Join, Split, UrlPlain;
    RequestIsJoin(batch);
    assert Request(batch)[1..] == Join(batch, SLASH);
    if Elements(batch).Some? {
      forall x | x in Elements(batch).value && |x| == n ensures x in batch && UrlPlain(x) {
        ArrivedElement(batch, x);
      }
    }
    if Elements(batch) == Some(batch) {
      assert forall i :: 0 <= i < |batch| ==> batch[i] in batch;
    }
    if AllUrlPlain(batch) {
      ElementsArrive(batch);
    }
  }

  // ---------------------------------------------------------------- one batch carried over

  /** The line decodes to the message `id`, fit to be stored by another node. */
  ghost predicate Carried(sum: Str -> Str, line: Str, id: Str) {
    Carries(sum, line, id) && Survives(Decode(sum, line).value) && Free(id, NL)
  }

  /** /u/m/ answers the id with a line: it is known, shown and not private. */
  predicate Serves(f: Files, h: Handle, id: Str) {
    var info := Known(h, id);
    BundleOf(f, h, id, false) != [] && info.Some? && !IsPrivate(info.value.echo)
  }

  function Served(f: Files, h: Handle, ids: seq<Str>): seq<Str> {
    if ids == [] then []
    else
      Served(f, h, ids[..|ids| - 1]) + if Serves(f, h, ids[|ids| - 1]) then [ids[|ids| - 1]] else []
  }

  /** Whatever id a consistent node answers, the line decodes to a message with that id which
      another node can store. */
  lemma ServedCarried(sum: Str -> Str, w: World, h: nat, id: Str)
    requires GoodSum(sum) && Consistent(sum, w)
    requires var r := Refresh(sum, w.files, HandleOf(w, h)); Serves(r.files, r.handle, id)
    ensures var r := Refresh(sum, w.files, HandleOf(w, h));
            Carried(sum, BundleOf(r.files, r.handle, id, false), id)
  {
    hide View, Lines, Refresh, LastAt, Decode, ReadAt, HandleOf, Survives,
         GoodLog, Snapshot, IndexText, IsMsgId;
    var lines := Lines(w.files.log);
    HandleSnapshotOf(sum, w, h);
    RefreshGood(sum, w.files, HandleOf(w, h));
    GetReadsLast(sum, w, h, id);
    LastAtIsLast(sum, lines, id);
    ViewLast(sum, lines, id);
    var k := LastAt(sum, lines, id);
    LinesFree(w.files.log);
    DecodedSurvives(sum, lines[k]);
  }

  /** One public id of a consistent node: its bundle is served, and decodes to a message with
      that id which another node can store. */
  lemma BundleCarried(sum: Str -> Str, w: World, h: nat, e: Str, id: Str)
    requires GoodSum(sum) && Consistent(sum, w) && e != []
    requires Sound(View(sum, Lines(w.files.log)))
    requires id in Public(View(sum, Lines(w.files.log)), e)
    ensures var r := Refresh(sum, w.files, HandleOf(w, h));
            Serves(r.files, r.handle, id) && Carried(sum, BundleOf(r.files, r.handle, id, false), id)
  {
    hide View, Lines, Refresh, Public, LastAt, Decode, Sound, ReadAt, HandleOf, Carried,
         GoodLog, Snapshot, IndexText, IsMsgId;
    var lines := Lines(w.files.log);
    PublicEcho(View(sum, lines), e, id);
    HandleSnapshotOf(sum, w, h);
    RefreshGood(sum, w.files, HandleOf(w, h));
    GetReadsLast(sum, w, h, id);
    LastAtIsLast(sum, lines, id);
    ViewLast(sum, lines, id);
    NotEmptyLine(sum, lines[LastAt(sum, lines, id)]);
    ServedCarried(sum, w, h, id);
  }

  ghost predicate AllCarried(sum: Str -> Str, lines: seq<Str>, ids: seq<Str>) {
    |lines| == |ids| && forall i :: 0 <= i < |ids| ==> Carried(sum, lines[i], ids[i])
  }

  /** Any request, whatever its path elements are: one line per id that is answered, in the order
      asked for, each carrying its message. */
  lemma {:induction false} LinesCarried(sum: Str -> Str, w: World, h: nat, ids: seq<Str>)
    requires GoodSum(sum) && Consistent(sum, w)
    ensures var r := Refresh(sum, w.files, HandleOf(w, h));
            AllCarried(sum, Db.MLines(r.files, r.handle, ids), Served(r.files, r.handle, ids))
  {
    hide Refresh, HandleOf, Consistent, BundleOf, Known, Carried;
    if ids != [] {
      var n := |ids| - 1;
      LinesCarried(sum, w, h, ids[..n]);
      var r := Refresh(sum, w.files, HandleOf(w, h));
      if Serves(r.files, r.handle, ids[n]) { ServedCarried(sum, w, h, ids[n]); }
    }
  }

  lemma {:induction false} ServedAll(f: Files, h: Handle, ids: seq<Str>)
    requires forall i :: 0 <= i < |ids| ==> Serves(f, h, ids[i])
    ensures Served(f, h, ids) == ids
  {
    hide Serves;
    if ids != [] {
      ServedAll(f, h, ids[..|ids| - 1]);
      assert ids == ids[..|ids| - 1] + [ids[|ids| - 1]];
    }
  }

  /** What /u/m/ answers for an id: the last log line carrying it, if that one is not hidden and not of a
      private echo. */
  lemma AnswerTells(sum: Str -> Str, w: World, h: nat, id: Str)
    requires GoodSum(sum) && Consistent(sum, w)
    ensures var r := Refresh(sum, w.files, HandleOf(w, h));
            var lines := Lines(w.files.log); var k := LastAt(sum, lines, id);
            Db.MLines(r.files, r.handle, [id])
            == if k < |lines| && Decode(sum, lines[k]).Ok?
                  && var m := Decode(sum, lines[k]).value;
                     (m.echo == "" || m.echo[0] != '.') && (Tag(m, "access") != "blacklist" || k == 0)
               then [lines[k]] else []
  {
    hide View, Lines, Refresh, HandleOf, Decode, LastAt, BundleOf, Snapshot, GoodFiles, IndexText, EntryIs, IsPrivate, Tag;
    var lines, k := Lines(w.files.log), LastAt(sum, Lines(w.files.log), id);
    HandleSnapshotOf(sum, w, h);
    RefreshGood(sum, w.files, HandleOf(w, h));
    GetTells(sum, w, h, id, false);
    ViewLast(sum, lines, id);
    LastAtIsLast(sum, lines, id);
    assert [id][..0] == [];
    if k < |lines| {
      NotEmptyLine(sum, lines[k]);
      EntryEcho(sum, lines, id, k);
    }
  }

  lemma EntryEcho(sum: Str -> Str, lines: seq<Str>, id: Str, k: nat)
    requires k < |lines| && EntryIs(sum, lines, id, k)
    ensures id in View(sum, lines).hash && Decode(sum, lines[k]).Ok?
    ensures var e := Decode(sum, lines[k]).value.echo;
            View(sum, lines).hash[id].echo == e && (IsPrivate(e) <==> e != "" && e[0] == '.')
  {
    hide View, Decode, Tail;
  }

  lemma {:induction false} AnswersAppend(f: Files, h: Handle, a: seq<Str>, b: seq<Str>)
    ensures Db.MLines(f, h, a + b) == Db.MLines(f, h, a) + Db.MLines(f, h, b)
  {
    hide BundleOf, Known;
    if b == [] {
      assert a + b == a;
    } else {
      var n := |b| - 1;
      AnswersAppend(f, h, a, b[..n]);
      assert (a + b)[..|a| + n] == a + b[..n];
    }
  }

  /** A batch of public ids: one line for each, in the same order, each carrying its message. */
  lemma BatchCarried(sum: Str -> Str, w: World, h: nat, e: Str, ids: seq<Str>)
    requires GoodSum(sum) && Consistent(sum, w) && e != []
    requires Sound(View(sum, Lines(w.files.log)))
    requires forall i :: 0 <= i < |ids| ==> ids[i] in Public(View(sum, Lines(w.files.log)), e)
    ensures var r := Refresh(sum, w.files, HandleOf(w, h));
            AllCarried(sum, Db.MLines(r.files, r.handle, ids), ids)
  {
    hide View, Lines, Refresh, Public, Sound, HandleOf, Consistent, Serves, Carried;
    var r := Refresh(sum, w.files, HandleOf(w, h));
    LinesCarried(sum, w, h, ids);
    forall i | 0 <= i < |ids| ensures Serves(r.files, r.handle, ids[i]) {
      BundleCarried(sum, w, h, e, ids[i]);
    }
    ServedAll(r.files, r.handle, ids);
  }

  /** Storing a carried message at another consistent node: afterwards exactly that id is known
      in addition to those known before, through any handle. */
  lemma CarriedIsStored(sum: Str -> Str, w: World, h: nat, line: Str, id: Str, now: int)
    requires GoodSum(sum) && Consistent(sum, w) && Carried(sum, line, id)
    requires MIN_INT64 <= now <= MAX_INT64
    requires |Do(sum, w, Save(h, Decode(sum, line).value, now, false)).files.log| <= MAX_INT64
    ensures var v := Do(sum, w, Save(h, Decode(sum, line).value, now, false));
            Consistent(sum, v)
            && View(sum, Lines(v.files.log)).hash.Keys == View(sum, Lines(w.files.log)).hash.Keys + {id}
  {
    hide View, Lines, Decode, StoreMsg, Storable, HandleOf, Consistent, GoodFiles, Snapshot, Bundle, Filled;
    var m := Decode(sum, line).value;
    CarriedStorable(sum, line, id, now);
    DoKeeps(sum, w, Save(h, m, now, false));
    HandleSnapshotOf(sum, w, h);
    StoreGood(sum, w.files, HandleOf(w, h), m, now, false);
    FilledTags(sum, m, now);
    var full := Filled(sum, m, now);
    forall x {
      ViewStep(sum, Lines(w.files.log), Bundle(full), x);
    }
  }

  lemma CarriedStorable(sum: Str -> Str, line: Str, id: Str, now: int)
    requires Carried(sum, line, id) && MIN_INT64 <= now <= MAX_INT64
    ensures Storable(sum, Decode(sum, line).value, now)
    ensures Decode(sum, line).value.id == id && id != []
  {
    hide Decode, TextOf, Stripped, T.Canonical, T.Print, IsEcho;
    var m := Decode(sum, line).value;
    FilledTags(sum, m, now);
    StrippedSame(m);
    StrippedSame(Filled(sum, m, now));
  }
}
