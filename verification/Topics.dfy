/** Topic grouping: reply chains walked with "visited" marks over a cache kept in the index
    entries, against the plain walk that keeps nothing. */
module Topics {
  import opened Bytes
  import opened Log
  import T = Tags

  const VISITED: Str := "visited"

  /** MsgInfo.Topic of every entry; absent means empty. */
  type Cache = map<Str, Str>

  function Cached(c: Cache, id: Str): Str { if id in c then c[id] else [] }

  predicate Self(p: Info) { p.repto == p.id }

  /** LookupFast(p.Repto, false): the visible message replied to. */
  function Parent(ix: Index, p: Info): Option<Info> {
    if p.repto == [] || p.repto !in ix.hash || ix.hash[p.repto].off < 0 then None
    else Some(ix.hash[p.repto])
  }

  predicate Listed(ix: Index, p: Info) { p.id in ix.hash && ix.hash[p.id] == p }

  // ---------------------------------------------------------------- reply chains

  /** The reply chain from `p` stops within `n` steps: at a self-reply or a missing parent. */
  ghost predicate EndsIn(ix: Index, p: Info, n: nat)
    decreases n
  {
    Self(p) || Parent(ix, p).None? || (n > 0 && EndsIn(ix, Parent(ix, p).value, n - 1))
  }

  ghost predicate Ends(ix: Index, p: Info) { exists n: nat :: EndsIn(ix, p, n) }

  /** No reply cycle of two or more visible messages. */
  ghost predicate Acyclic(ix: Index) {
    forall id :: id in ix.hash ==> Ends(ix, ix.hash[id])
  }

  ghost function Least(ix: Index, p: Info, n: nat): (k: nat)
    requires EndsIn(ix, p, n)
    ensures EndsIn(ix, p, k) && k <= n && (k > 0 ==> !EndsIn(ix, p, k - 1))
  {
    if n > 0 && EndsIn(ix, p, n - 1) then Least(ix, p, n - 1) else n
  }

  lemma {:induction false} EndsInMonotone(ix: Index, p: Info, n: nat, m: nat)
    requires EndsIn(ix, p, n) && n <= m
    ensures EndsIn(ix, p, m)
    decreases n
  {
    if !Self(p) && Parent(ix, p).Some? {
      EndsInMonotone(ix, Parent(ix, p).value, n - 1, m - 1);
    }
  }

  /** Length of the chain: it measures every walk. */
  ghost function Height(ix: Index, p: Info): nat
    requires Ends(ix, p)
  {
    var n: nat :| EndsIn(ix, p, n);
    Least(ix, p, n)
  }

  lemma ParentLower(ix: Index, p: Info)
    requires Ends(ix, p) && !Self(p) && Parent(ix, p).Some?
    ensures Ends(ix, Parent(ix, p).value)
    ensures Height(ix, Parent(ix, p).value) < Height(ix, p)
  {
    var q, h := Parent(ix, p).value, Height(ix, p);
    assert EndsIn(ix, p, h);
    assert EndsIn(ix, q, h - 1);
    var k := Height(ix, q);
    if h <= k {
      EndsInMonotone(ix, q, h - 1, k - 1);
    }
  }

  /** The walk of `get -t`: the last message of the echo met on the way up, `topic` if none is. */
  ghost function PlainWalk(ix: Index, p: Info, echo: Str, topic: Str): Str
    requires Ends(ix, p)
    decreases Height(ix, p)
  {
    if Self(p) then topic
    else
      var here := if p.echo == echo then p.id else topic;
      if Parent(ix, p).None? then here
      else
        ParentLower(ix, p);
        PlainWalk(ix, Parent(ix, p).value, echo, here)
  }

  ghost function TopicOf(ix: Index, m: Info): Str
    requires Ends(ix, m)
  {
    PlainWalk(ix, m, m.echo, m.id)
  }

  /** The topic loop of ii-tool's `get -t`. */
  method TopicWalk(ix: Index, mi: Info) returns (topic: Str)
    requires Ends(ix, mi)
    ensures topic == TopicOf(ix, mi)
  {
    topic := mi.id;
    var p := Some(mi);
    while p.Some?
      invariant p.Some? ==> Ends(ix, p.value)
                            && PlainWalk(ix, p.value, mi.echo, topic) == TopicOf(ix, mi)
      invariant p.None? ==> topic == TopicOf(ix, mi)
      decreases p.Some?, if p.Some? then Height(ix, p.value) else 0
    {
      if Self(p.value) { break; }
      if p.value.echo == mi.echo { topic := p.value.id; }
      if Parent(ix, p.value).Some? { ParentLower(ix, p.value); }
      p := Parent(ix, p.value);
    }
  }

  // ---------------------------------------------------------------- the line of a message

  /** The messages of `echo` on the chain from `p`, up to and excluding a self-reply. */
  ghost function Line(ix: Index, p: Info, echo: Str): seq<Info>
    requires Ends(ix, p)
    decreases Height(ix, p)
  {
    if Self(p) then []
    else
      (if p.echo == echo then [p] else [])
      + if Parent(ix, p).None? then []
        else
          ParentLower(ix, p);
          Line(ix, Parent(ix, p).value, echo)
  }

  lemma {:induction false} WalkIsLast(ix: Index, p: Info, echo: Str, topic: Str)
    requires Ends(ix, p)
    ensures var l := Line(ix, p, echo);
            PlainWalk(ix, p, echo, topic) == if l == [] then topic else l[|l| - 1].id
    decreases Height(ix, p)
  {
    hide Ends, Height, Parent, Line;
    if Self(p) {
      SelfLine(ix, p, echo);
    } else {
      LineUnfold(ix, p, echo);
      if Parent(ix, p).Some? {
        ParentLower(ix, p);
        WalkIsLast(ix, Parent(ix, p).value, echo, if p.echo == echo then p.id else topic);
      }
    }
  }

  lemma SelfLine(ix: Index, p: Info, echo: Str)
    requires Ends(ix, p) && Self(p)
    ensures Line(ix, p, echo) == []
  {
  }

  ghost predicate Onward(ix: Index, echo: Str, p: Info, x: Info) {
    x.echo == echo && !Self(x) && Ends(ix, x) && (Listed(ix, p) ==> Listed(ix, x))
  }

  /** Every member of a line is of the echo, is no self-reply, and has the rest as its own line. */
  lemma {:induction false} LineSuffix(ix: Index, p: Info, echo: Str, i: nat)
    requires Sound(ix) && Ends(ix, p) && i < |Line(ix, p, echo)|
    ensures Onward(ix, echo, p, Line(ix, p, echo)[i])
    ensures Line(ix, Line(ix, p, echo)[i], echo) == Line(ix, p, echo)[i..]
    ensures Height(ix, Line(ix, p, echo)[i]) <= Height(ix, p)
    decreases Height(ix, p)
  {
    var l := Line(ix, p, echo);
    if p.echo == echo && i == 0 {
      assert l[0] == p;
    } else {
      var q := Parent(ix, p).value;
      ParentLower(ix, p);
      var d := if p.echo == echo then 1 else 0;
      assert l[d..] == Line(ix, q, echo);
      LineSuffix(ix, q, echo, i - d);
      assert l[d..][i - d..] == l[i..];
    }
  }

  lemma LineTopic(ix: Index, m: Info, i: nat)
    requires Sound(ix) && Ends(ix, m) && i < |Line(ix, m, m.echo)|
    ensures var l := Line(ix, m, m.echo);
            Onward(ix, m.echo, m, l[i]) && TopicOf(ix, l[i]) == l[|l| - 1].id == TopicOf(ix, m)
  {
    var l := Line(ix, m, m.echo);
    LineSuffix(ix, m, m.echo, i);
    WalkIsLast(ix, m, m.echo, m.id);
    WalkIsLast(ix, l[i], m.echo, l[i].id);
  }

  lemma LineStarts(ix: Index, m: Info)
    requires Ends(ix, m)
    ensures if Self(m) then Line(ix, m, m.echo) == [] && TopicOf(ix, m) == m.id
            else |Line(ix, m, m.echo)| > 0 && Line(ix, m, m.echo)[0] == m
  {
  }

  /** The topic of a message is a listed message of its own topic, of the same echo. */
  lemma TopicIsHead(ix: Index, m: Info)
    requires Sound(ix) && Ends(ix, m) && Listed(ix, m) && !Self(m)
    ensures var k := TopicOf(ix, m);
            k in ix.hash && !Self(ix.hash[k]) && ix.hash[k].echo == m.echo
            && Ends(ix, ix.hash[k]) && TopicOf(ix, ix.hash[k]) == k
  {
    LineStarts(ix, m);
    LineTopic(ix, m, |Line(ix, m, m.echo)| - 1);
  }

  // ---------------------------------------------------------------- grouping

  /** Ids are never empty and never the mark itself. */
  ghost predicate PlainIds(ix: Index) { [] !in ix.hash && VISITED !in ix.hash }

  ghost predicate WellFormed(ix: Index) { Sound(ix) && Acyclic(ix) && PlainIds(ix) }

  ghost function TopicAt(ix: Index, id: Str): Str
    requires WellFormed(ix) && id in ix.hash
  {
    TopicOf(ix, ix.hash[id])
  }

  /** A cached topic is never a leftover mark: it is the topic of the plain walk. */
  ghost predicate CacheOk(ix: Index, c: Cache)
    requires WellFormed(ix)
  {
    forall id :: Cached(c, id) != [] ==>
      id in ix.hash && !Self(ix.hash[id]) && Cached(c, id) == TopicAt(ix, id)
  }

  // ---------------------------------------------------------------- the marking walk

  /** Where the walk stands: at a message, with what it has collected and marked; or at its end. */
  datatype Going = Walking(p: Info, l: seq<Info>, d: Cache) | Halted(l: seq<Info>, d: Cache)

  /** One turn of the loop. */
  function Turn(ix: Index, echo: Str, w: Going): Going {
    match w
    case Halted(_, _) => w
    case Walking(p, l, d) =>
      if Self(p) || Cached(d, p.id) == VISITED then Halted(l, d[p.id := []])
      else
        var l' := if echo == p.echo then l + [p] else l;
        var d' := if echo == p.echo && Cached(d, p.id) == [] then d[p.id := VISITED] else d;
        match Parent(ix, p)
        case None => Halted(l', d')
        case Some(q) => Walking(q, l', d')
  }

  function Turns(ix: Index, m: Info, c: Cache, n: nat): Going {
    if n == 0 then Walking(m, [], c) else Turn(ix, m.echo, Turns(ix, m, c, n - 1))
  }

  ghost predicate Halts(ix: Index, m: Info, c: Cache) { exists n: nat :: Turns(ix, m, c, n).Halted? }

  /** What a walk that halts leaves. */
  ghost function Walked(ix: Index, m: Info, c: Cache): (w: Going)
    requires Halts(ix, m, c)
    ensures w.Halted?
  {
    var n: nat :| Turns(ix, m, c, n).Halted?;
    Turns(ix, m, c, n)
  }

  lemma {:induction false} TurnsStay(ix: Index, m: Info, c: Cache, n: nat, k: nat)
    requires Turns(ix, m, c, n).Halted? && n <= k
    ensures Turns(ix, m, c, k) == Turns(ix, m, c, n)
  {
    if n < k { TurnsStay(ix, m, c, n, k - 1); }
  }

  lemma WalkedIs(ix: Index, m: Info, c: Cache, n: nat)
    requires Turns(ix, m, c, n).Halted?
    ensures Halts(ix, m, c) && Walked(ix, m, c) == Turns(ix, m, c, n)
  {
    hide Turns;
    var k: nat :| Turns(ix, m, c, k).Halted? && Walked(ix, m, c) == Turns(ix, m, c, k);
    TurnsStay(ix, m, c, if n < k then n else k, if n < k then k else n);
  }

  /** Walking up from m, collecting messages of its echo and marking those without a topic. */
  method Walk(ix: Index, m: Info, c: Cache) returns (l: seq<Info>, d: Cache)
    requires Halts(ix, m, c)
    ensures Walked(ix, m, c) == Halted(l, d)
  {
    hide Parent, Turns;
    l, d := [], c;
    var p := Some(m);
    ghost var end: nat :| Turns(ix, m, c, end).Halted?;
    ghost var n: nat := 0;
    FirstTurn(ix, m, c);
    while p.Some?
      invariant Turns(ix, m, c, n) == if p.Some? then Walking(p.value, l, d) else Halted(l, d)
      decreases if p.Some? then 1 + (if n < end then end - n else 0) else 0
    {
      var q := p.value;
      if end <= n { TurnsStay(ix, m, c, end, n); }
      NextTurn(ix, m, c, n);
      n := n + 1;
      if q.repto == q.id || Cached(d, q.id) == VISITED {
        d := d[q.id := []];
        break;
      }
      if m.echo != q.echo {
        p := Parent(ix, q);
        continue;
      }
      if Cached(d, q.id) == [] { d := d[q.id := VISITED]; }
      l := l + [q];
      p := Parent(ix, q);
    }
    WalkedIs(ix, m, c, n);
  }

  lemma FirstTurn(ix: Index, m: Info, c: Cache)
    ensures Turns(ix, m, c, 0) == Walking(m, [], c)
  {
  }

  lemma NextTurn(ix: Index, m: Info, c: Cache, n: nat)
    ensures Turns(ix, m, c, n + 1) == Turn(ix, m.echo, Turns(ix, m, c, n))
  {
  }

  /** The walk from m stands at p, having collected the part l of m's line. */
  ghost predicate WalkAt(ix: Index, m: Info, l: seq<Info>, p: Info) {
    Ends(ix, m) && Listed(ix, p) && Ends(ix, p) && Above(ix, l, p)
    && l + Line(ix, p, m.echo) == Line(ix, m, m.echo)
  }

  lemma NoIds()
    ensures forall id :: !HasId([], id)
  {
  }

  lemma WalkStart(ix: Index, m: Info)
    requires WellFormed(ix) && Listed(ix, m)
    ensures WalkAt(ix, m, [], m)
  {
    assert [] + Line(ix, m, m.echo) == Line(ix, m, m.echo);
  }

  lemma WalkStops(ix: Index, m: Info, l: seq<Info>, p: Info)
    requires WalkAt(ix, m, l, p) && Self(p)
    ensures l == Line(ix, m, m.echo)
  {
    assert Line(ix, p, m.echo) == [];
    assert l + [] == l;
  }

  lemma WalkUp(ix: Index, m: Info, l: seq<Info>, p: Info)
    requires WellFormed(ix) && WalkAt(ix, m, l, p) && !Self(p)
    ensures var l' := if m.echo == p.echo then l + [p] else l;
            match Parent(ix, p)
            case None => l' == Line(ix, m, m.echo)
            case Some(q) => WalkAt(ix, m, l', q) && Height(ix, q) < Height(ix, p)
  {
    hide Height, Line, EndsIn, Ends, PlainIds;
    LineUnfold(ix, p, m.echo);
    var here := if m.echo == p.echo then [p] else [];
    var l' := if m.echo == p.echo then l + [p] else l;
    assert l' == l + here;
    if Parent(ix, p).Some? {
      var q := Parent(ix, p).value;
      ParentLower(ix, p);
      Assoc(l, here, Line(ix, q, m.echo));
      AboveUp(ix, l, p, q, l');
    } else {
      assert here + [] == here;
    }
  }

  lemma AboveUp(ix: Index, l: seq<Info>, p: Info, q: Info, l': seq<Info>)
    requires Ends(ix, p) && Ends(ix, q) && Listed(ix, p) && Above(ix, l, p)
    requires Height(ix, q) < Height(ix, p) && (l' == l || l' == l + [p])
    ensures Above(ix, l', q)
  {
    hide Height, Ends, Listed;
  }

  function Marked(c: Cache, l: seq<Info>, id: Str): Str {
    if Cached(c, id) == [] && HasId(l, id) then VISITED else Cached(c, id)
  }

  predicate HasId(l: seq<Info>, id: Str) { exists i :: 0 <= i < |l| && l[i].id == id }

  lemma MarkSnoc(c: Cache, l: seq<Info>, q: Info)
    ensures forall id :: HasId(l + [q], id) <==> HasId(l, id) || q.id == id
  {
    forall id ensures HasId(l + [q], id) <==> HasId(l, id) || q.id == id {
      assert (l + [q])[|l|] == q;
      if HasId(l, id) {
        var i :| 0 <= i < |l| && l[i].id == id;
        assert (l + [q])[i].id == id;
      }
    }
  }

  /** Everything collected so far is higher up the measure than `p`. */
  ghost predicate Above(ix: Index, l: seq<Info>, p: Info)
    requires Ends(ix, p)
  {
    forall i :: 0 <= i < |l| ==> Listed(ix, l[i]) && Ends(ix, l[i]) && Height(ix, l[i]) > Height(ix, p)
  }

  /** On an acyclic graph the walk never meets its own mark. */
  lemma NotYetMarked(ix: Index, c: Cache, l: seq<Info>, p: Info)
    requires WellFormed(ix) && Listed(ix, p) && Ends(ix, p) && CacheOk(ix, c) && Above(ix, l, p)
    ensures !HasId(l, p.id) && Marked(c, l, p.id) == Cached(c, p.id) != VISITED
    ensures Self(p) ==> Cached(c, p.id) == []
  {
    if Cached(c, p.id) == VISITED {
      WellFormedTopic(ix, p);
    }
  }

  lemma WellFormedTopic(ix: Index, p: Info)
    requires WellFormed(ix) && Listed(ix, p) && !Self(p)
    ensures Ends(ix, p) && TopicOf(ix, p) in ix.hash && TopicOf(ix, p) != VISITED
  {
    TopicIsHead(ix, p);
  }

  lemma LineUnfold(ix: Index, p: Info, echo: Str)
    requires Ends(ix, p) && !Self(p)
    ensures Parent(ix, p).Some? ==> Ends(ix, Parent(ix, p).value)
    ensures Line(ix, p, echo)
            == (if p.echo == echo then [p] else [])
               + if Parent(ix, p).None? then [] else Line(ix, Parent(ix, p).value, echo)
  {
    if Parent(ix, p).Some? { ParentLower(ix, p); }
  }

  /** Without reply cycles the walk halts, having collected the line and marked its members. */
  lemma WalkAcyclic(ix: Index, m: Info, c: Cache)
    requires WellFormed(ix) && Listed(ix, m) && CacheOk(ix, c)
    ensures Halts(ix, m, c) && Walked(ix, m, c).l == Line(ix, m, m.echo)
    ensures forall id :: Cached(Walked(ix, m, c).d, id) == Marked(c, Line(ix, m, m.echo), id)
  {
    hide WellFormed, CacheOk, Listed, Line, HasId, Turns;
    WalkStart(ix, m);
    NoIds();
    FirstTurn(ix, m, c);
    WalkOn(ix, m, c, 0);
  }

  /** From turn n on. */
  lemma {:induction false} WalkOn(ix: Index, m: Info, c: Cache, n: nat)
    requires WellFormed(ix) && Listed(ix, m) && CacheOk(ix, c)
    requires var w := Turns(ix, m, c, n);
             w.Walking? && WalkAt(ix, m, w.l, w.p) && forall id :: Cached(w.d, id) == Marked(c, w.l, id)
    ensures Halts(ix, m, c) && Walked(ix, m, c).l == Line(ix, m, m.echo)
    ensures forall id :: Cached(Walked(ix, m, c).d, id) == Marked(c, Line(ix, m, m.echo), id)
    decreases Height(ix, Turns(ix, m, c, n).p)
  {
    hide Turns, Line, Height, Ends, WellFormed, CacheOk, Listed, Above, HasId, Parent, Walked;
    var w := Turns(ix, m, c, n);
    var q := w.p;
    NextTurn(ix, m, c, n);
    NotYetMarked(ix, c, w.l, q);
    assert Cached(w.d, q.id) == Marked(c, w.l, q.id);
    if Self(q) {
      WalkStops(ix, m, w.l, q);
      WalkedIs(ix, m, c, n + 1);
    } else {
      WalkUp(ix, m, w.l, q);
      MarkSnoc(c, w.l, q);
      MarkedOn(ix, m, c, w);
      if Parent(ix, q).None? {
        WalkedIs(ix, m, c, n + 1);
      } else {
        WalkOn(ix, m, c, n + 1);
      }
    }
  }

  lemma MarkedOn(ix: Index, m: Info, c: Cache, w: Going)
    requires w.Walking? && forall id :: Cached(w.d, id) == Marked(c, w.l, id)
    requires !Self(w.p) && Cached(w.d, w.p.id) != VISITED
    ensures var v := Turn(ix, m.echo, w); forall id :: Cached(v.d, id) == Marked(c, v.l, id)
  {
    hide Parent, HasId;
    MarkSnoc(c, w.l, w.p);
    var v := Turn(ix, m.echo, w);
    forall id ensures Cached(v.d, id) == Marked(c, v.l, id) {
      assert Cached(w.d, id) == Marked(c, w.l, id);
      assert Cached(w.d, w.p.id) == Marked(c, w.l, w.p.id);
    }
  }

  type Groups = map<Str, seq<Str>>

  ghost predicate MemberOf(ix: Index, x: Str, k: Str)
    requires WellFormed(ix)
  {
    x in ix.hash && !Self(ix.hash[x]) && TopicAt(ix, x) == k
  }

  /** One topic: its head first, nothing twice, and only messages of that topic. */
  ghost predicate GroupOk(ix: Index, k: Str, g: seq<Str>)
    requires WellFormed(ix)
  {
    |g| >= 1 && g[0] == k && T.NoDups(g) && forall i :: 0 <= i < |g| ==> MemberOf(ix, g[i], k)
  }

  ghost predicate Grouped(ix: Index, topics: Groups)
    requires WellFormed(ix)
  {
    forall k :: k in topics ==> GroupOk(ix, k, topics[k])
  }

  /** `intopic` knows exactly the members that are not heads. */
  ghost predicate Tracked(topics: Groups, intopic: map<Str, Str>) {
    && (forall k, x :: k in topics && x in topics[k] && x != k ==> x in intopic && intopic[x] == k)
    && (forall x :: x in intopic ==>
          intopic[x] in topics && x in topics[intopic[x]] && x != intopic[x])
  }

  ghost predicate Settled(c: Cache, intopic: map<Str, Str>) {
    forall x :: x in intopic ==> Cached(c, x) == intopic[x]
  }

  /** Like CacheOk, but the messages of `pend` may still carry the mark. */
  ghost predicate CacheMid(ix: Index, c: Cache, pend: seq<Info>)
    requires WellFormed(ix)
  {
    forall id :: Cached(c, id) != [] ==>
      id in ix.hash && !Self(ix.hash[id])
      && (Cached(c, id) == TopicAt(ix, id) || (Cached(c, id) == VISITED && HasId(pend, id)))
  }

  ghost predicate State(ix: Index, topics: Groups, intopic: map<Str, Str>, c: Cache, pend: seq<Info>)
    requires WellFormed(ix)
  {
    Grouped(ix, topics) && Tracked(topics, intopic) && Settled(c, intopic) && CacheMid(ix, c, pend)
  }

  function PlaceHead(topics: Groups, k: Str): Groups {
    if k in topics then topics else topics[k := [k]]
  }

  lemma HeadPlaced(ix: Index, topics: Groups, intopic: map<Str, Str>, k: Str)
    requires WellFormed(ix) && Grouped(ix, topics) && Tracked(topics, intopic) && MemberOf(ix, k, k)
    ensures Grouped(ix, PlaceHead(topics, k)) && Tracked(PlaceHead(topics, k), intopic)
  {
    hide TopicAt, WellFormed;
  }

  lemma MemberPlaced(ix: Index, topics: Groups, intopic: map<Str, Str>, k: Str, x: Str)
    requires WellFormed(ix) && Grouped(ix, topics) && Tracked(topics, intopic)
    requires k in topics && MemberOf(ix, x, k) && x != k && x !in intopic
    ensures Grouped(ix, topics[k := topics[k] + [x]])
    ensures Tracked(topics[k := topics[k] + [x]], intopic[x := k])
  {
    hide TopicAt, WellFormed;
    var g := topics[k];
    assert x !in g;
    assert forall y :: y in g + [x] <==> y in g || y == x;
    MemberFits(ix, k, g, x);
  }

  lemma MemberFits(ix: Index, k: Str, g: seq<Str>, x: Str)
    requires WellFormed(ix) && GroupOk(ix, k, g) && MemberOf(ix, x, k) && x !in g
    ensures GroupOk(ix, k, g + [x])
  {
    hide MemberOf, WellFormed;
  }

  /** What GetTopics keeps while it goes through its input. */
  datatype Book = Book(topics: Groups, intopic: map<Str, Str>, c: Cache)

  /** One message filed under the head `k`. */
  function FileOne(x: Str, k: Str, b: Book): Book
    requires k in b.topics
  {
    if x == k then b.(c := b.c[x := k])
    else if x in b.intopic then b
    else Book(b.topics[k := b.topics[k] + [x]], b.intopic[x := k], b.c[x := k])
  }

  function FileAll(s: seq<Info>, k: Str, b: Book): (r: Book)
    requires k in b.topics
    ensures r.topics.Keys == b.topics.Keys
  {
    if s == [] then b else FileOne(s[|s| - 1].id, k, FileAll(s[..|s| - 1], k, b))
  }

  /** The second inner loop of GetTopics. */
  method Place(s: seq<Info>, k: Str, topics0: Groups, intopic0: map<Str, Str>, c0: Cache)
    returns (topics: Groups, intopic: map<Str, Str>, c: Cache)
    requires k in topics0
    ensures Book(topics, intopic, c) == FileAll(s, k, Book(topics0, intopic0, c0))
  {
    topics, intopic, c := topics0, intopic0, c0;
    for n := 0 to |s|
      invariant Book(topics, intopic, c) == FileAll(s[..n], k, Book(topics0, intopic0, c0))
    {
      assert s[..n + 1][..n] == s[..n];
      var x := s[n].id;
      if x == k {
        c := c[x := k];
        continue;
      }
      if x in intopic { continue; }
      topics := topics[k := topics[k] + [x]];
      intopic := intopic[x := k];
      c := c[x := k];
    }
    assert s[..|s|] == s;
  }

  /** Without reply cycles, after n members: only the rest may still carry the mark. */
  ghost predicate Midway(ix: Index, s: seq<Info>, n: nat, k: Str, b0: Book, b: Book)
    requires WellFormed(ix) && k in b0.topics && n <= |s|
  {
    State(ix, b.topics, b.intopic, b.c, s[n..]) && k in b.topics
    && b0.topics[k] <= b.topics[k]
    && (forall j :: j in b0.topics && j != k ==> j in b.topics && b.topics[j] == b0.topics[j])
    && (forall x :: x in b.topics[k] ==> x in b0.topics[k] || HasId(s, x))
    && (forall i :: 0 <= i < n ==> s[i].id in b.topics[k] && Cached(b.c, s[i].id) == k)
    && (forall id :: Cached(b0.c, id) != [] ==> Cached(b.c, id) != [])
  }

  lemma MidwayStep(ix: Index, s: seq<Info>, n: nat, k: Str, b0: Book, b: Book)
    requires WellFormed(ix) && k in b0.topics && n < |s|
    requires Midway(ix, s, n, k, b0, b) && MemberOf(ix, s[n].id, k)
    ensures Midway(ix, s, n + 1, k, b0, FileOne(s[n].id, k, b))
  {
    hide TopicAt, WellFormed, MemberOf, HasId, State;
    var x := s[n].id;
    StateStep(ix, s, n, k, b);
    FileOneIn(ix, s, n, k, b);
  }

  lemma FileOneIn(ix: Index, s: seq<Info>, n: nat, k: Str, b: Book)
    requires WellFormed(ix) && k in b.topics && n < |s|
    requires State(ix, b.topics, b.intopic, b.c, s[n..]) && MemberOf(ix, s[n].id, k)
    ensures var r := FileOne(s[n].id, k, b);
            s[n].id in r.topics[k] && Cached(r.c, s[n].id) == k && HasId(s, s[n].id) && k != []
  {
    hide TopicAt, WellFormed, MemberOf, HasId, Grouped, Tracked, CacheMid, Self;
    TailStep(ix, s, n, b.c, k);
    InTopicIs(ix, b.topics, b.intopic, s[n].id, k);
  }

  lemma StateStep(ix: Index, s: seq<Info>, n: nat, k: Str, b: Book)
    requires WellFormed(ix) && k in b.topics && n < |s|
    requires State(ix, b.topics, b.intopic, b.c, s[n..]) && MemberOf(ix, s[n].id, k)
    ensures var r := FileOne(s[n].id, k, b); State(ix, r.topics, r.intopic, r.c, s[n + 1..])
  {
    hide TopicAt, WellFormed, Grouped, Tracked, MemberOf, HasId, CacheMid, Self;
    var x := s[n].id;
    TailStep(ix, s, n, b.c, k);
    InTopicIs(ix, b.topics, b.intopic, x, k);
    if x != k && x !in b.intopic {
      MemberPlaced(ix, b.topics, b.intopic, k, x);
    }
  }

  lemma {:induction false} FiledSoFar(ix: Index, s: seq<Info>, n: nat, k: Str, b0: Book)
    requires WellFormed(ix) && State(ix, b0.topics, b0.intopic, b0.c, s) && k in b0.topics && n <= |s|
    requires forall i :: 0 <= i < |s| ==> MemberOf(ix, s[i].id, k)
    ensures Midway(ix, s, n, k, b0, FileAll(s[..n], k, b0))
  {
    hide Midway, WellFormed, MemberOf, FileOne, State;
    if n == 0 {
      WholeTail(s);
      MidwayStart(ix, s, k, b0);
    } else {
      FiledSoFar(ix, s, n - 1, k, b0);
      assert s[..n][..n - 1] == s[..n - 1];
      MidwayStep(ix, s, n - 1, k, b0, FileAll(s[..n - 1], k, b0));
    }
  }

  lemma MidwayStart(ix: Index, s: seq<Info>, k: Str, b0: Book)
    requires WellFormed(ix) && State(ix, b0.topics, b0.intopic, b0.c, s) && k in b0.topics
    ensures Midway(ix, s, 0, k, b0, b0)
  {
    hide WellFormed, State;
    WholeTail(s);
  }

  lemma WholeTail(s: seq<Info>)
    ensures s[0..] == s
  {
  }

  /** Giving s[n] its topic leaves marks only on the rest. */
  lemma TailStep(ix: Index, s: seq<Info>, n: nat, c: Cache, k: Str)
    requires WellFormed(ix) && n < |s| && CacheMid(ix, c, s[n..]) && MemberOf(ix, s[n].id, k)
    ensures CacheMid(ix, c[s[n].id := k], s[n + 1..])
    ensures Cached(c, s[n].id) == k ==> CacheMid(ix, c, s[n + 1..])
    ensures HasId(s, s[n].id) && k != []
  {
    hide WellFormed, TopicAt;
    TopicAtIsId(ix, s[n].id);
    forall id | HasId(s[n..], id) ensures id == s[n].id || HasId(s[n + 1..], id) {
      var i :| 0 <= i < |s[n..]| && s[n..][i].id == id;
      if i > 0 { assert s[n + 1..][i - 1].id == id; }
    }
  }

  lemma TopicAtIsId(ix: Index, id: Str)
    requires WellFormed(ix) && id in ix.hash && !Self(ix.hash[id])
    ensures MemberOf(ix, TopicAt(ix, id), TopicAt(ix, id))
    ensures TopicAt(ix, id) != [] && TopicAt(ix, id) != VISITED
  {
    TopicIsHead(ix, ix.hash[id]);
  }

  lemma InTopicIs(ix: Index, topics: Groups, intopic: map<Str, Str>, x: Str, k: Str)
    requires WellFormed(ix) && Grouped(ix, topics) && Tracked(topics, intopic) && MemberOf(ix, x, k)
    ensures x in intopic ==> intopic[x] == k && k in topics && x in topics[k] && x != k
    ensures k in topics ==> k in topics[k]
    ensures k in intopic ==> intopic[k] != k
    ensures x == k ==> x !in intopic
  {
    hide WellFormed, TopicAt;
    if x in intopic {
      var g := topics[intopic[x]];
      assert GroupOk(ix, intopic[x], g);
      var i :| 0 <= i < |g| && g[i] == x;
      assert MemberOf(ix, g[i], intopic[x]);
    }
    if k in topics {
      assert GroupOk(ix, k, topics[k]);
    }
  }

  // ---------------------------------------------------------------- stable sort by number

  function InsertByNum(s: seq<Info>, x: Info): seq<Info> {
    if s != [] && x.num < s[|s| - 1].num then InsertByNum(s[..|s| - 1], x) + [s[|s| - 1]] else s + [x]
  }

  /** sort.SliceStable by Num. */
  function SortByNum(s: seq<Info>): seq<Info> {
    if s == [] then [] else InsertByNum(SortByNum(s[..|s| - 1]), s[|s| - 1])
  }

  ghost predicate SortedByNum(s: seq<Info>) { forall i, j :: 0 <= i < j < |s| ==> s[i].num <= s[j].num }

  lemma {:induction false} InsertPermutes(s: seq<Info>, x: Info)
    ensures multiset(InsertByNum(s, x)) == multiset(s + [x])
  {
    if s != [] && x.num < s[|s| - 1].num {
      InsertPermutes(s[..|s| - 1], x);
      assert s == s[..|s| - 1] + [s[|s| - 1]];
    }
  }

  ghost predicate Below(s: seq<Info>, b: nat) { forall i :: 0 <= i < |s| ==> s[i].num <= b }

  lemma {:induction false} InsertSorts(s: seq<Info>, x: Info, b: nat)
    requires SortedByNum(s) && Below(s, b) && x.num <= b
    ensures SortedByNum(InsertByNum(s, x)) && Below(InsertByNum(s, x), b)
  {
    if s != [] && x.num < s[|s| - 1].num {
      InsertSorts(s[..|s| - 1], x, s[|s| - 1].num);
    }
  }

  lemma {:induction false} SortSorts(s: seq<Info>) returns (b: nat)
    ensures SortedByNum(SortByNum(s)) && Below(SortByNum(s), b)
  {
    b := 0;
    if s != [] {
      b := SortSorts(s[..|s| - 1]);
      b := if b < s[|s| - 1].num then s[|s| - 1].num else b;
      InsertSorts(SortByNum(s[..|s| - 1]), s[|s| - 1], b);
    }
  }

  lemma {:induction false} SortPermutes(s: seq<Info>)
    ensures multiset(SortByNum(s)) == multiset(s)
  {
    if s != [] {
      var init, last := s[..|s| - 1], s[|s| - 1];
      SortPermutes(init);
      InsertPermutes(SortByNum(init), last);
      assert s == init + [last];
    }
  }

  lemma SamePermutation(r: seq<Info>, s: seq<Info>, i: nat)
    requires multiset(r) == multiset(s) && i < |r|
    ensures r[i] in s
  {
    assert r[i] in multiset(r);
  }

  lemma SortKeeps(s: seq<Info>)
    ensures |SortByNum(s)| == |s|
    ensures forall i :: 0 <= i < |s| ==> SortByNum(s)[i] in s
    ensures forall i :: 0 <= i < |s| ==> s[i] in SortByNum(s)
  {
    SortPermutes(s);
    var r := SortByNum(s);
    assert |multiset(r)| == |r| && |multiset(s)| == |s|;
    forall i | 0 <= i < |s| ensures r[i] in s && s[i] in r {
      SamePermutation(r, s, i);
      SamePermutation(s, r, i);
    }
  }

  lemma SortKeepsIds(s: seq<Info>, id: Str)
    ensures HasId(SortByNum(s), id) <==> HasId(s, id)
  {
    SortKeeps(s);
    var r := SortByNum(s);
    if HasId(r, id) {
      var i :| 0 <= i < |r| && r[i].id == id;
      var j :| 0 <= j < |s| && s[j] == r[i];
    }
    if HasId(s, id) {
      var i :| 0 <= i < |s| && s[i].id == id;
      var j :| 0 <= j < |r| && r[j] == s[i];
    }
  }

  // ---------------------------------------------------------------- the whole call

  /** The message is filed under its topic, and its topic is cached. */
  ghost predicate Filed(ix: Index, m: Info, topics: Groups, c: Cache)
    requires WellFormed(ix)
  {
    Ends(ix, m) && !Self(m) ==>
      var k := TopicOf(ix, m);
      k in topics && m.id in topics[k] && Cached(c, m.id) == k
  }

  ghost predicate AllFiled(ix: Index, mi: seq<Info>, topics: Groups, c: Cache)
    requires WellFormed(ix)
  {
    forall j :: 0 <= j < |mi| ==> Filed(ix, mi[j], topics, c)
  }

  /** x stands in topic k because it lies on the line of some input message of that topic. */
  ghost predicate Due(ix: Index, mi: seq<Info>, k: Str, x: Str) {
    exists j :: 0 <= j < |mi| && DueTo(ix, mi[j], k, x)
  }

  ghost predicate DueTo(ix: Index, m: Info, k: Str, x: Str) {
    Ends(ix, m) && !Self(m) && TopicOf(ix, m) == k && HasId(Line(ix, m, m.echo), x)
  }

  ghost predicate AllDue(ix: Index, mi: seq<Info>, topics: Groups) {
    forall k, x :: k in topics && x in topics[k] ==> Due(ix, mi, k, x)
  }

  ghost predicate AllListed(ix: Index, mi: seq<Info>) {
    forall j :: 0 <= j < |mi| ==> Listed(ix, mi[j])
  }

  /** The state between two input messages, `done` being those already handled. */
  ghost predicate Stage(ix: Index, done: seq<Info>, topics: Groups, intopic: map<Str, Str>, c: Cache)
    requires WellFormed(ix)
  {
    State(ix, topics, intopic, c, []) && AllFiled(ix, done, topics, c) && AllDue(ix, done, topics)
  }

  lemma StageStart(ix: Index, c: Cache)
    requires WellFormed(ix) && CacheOk(ix, c)
    ensures Stage(ix, [], map[], map[], c)
  {
    hide TopicAt, WellFormed;
  }

  lemma StageCache(ix: Index, done: seq<Info>, topics: Groups, intopic: map<Str, Str>, c: Cache)
    requires WellFormed(ix) && Stage(ix, done, topics, intopic, c)
    ensures CacheOk(ix, c)
  {
    hide TopicAt, WellFormed, Grouped, Tracked;
    NoIds();
  }

  ghost predicate Grew(topics: Groups, next: Groups) {
    forall k :: k in topics ==> k in next && forall x :: x in topics[k] ==> x in next[k]
  }

  ghost predicate CacheGrew(c: Cache, d: Cache) {
    forall id :: Cached(c, id) != [] ==> Cached(d, id) == Cached(c, id)
  }

  lemma FiledGrows(ix: Index, mi: seq<Info>, topics: Groups, c: Cache, next: Groups, d: Cache)
    requires WellFormed(ix) && AllFiled(ix, mi, topics, c) && AllListed(ix, mi)
    requires Grew(topics, next) && CacheGrew(c, d)
    ensures AllFiled(ix, mi, next, d)
  {
    hide WellFormed, Ends;
    forall j | 0 <= j < |mi| ensures Filed(ix, mi[j], next, d) {
      assert Filed(ix, mi[j], topics, c);
      if Ends(ix, mi[j]) && !Self(mi[j]) {
        TopicNotEmpty(ix, mi[j]);
      }
    }
  }

  lemma TopicNotEmpty(ix: Index, m: Info)
    requires WellFormed(ix) && Listed(ix, m) && !Self(m)
    ensures Ends(ix, m) && TopicOf(ix, m) != []
    ensures MemberOf(ix, m.id, TopicOf(ix, m)) && MemberOf(ix, TopicOf(ix, m), TopicOf(ix, m))
  {
    TopicIsHead(ix, m);
  }

  lemma DueMore(ix: Index, mi: seq<Info>, m: Info, k: Str, x: Str)
    requires Due(ix, mi, k, x) || DueTo(ix, m, k, x)
    ensures Due(ix, mi + [m], k, x)
  {
    hide DueTo;
    if Due(ix, mi, k, x) {
      var j :| 0 <= j < |mi| && DueTo(ix, mi[j], k, x);
      assert DueTo(ix, (mi + [m])[j], k, x);
    } else {
      assert DueTo(ix, (mi + [m])[|mi|], k, x);
    }
  }

  lemma DueGrows(ix: Index, done: seq<Info>, m: Info, topics: Groups, next: Groups)
    requires AllDue(ix, done, topics)
    requires forall k, x :: k in next && x in next[k] ==>
               (k in topics && x in topics[k]) || DueTo(ix, m, k, x)
    ensures AllDue(ix, done + [m], next)
  {
    hide DueTo, Due;
    forall k, x | k in next && x in next[k] ensures Due(ix, done + [m], k, x) {
      DueMore(ix, done, m, k, x);
    }
  }

  lemma FiledSnoc(ix: Index, done: seq<Info>, m: Info, topics: Groups, c: Cache)
    requires WellFormed(ix) && AllFiled(ix, done, topics, c) && Filed(ix, m, topics, c)
    ensures AllFiled(ix, done + [m], topics, c)
  {
    hide Filed;
  }

  /** A non-self-reply lies on its own line, and so does its topic. */
  lemma OwnLine(ix: Index, m: Info)
    requires WellFormed(ix) && Listed(ix, m) && !Self(m)
    ensures Ends(ix, m) && DueTo(ix, m, TopicOf(ix, m), m.id) && DueTo(ix, m, TopicOf(ix, m), TopicOf(ix, m))
  {
    LineStarts(ix, m);
    var l := Line(ix, m, m.echo);
    LineTopic(ix, m, |l| - 1);
    assert l[0].id == m.id;
  }

  /** A message met before in this call is already filed. */
  lemma StageSkip(ix: Index, done: seq<Info>, m: Info, topics: Groups, intopic: map<Str, Str>, c: Cache)
    requires WellFormed(ix) && Stage(ix, done, topics, intopic, c) && Listed(ix, m)
    requires m.id in intopic
    ensures Stage(ix, done + [m], topics, intopic, c)
  {
    hide WellFormed, TopicAt, Ends, DueTo, Filed;
    DueGrows(ix, done, m, topics, topics);
    assert Filed(ix, m, topics, c) by { SkipFiled(ix, m, topics, intopic, c); }
    FiledSnoc(ix, done, m, topics, c);
  }

  lemma SkipFiled(ix: Index, m: Info, topics: Groups, intopic: map<Str, Str>, c: Cache)
    requires WellFormed(ix) && Grouped(ix, topics) && Tracked(topics, intopic) && Settled(c, intopic)
    requires Listed(ix, m) && m.id in intopic
    ensures Filed(ix, m, topics, c)
  {
    if Ends(ix, m) && !Self(m) {
      TopicNotEmpty(ix, m);
      InTopicIs(ix, topics, intopic, m.id, TopicOf(ix, m));
    }
  }

  /** The fast path: a cached message goes straight under its cached topic. */
  lemma StageFast(ix: Index, done: seq<Info>, m: Info, topics: Groups, intopic: map<Str, Str>, c: Cache)
    requires WellFormed(ix) && Stage(ix, done, topics, intopic, c) && Listed(ix, m) && AllListed(ix, done)
    requires m.id !in intopic && Cached(c, m.id) != []
    ensures var k := Cached(c, m.id);
            var heads := PlaceHead(topics, k);
            k in heads
            && if m.id == k then Stage(ix, done + [m], heads, intopic, c)
               else Stage(ix, done + [m], heads[k := heads[k] + [m.id]], intopic[m.id := k], c)
  {
    hide WellFormed, TopicAt, Ends, DueTo, Filed, AllFiled, AllDue, Grouped, Tracked, MemberOf;
    StageCache(ix, done, topics, intopic, c);
    var k := Cached(c, m.id);
    CachedTopic(ix, m, c);
    HeadPlaced(ix, topics, intopic, k);
    var heads := PlaceHead(topics, k);
    InTopicIs(ix, heads, intopic, k, k);
    if m.id == k {
      FastFiled(ix, done, m, topics, heads, c, k);
    } else {
      MemberPlaced(ix, heads, intopic, k, m.id);
      FastFiled(ix, done, m, topics, heads[k := heads[k] + [m.id]], c, k);
    }
  }

  lemma CachedTopic(ix: Index, m: Info, c: Cache)
    requires WellFormed(ix) && CacheOk(ix, c) && Listed(ix, m) && Cached(c, m.id) != []
    ensures !Self(m) && Ends(ix, m) && TopicOf(ix, m) == Cached(c, m.id)
    ensures MemberOf(ix, m.id, Cached(c, m.id)) && MemberOf(ix, Cached(c, m.id), Cached(c, m.id))
  {
    TopicNotEmpty(ix, m);
  }

  lemma FastFiled(ix: Index, done: seq<Info>, m: Info, topics: Groups, next: Groups, c: Cache, k: Str)
    requires WellFormed(ix) && AllFiled(ix, done, topics, c) && AllDue(ix, done, topics)
    requires Listed(ix, m) && AllListed(ix, done) && !Self(m)
    requires Ends(ix, m) && TopicOf(ix, m) == k == Cached(c, m.id)
    requires next == (if m.id == k then PlaceHead(topics, k)
                      else PlaceHead(topics, k)[k := PlaceHead(topics, k)[k] + [m.id]])
    requires k in next && m.id in next[k]
    ensures AllFiled(ix, done + [m], next, c) && AllDue(ix, done + [m], next)
  {
    hide WellFormed, Ends, DueTo, TopicOf;
    OwnLine(ix, m);
    assert Grew(topics, next);
    FiledGrows(ix, done, topics, c, next, c);
    DueGrows(ix, done, m, topics, next);
    assert m.id in next[k];
    FiledSnoc(ix, done, m, next, c);
  }

  /** A self-reply collects nothing and changes no topic. */
  lemma StageSelf(ix: Index, done: seq<Info>, m: Info, topics: Groups, intopic: map<Str, Str>, c: Cache, d: Cache)
    requires WellFormed(ix) && Stage(ix, done, topics, intopic, c) && Listed(ix, m) && AllListed(ix, done)
    requires Ends(ix, m) && Line(ix, m, m.echo) == []
    requires forall id :: Cached(d, id) == Marked(c, [], id)
    ensures Stage(ix, done + [m], topics, intopic, d)
  {
    hide WellFormed, TopicAt, Ends, DueTo, Grouped, Tracked, AllDue, AllFiled;
    NoIds();
    SelfEmpty(ix, m);
    assert forall id :: Cached(d, id) == Cached(c, id);
    FiledGrows(ix, done, topics, c, topics, d);
    FiledSnoc(ix, done, m, topics, d);
    assert AllDue(ix, done + [m], topics) by {
      hide *;
      SameDue(ix, done, m, topics);
    }
  }

  lemma SameDue(ix: Index, done: seq<Info>, m: Info, topics: Groups)
    requires AllDue(ix, done, topics)
    ensures AllDue(ix, done + [m], topics)
  {
    hide DueTo, Due;
    DueGrows(ix, done, m, topics, topics);
  }

  lemma SelfEmpty(ix: Index, m: Info)
    requires Ends(ix, m)
    ensures Line(ix, m, m.echo) == [] <==> Self(m)
  {
    LineStarts(ix, m);
  }

  /** After a walk that collected `l`, its sorted form can be filed under the head `t`. */
  lemma StageWalked(ix: Index, done: seq<Info>, m: Info, topics: Groups, intopic: map<Str, Str>, c: Cache,
                    l: seq<Info>, d: Cache)
    requires WellFormed(ix) && Stage(ix, done, topics, intopic, c) && Listed(ix, m) && Ends(ix, m)
    requires l == Line(ix, m, m.echo) && l != []
    requires forall id :: Cached(d, id) == Marked(c, l, id)
    ensures var t, s := l[|l| - 1].id, SortByNum(l);
            t == TopicOf(ix, m)
            && t in PlaceHead(topics, t)
            && State(ix, PlaceHead(topics, t), intopic, d, s)
            && forall i :: 0 <= i < |s| ==> MemberOf(ix, s[i].id, t)
  {
    hide WellFormed, TopicAt, Ends, AllDue, AllFiled, Grouped, Tracked, Line, TopicOf, SortByNum, Listed,
         CacheMid, Settled;
    var t := l[|l| - 1].id;
    LineMembers(ix, m);
    LineMembersSorted(ix, l, t);
    HeadPlaced(ix, topics, intopic, t);
    WalkedMid(ix, c, l, d, t);
    WalkedSettled(ix, topics, intopic, c, l, d);
  }

  lemma LineMembersSorted(ix: Index, l: seq<Info>, t: Str)
    requires WellFormed(ix) && forall i :: 0 <= i < |l| ==> MemberOf(ix, l[i].id, t)
    ensures forall i :: 0 <= i < |SortByNum(l)| ==> MemberOf(ix, SortByNum(l)[i].id, t)
  {
    hide WellFormed, MemberOf, SortByNum;
    SortKeeps(l);
    forall i | 0 <= i < |SortByNum(l)| ensures MemberOf(ix, SortByNum(l)[i].id, t) {
      var j :| 0 <= j < |l| && l[j] == SortByNum(l)[i];
    }
  }

  /** The marks a walk leaves are on members of its line. */
  lemma WalkedMid(ix: Index, c: Cache, l: seq<Info>, d: Cache, t: Str)
    requires WellFormed(ix) && CacheMid(ix, c, [])
    requires forall id :: Cached(d, id) == Marked(c, l, id)
    requires forall i :: 0 <= i < |l| ==> MemberOf(ix, l[i].id, t)
    ensures CacheMid(ix, d, SortByNum(l))
  {
    hide WellFormed, TopicAt, SortByNum;
    NoIds();
    forall id | Cached(d, id) != []
      ensures id in ix.hash && !Self(ix.hash[id])
              && (Cached(d, id) == TopicAt(ix, id) || (Cached(d, id) == VISITED && HasId(SortByNum(l), id)))
    {
      assert Cached(d, id) == Marked(c, l, id);
      SortKeepsIds(l, id);
    }
  }

  lemma WalkedSettled(ix: Index, topics: Groups, intopic: map<Str, Str>, c: Cache, l: seq<Info>, d: Cache)
    requires WellFormed(ix) && Grouped(ix, topics) && Tracked(topics, intopic) && Settled(c, intopic)
    requires forall id :: Cached(d, id) == Marked(c, l, id)
    ensures Settled(d, intopic)
  {
    hide WellFormed, Grouped, Tracked, HasId;
    forall x | x in intopic ensures Cached(d, x) == intopic[x] {
      assert Cached(d, x) == Marked(c, l, x);
      IntopicNotEmpty(ix, topics, intopic, x);
    }
  }

  lemma IntopicNotEmpty(ix: Index, topics: Groups, intopic: map<Str, Str>, x: Str)
    requires WellFormed(ix) && Grouped(ix, topics) && Tracked(topics, intopic) && x in intopic
    ensures intopic[x] != []
  {
    var k := intopic[x];
    assert GroupOk(ix, k, topics[k]);
    assert MemberOf(ix, topics[k][0], k);
  }

  lemma LineMembers(ix: Index, m: Info)
    requires WellFormed(ix) && Listed(ix, m) && Ends(ix, m) && Line(ix, m, m.echo) != []
    ensures var l := Line(ix, m, m.echo);
            l[|l| - 1].id == TopicOf(ix, m) && !Self(m)
            && forall i :: 0 <= i < |l| ==> Listed(ix, l[i]) && MemberOf(ix, l[i].id, TopicOf(ix, m))
  {
    LineStarts(ix, m);
    WalkIsLast(ix, m, m.echo, m.id);
    var l := Line(ix, m, m.echo);
    forall i | 0 <= i < |l| ensures Listed(ix, l[i]) && MemberOf(ix, l[i].id, TopicOf(ix, m)) {
      LineTopic(ix, m, i);
    }
  }

  /** Filing the sorted line completes the handling of `m`. */
  lemma StagePlaced(ix: Index, done: seq<Info>, m: Info, topics: Groups, intopic: map<Str, Str>, c: Cache,
                    l: seq<Info>, d: Cache, t: Str, next: Groups, intopic': map<Str, Str>, e: Cache)
    requires WellFormed(ix) && Stage(ix, done, topics, intopic, c) && Listed(ix, m) && AllListed(ix, done)
    requires Ends(ix, m) && l == Line(ix, m, m.echo) && l != [] && t == TopicOf(ix, m)
    requires forall id :: Cached(d, id) == Marked(c, l, id)
    requires State(ix, next, intopic', e, [])
    requires next.Keys == PlaceHead(topics, t).Keys && PlaceHead(topics, t)[t] <= next[t]
    requires forall j :: j in PlaceHead(topics, t) && j != t ==> next[j] == PlaceHead(topics, t)[j]
    requires forall x :: x in next[t] ==> x in PlaceHead(topics, t)[t] || HasId(SortByNum(l), x)
    requires forall i :: 0 <= i < |SortByNum(l)| ==>
               SortByNum(l)[i].id in next[t] && Cached(e, SortByNum(l)[i].id) == t
    requires forall id :: Cached(d, id) != [] ==> Cached(e, id) != []
    ensures Stage(ix, done + [m], next, intopic', e)
  {
    hide WellFormed, TopicAt, Ends, AllFiled, AllDue, Grouped, Tracked, Line, DueTo, MemberOf,
         SortByNum, TopicOf, CacheOk;
    LineMembers(ix, m);
    OwnLine(ix, m);
    StageCache(ix, done, topics, intopic, c);
    assert CacheOk(ix, e) by { MidIsOk(ix, e); }
    CacheNeverChanges(ix, c, d, e, l);
    assert Grew(topics, next);
    FiledGrows(ix, done, topics, c, next, e);
    FirstOfLine(ix, m, l);
    FiledSnoc(ix, done, m, next, e);
    PlacedDue(ix, m, topics, l, t, next);
    DueGrows(ix, done, m, topics, next);
  }

  lemma PlacedDue(ix: Index, m: Info, topics: Groups, l: seq<Info>, t: Str, next: Groups)
    requires Ends(ix, m) && !Self(m) && l == Line(ix, m, m.echo) && t == TopicOf(ix, m)
    requires DueTo(ix, m, t, t)
    requires next.Keys == PlaceHead(topics, t).Keys && t in next
    requires forall j :: j in PlaceHead(topics, t) && j != t ==> next[j] == PlaceHead(topics, t)[j]
    requires forall x :: x in next[t] ==> x in PlaceHead(topics, t)[t] || HasId(SortByNum(l), x)
    ensures forall k, x :: k in next && x in next[k] ==>
              (k in topics && x in topics[k]) || DueTo(ix, m, k, x)
  {
    hide Ends, Line, DueTo, SortByNum, TopicOf, HasId;
    forall k, x | k in next && x in next[k]
      ensures (k in topics && x in topics[k]) || DueTo(ix, m, k, x)
    {
      if k == t && HasId(SortByNum(l), x) {
        SortKeepsIds(l, x);
        LineIsDue(ix, m, x);
      }
    }
  }

  lemma LineIsDue(ix: Index, m: Info, x: Str)
    requires Ends(ix, m) && !Self(m) && HasId(Line(ix, m, m.echo), x)
    ensures DueTo(ix, m, TopicOf(ix, m), x)
  {
  }

  lemma MidIsOk(ix: Index, c: Cache)
    requires WellFormed(ix) && CacheMid(ix, c, [])
    ensures CacheOk(ix, c)
  {
    hide WellFormed, TopicAt;
    NoIds();
  }

  /** The message that started the walk is among the sorted line. */
  lemma FirstOfLine(ix: Index, m: Info, l: seq<Info>)
    requires Ends(ix, m) && !Self(m) && l == Line(ix, m, m.echo)
    ensures exists i :: 0 <= i < |SortByNum(l)| && SortByNum(l)[i] == m
  {
    LineStarts(ix, m);
    SortKeeps(l);
    assert l[0] in SortByNum(l);
  }

  lemma CacheNeverChanges(ix: Index, c: Cache, d: Cache, e: Cache, l: seq<Info>)
    requires WellFormed(ix) && CacheOk(ix, c) && CacheOk(ix, e)
    requires forall id :: Cached(d, id) == Marked(c, l, id)
    requires forall id :: Cached(d, id) != [] ==> Cached(e, id) != []
    ensures CacheGrew(c, e)
  {
    hide WellFormed, TopicAt, HasId;
    forall id | Cached(c, id) != [] ensures Cached(e, id) == Cached(c, id) {
      assert Cached(d, id) == Marked(c, l, id);
    }
  }

  /** One input message; None when the walk from it does not halt. */
  ghost function HandleOne(ix: Index, m: Info, b: Book): Option<Book> {
    if m.id in b.intopic then Some(b)
    else if Cached(b.c, m.id) != [] then
      var k := Cached(b.c, m.id);
      var heads := PlaceHead(b.topics, k);
      if m.id == k then Some(b.(topics := heads))
      else Some(Book(heads[k := heads[k] + [m.id]], b.intopic[m.id := k], b.c))
    else if !Halts(ix, m, b.c) then None
    else
      var w := Walked(ix, m, b.c);
      if w.l == [] then Some(b.(c := w.d))
      else
        var t := w.l[|w.l| - 1].id;
        Some(FileAll(SortByNum(w.l), t, Book(PlaceHead(b.topics, t), b.intopic, w.d)))
  }

  ghost function HandleAll(ix: Index, mi: seq<Info>, b: Book): Option<Book> {
    if mi == [] then Some(b)
    else
      match HandleAll(ix, mi[..|mi| - 1], b)
      case None => None
      case Some(before) => HandleOne(ix, mi[|mi| - 1], before)
  }

  /** What a call starts from. */
  function Blank(c: Cache): Book { Book(map[], map[], c) }

  /** A call on this input returns. */
  ghost predicate Returns(ix: Index, mi: seq<Info>, c: Cache) { HandleAll(ix, mi, Blank(c)).Some? }

  lemma {:induction false} PrefixReturns(ix: Index, mi: seq<Info>, b: Book, n: nat)
    requires HandleAll(ix, mi, b).Some? && n <= |mi|
    ensures HandleAll(ix, mi[..n], b).Some?
  {
    hide HandleOne;
    if n < |mi| {
      PrefixReturns(ix, mi[..|mi| - 1], b, n);
      assert mi[..|mi| - 1][..n] == mi[..n];
    } else {
      assert mi[..n] == mi;
    }
  }

  lemma NextHandled(ix: Index, mi: seq<Info>, b: Book, n: nat)
    requires n < |mi| && HandleAll(ix, mi[..n], b).Some?
    ensures HandleAll(ix, mi[..n + 1], b) == HandleOne(ix, mi[n], HandleAll(ix, mi[..n], b).value)
  {
    hide HandleOne;
    assert mi[..n + 1][..n] == mi[..n];
  }

  /** GetTopics after its refresh, on any input for which it returns. */
  method GroupTopics(ix: Index, mi: seq<Info>, c0: Cache) returns (topics: Groups, c: Cache)
    requires Returns(ix, mi, c0)
    ensures var b := HandleAll(ix, mi, Blank(c0)).value; topics == b.topics && c == b.c
  {
    hide HandleAll, SortByNum, FileAll, Halts, Walked;
    var intopic: map<Str, Str>;
    topics, intopic, c := map[], map[], c0;
    NothingHandled(ix, Blank(c0));
    for n := 0 to |mi|
      invariant HandleAll(ix, mi[..n], Blank(c0)) == Some(Book(topics, intopic, c))
    {
      var m := mi[n];
      PrefixReturns(ix, mi, Blank(c0), n + 1);
      NextHandled(ix, mi, Blank(c0), n);
      if m.id in intopic { continue; }
      if Cached(c, m.id) != [] {
        var k := Cached(c, m.id);
        topics := PlaceHead(topics, k);
        if m.id != k {
          topics := topics[k := topics[k] + [m.id]];
          intopic := intopic[m.id := k];
        }
        continue;
      }
      var l: seq<Info>;
      l, c := Walk(ix, m, c);
      if l == [] { continue; }
      var t := l[|l| - 1].id;
      topics := PlaceHead(topics, t);
      topics, intopic, c := Place(SortByNum(l), t, topics, intopic, c);
    }
    assert mi[..|mi|] == mi;
  }

  lemma NothingHandled(ix: Index, b: Book)
    ensures HandleAll(ix, [], b) == Some(b)
  {
  }

  /** One message, on an index without reply cycles. */
  lemma HandledOne(ix: Index, done: seq<Info>, m: Info, b: Book)
    requires WellFormed(ix) && Stage(ix, done, b.topics, b.intopic, b.c)
    requires AllListed(ix, done) && Listed(ix, m)
    ensures HandleOne(ix, m, b).Some?
    ensures var r := HandleOne(ix, m, b).value; Stage(ix, done + [m], r.topics, r.intopic, r.c)
  {
    hide WellFormed, Stage, CacheOk, MemberOf, Line, TopicOf, SortByNum, AllFiled, AllDue, Grouped, Tracked,
         State, Halts, FileAll, Walked;
    StageCache(ix, done, b.topics, b.intopic, b.c);
    if m.id in b.intopic {
      StageSkip(ix, done, m, b.topics, b.intopic, b.c);
    } else if Cached(b.c, m.id) != [] {
      StageFast(ix, done, m, b.topics, b.intopic, b.c);
    } else {
      ListedEnds(ix, m);
      WalkAcyclic(ix, m, b.c);
      var w := Walked(ix, m, b.c);
      if w.l == [] {
        StageSelf(ix, done, m, b.topics, b.intopic, b.c, w.d);
      } else {
        HandledWalk(ix, done, m, b, w);
      }
    }
  }

  lemma HandledWalk(ix: Index, done: seq<Info>, m: Info, b: Book, w: Going)
    requires WellFormed(ix) && Stage(ix, done, b.topics, b.intopic, b.c)
    requires AllListed(ix, done) && Listed(ix, m) && Ends(ix, m)
    requires w.l == Line(ix, m, m.echo) && w.l != []
    requires forall id :: Cached(w.d, id) == Marked(b.c, w.l, id)
    ensures var t := w.l[|w.l| - 1].id;
            var r := FileAll(SortByNum(w.l), t, Book(PlaceHead(b.topics, t), b.intopic, w.d));
            Stage(ix, done + [m], r.topics, r.intopic, r.c)
  {
    hide WellFormed, Stage, CacheOk, MemberOf, Line, TopicOf, SortByNum, AllFiled, AllDue, Grouped, Tracked,
         State, FileAll;
    var t, s := w.l[|w.l| - 1].id, SortByNum(w.l);
    StageWalked(ix, done, m, b.topics, b.intopic, b.c, w.l, w.d);
    var b0 := Book(PlaceHead(b.topics, t), b.intopic, w.d);
    FiledSoFar(ix, s, |s|, t, b0);
    assert s[..|s|] == s && s[|s|..] == [];
    var r := FileAll(s, t, b0);
    StagePlaced(ix, done, m, b.topics, b.intopic, b.c, w.l, w.d, t, r.topics, r.intopic, r.c);
  }

  /** On an index without reply cycles every call returns, leaves no mark, files every listed
      message that is not a self-reply under the topic of the plain walk, and files nothing that is
      not on the line of some listed message. */
  lemma GroupsComplete(ix: Index, mi: seq<Info>, c: Cache)
    requires WellFormed(ix) && CacheOk(ix, c) && AllListed(ix, mi)
    ensures Returns(ix, mi, c)
    ensures var b := HandleAll(ix, mi, Blank(c)).value;
            CacheOk(ix, b.c) && Grouped(ix, b.topics)
            && AllFiled(ix, mi, b.topics, b.c) && AllDue(ix, mi, b.topics)
  {
    hide WellFormed, Stage, CacheOk, AllFiled, AllDue, Grouped, HandleAll;
    StageStart(ix, c);
    GroupsSoFar(ix, mi, c);
    var b := HandleAll(ix, mi, Blank(c)).value;
    StageDone(ix, mi, b.topics, b.intopic, b.c);
  }

  lemma {:induction false} GroupsSoFar(ix: Index, mi: seq<Info>, c: Cache)
    requires WellFormed(ix) && Stage(ix, [], map[], map[], c) && AllListed(ix, mi)
    ensures HandleAll(ix, mi, Blank(c)).Some?
    ensures var b := HandleAll(ix, mi, Blank(c)).value; Stage(ix, mi, b.topics, b.intopic, b.c)
  {
    hide WellFormed, Stage, Listed, HandleOne;
    if mi != [] {
      var n := |mi| - 1;
      GroupsSoFar(ix, mi[..n], c);
      HandledOne(ix, mi[..n], mi[n], HandleAll(ix, mi[..n], Blank(c)).value);
      assert mi == mi[..n] + [mi[n]];
    }
  }

  lemma ListedEnds(ix: Index, m: Info)
    requires WellFormed(ix) && Listed(ix, m)
    ensures Ends(ix, m)
  {
  }

  lemma StageDone(ix: Index, mi: seq<Info>, topics: Groups, intopic: map<Str, Str>, c: Cache)
    requires WellFormed(ix) && Stage(ix, mi, topics, intopic, c)
    ensures CacheOk(ix, c) && Grouped(ix, topics) && AllFiled(ix, mi, topics, c) && AllDue(ix, mi, topics)
  {
    hide WellFormed, Grouped, Tracked, AllFiled, AllDue;
    MidIsOk(ix, c);
  }

  // ---------------------------------------------------------------- what a caller gets

  /** A listed message that is not a self-reply stands in its own topic and in no other, once,
      and every topic starts with its head. */
  lemma ExactlyOneTopic(ix: Index, mi: seq<Info>, topics: Groups, c: Cache, j: nat)
    requires WellFormed(ix) && Grouped(ix, topics) && AllFiled(ix, mi, topics, c) && AllListed(ix, mi)
    requires j < |mi| && !Self(mi[j])
    ensures Ends(ix, mi[j])
    ensures forall k :: k in topics && mi[j].id in topics[k] <==> k == TopicOf(ix, mi[j])
    ensures forall k :: k in topics ==> topics[k] != [] && topics[k][0] == k && T.NoDups(topics[k])
  {
    var m := mi[j];
    assert Filed(ix, m, topics, c);
    forall k | k in topics && m.id in topics[k] ensures k == TopicOf(ix, m) {
      assert GroupOk(ix, k, topics[k]);
      var i :| 0 <= i < |topics[k]| && topics[k][i] == m.id;
      assert MemberOf(ix, topics[k][i], k);
    }
    forall k | k in topics ensures topics[k] != [] && topics[k][0] == k && T.NoDups(topics[k]) {
      assert GroupOk(ix, k, topics[k]);
    }
  }

  /** With every message its visible same-echo ancestors are listed too. */
  ghost predicate AncestorClosed(ix: Index, mi: seq<Info>) {
    forall j, x :: 0 <= j < |mi| && Ends(ix, mi[j]) && x in Line(ix, mi[j], mi[j].echo) ==> x in mi
  }

  ghost predicate Expected(ix: Index, mi: seq<Info>, k: Str, x: Str) {
    exists j :: 0 <= j < |mi| && Ends(ix, mi[j]) && !Self(mi[j]) && TopicOf(ix, mi[j]) == k && mi[j].id == x
  }

  lemma DueIsExpected(ix: Index, mi: seq<Info>, j: nat, k: Str, x: Str)
    requires WellFormed(ix) && AncestorClosed(ix, mi) && j < |mi| && DueTo(ix, mi[j], k, x)
    ensures Expected(ix, mi, k, x)
  {
    hide WellFormed, Ends, Line, TopicOf, Listed;
    var l := Line(ix, mi[j], mi[j].echo);
    var i :| 0 <= i < |l| && l[i].id == x;
    MemberOfLine(ix, mi[j], i);
    assert l[i] in l;
    assert l[i] in mi;
    var n :| 0 <= n < |mi| && mi[n] == l[i];
  }

  lemma MemberOfLine(ix: Index, m: Info, i: nat)
    requires WellFormed(ix) && Ends(ix, m) && i < |Line(ix, m, m.echo)|
    ensures var x := Line(ix, m, m.echo)[i];
            Ends(ix, x) && !Self(x) && TopicOf(ix, x) == TopicOf(ix, m)
  {
    LineTopic(ix, m, i);
  }

  /** On an ancestor-closed input the result is determined: topic k holds exactly the listed
      messages whose plain walk ends at k. */
  lemma GroupsExact(ix: Index, mi: seq<Info>, topics: Groups, c: Cache, k: Str, x: Str)
    requires WellFormed(ix) && AllFiled(ix, mi, topics, c) && AllDue(ix, mi, topics)
    requires AllListed(ix, mi) && AncestorClosed(ix, mi)
    ensures k in topics && x in topics[k] <==> Expected(ix, mi, k, x)
  {
    hide WellFormed, Ends, Listed, TopicOf, AncestorClosed, DueTo;
    if k in topics && x in topics[k] {
      assert Due(ix, mi, k, x);
      var j :| 0 <= j < |mi| && DueTo(ix, mi[j], k, x);
      DueIsExpected(ix, mi, j, k, x);
    }
    if Expected(ix, mi, k, x) {
      var j :| 0 <= j < |mi| && Ends(ix, mi[j]) && !Self(mi[j]) && TopicOf(ix, mi[j]) == k && mi[j].id == x;
      assert Filed(ix, mi[j], topics, c);
    }
  }

  /** Two calls on the same ancestor-closed input, whatever is cached before each, give the same
      topics with the same members. */
  lemma CachedCallAgrees(ix: Index, mi: seq<Info>, topics1: Groups, c1: Cache, topics2: Groups, c2: Cache)
    requires WellFormed(ix) && AllListed(ix, mi) && AncestorClosed(ix, mi)
    requires Grouped(ix, topics1) && AllFiled(ix, mi, topics1, c1) && AllDue(ix, mi, topics1)
    requires Grouped(ix, topics2) && AllFiled(ix, mi, topics2, c2) && AllDue(ix, mi, topics2)
    ensures topics1.Keys == topics2.Keys
    ensures forall k :: k in topics1 ==> forall x :: x in topics1[k] <==> x in topics2[k]
  {
    hide WellFormed, AllFiled, AllDue, AncestorClosed, Expected, TopicAt, MemberOf;
    forall k, x ensures k in topics1 && x in topics1[k] <==> k in topics2 && x in topics2[k] {
      GroupsExact(ix, mi, topics1, c1, k, x);
      GroupsExact(ix, mi, topics2, c2, k, x);
    }
    forall k ensures k in topics1 <==> k in topics2 {
      if k in topics1 { assert GroupOk(ix, k, topics1[k]); assert k in topics1[k]; }
      if k in topics2 { assert GroupOk(ix, k, topics2[k]); assert k in topics2[k]; }
    }
  }
}
