/** What a run of Fetch leaves in the local database: in every interleaving, through the request
    texts, the node's answers, the decoder and the store. */
module FetchData {
  import opened Bytes
  import opened Codec
  import opened Log
  import opened Store
  import opened Url
  import opened Serve
  import opened Fetch
  import opened FetchRun
  import Db
  import T = Tags

  /** The ids in the local database. */
  function Held(c: Config, local: World): set<Str> { View(c.sum, Lines(local.files.log)).hash.Keys }

  /** A request that a fetcher of e makes reaches the list of g. */
  ghost predicate Touches(e: Str, g: Str) {
    exists path :: Asks(e, path) && Arrive(path).Some? && g in Split(Arrive(path).value, SLASH)
  }

  /** x is on a list that requests for e reach. */
  ghost predicate Theirs(c: Config, e: Str, x: Str) {
    exists g :: IsEcho(g) && Touches(e, g) && x in ListOf(c, g)
  }

  ghost predicate AllTheirs(c: Config, e: Str, ids: seq<Str>) {
    forall i :: 0 <= i < |ids| ==> Theirs(c, e, ids[i])
  }

  /** A plain echo that no other name on the list reaches. Among plain names that is always so; a
      name with a slash, an escape, '?' or '#' may reach another echo. */
  ghost predicate Alone(c: Config, g: Str) {
    IsEcho(g) && UrlPlain(g)
    && forall i :: 0 <= i < |c.echoes| && IsEcho(c.echoes[i]) && Touches(c.echoes[i], g) ==> c.echoes[i] == g
  }

  /** What a complete fetch of an echo asks of the start, `was` being the ids held then: the echo is
      reached by its own fetcher only, the ids held form a prefix of the remote's list, every id
      missing from them is one a request path can carry, and a positive limit reaches back to
      them. */
  ghost predicate GoodEcho(c: Config, was: set<Str>, e: Str) {
    var l := ListOf(c, e);
    Alone(c, e) && Prefix(was, l)
    && (forall i :: 0 <= i < |l| ==> l[i] in was || UrlPlain(l[i]))
    && (c.limit <= 0 || !c.feature || WindowCovers(was, l, c.limit))
  }

  ghost predicate AllIn(ids: seq<Str>, l: seq<Str>) { forall i :: 0 <= i < |ids| ==> ids[i] in l }

  lemma NoDotInSlice(start: int, lim: int)
    ensures DOT !in PrintSlice(start, lim)
  {
    hide Itoa;
    ItoaFree(start, DOT);
    ItoaFree(lim, DOT);
  }

  /** A plain name reaches its own echo only. */
  lemma PlainTouches(e: Str, g: Str)
    requires UrlPlain(e) && IsEcho(g) && Touches(e, g)
    ensures g == e
  {
    hide Arrive, Split, PrintSlice, UrlPlain;
    var path :| Asks(e, path) && Arrive(path).Some? && g in Split(Arrive(path).value, SLASH);
    SliceArrives(e, 0, 0);
    if path != e {
      var start, lim :| path == SlicePath(e, start, lim);
      SliceArrives(e, start, lim);
      NoDotInSlice(start, lim);
    }
  }

  lemma TheirsPlain(c: Config, e: Str, x: Str)
    requires UrlPlain(e) && Theirs(c, e, x)
    ensures x in ListOf(c, e)
  {
    hide UrlPlain, IsEcho, Touches, ListOf;
    var g :| IsEcho(g) && Touches(e, g) && x in ListOf(c, g);
    PlainTouches(e, g);
  }

  /** Where every name on the list is plain, every valid echo is on its own. */
  lemma PlainAlone(c: Config, g: Str)
    requires forall i :: 0 <= i < |c.echoes| && IsEcho(c.echoes[i]) ==> UrlPlain(c.echoes[i])
    requires IsEcho(g) && UrlPlain(g)
    ensures Alone(c, g)
  {
    hide UrlPlain, IsEcho, Touches;
    forall i | 0 <= i < |c.echoes| && IsEcho(c.echoes[i]) && Touches(c.echoes[i], g) ensures c.echoes[i] == g {
      PlainTouches(c.echoes[i], g);
    }
  }

  /** Whatever a request is answered, the ids are on lists that it reaches. */
  lemma ListedTheirs(c: Config, e: Str, path: Str, x: Str)
    requires Ready(c) && Asks(e, path) && Listed(Table(c), path).Some? && x in Listed(Table(c), path).value
    ensures Theirs(c, e, x)
  {
    hide Ready, Table, Blocks, Arrive, Split, Asks, ScanSlice, Sound, AllIds, Payload, IsEcho, Public;
    NodeReady(c);
    var parts := Split(Arrive(path).value, SLASH);
    var slice := ScanSlice(parts[|parts| - 1]);
    var echoes := if slice.Some? then parts[..|parts| - 1] else parts;
    var start, lim := if slice.Some? then slice.value.0 else 0, if slice.Some? then slice.value.1 else 0;
    BlocksFrom(Table(c), echoes, start, lim, x);
    var g :| g in echoes && IsEcho(g) && x in Public(Table(c), g);
    assert g in parts;
    assert Touches(e, g);
  }

  lemma TheirsIds(c: Config, e: Str, ids: seq<Str>)
    requires Ready(c) && AllTheirs(c, e, ids)
    ensures forall i :: 0 <= i < |ids| ==> |ids[i]| == 20
  {
    hide Ready, Table, Public, Sound, IsEcho, Touches;
    NodeReady(c);
    forall i | 0 <= i < |ids| ensures |ids[i]| == 20 {
      var g :| IsEcho(g) && Touches(e, g) && ids[i] in ListOf(c, g);
      PublicIds(Table(c), g);
      var n :| 0 <= n < |ListOf(c, g)| && ListOf(c, g)[n] == ids[i];
      assert IsMsgId(ListOf(c, g)[n]);
    }
  }

  /** The ids of the messages in a node's answer. */
  function IdsIn(sum: Str -> Str, lines: seq<Str>): (ids: seq<Str>)
    ensures |ids| == |lines|
  {
    seq(|lines|, i requires 0 <= i < |lines| =>
      var m := Decode(sum, lines[i]); if m.Ok? then m.value.id else [])
  }

  /** How far a fetcher has come. */
  ghost predicate WorkOk(c: Config, was: set<Str>, known: set<Str>, w: Worker) {
    var l, good := ListOf(c, w.echo), GoodEcho(c, was, w.echo);
    match w.pc
    case AskLast => true
    case Probing(limit, _) => limit <= MAX_INT64
    case Asking(limit) => limit <= MAX_INT64 && (good ==> limit <= 0 || WindowCovers(known, l, limit))
    case Listing(todo, res) => AllTheirs(c, w.echo, res + todo) && (good ==> Queue(l, known, res + todo) && AllUrlPlain(res))
    case Sending(left) => AllTheirs(c, w.echo, left) && (good ==> Queue(l, known, left) && AllUrlPlain(left))
    case Saving(lines, left) =>
      var ids := IdsIn(c.sum, lines);
      AllCarried(c.sum, lines, ids) && AllTheirs(c, w.echo, ids) && AllUrlPlain(ids) && AllTheirs(c, w.echo, left)
      && (good ==> Queue(l, known, ids + left) && AllUrlPlain(left))
    case _ => good ==> w.cut || AllKnown(known, l)
  }

  /** The local node stays consistent, what it gains is plain ids only, every good echo's ids stay
      a prefix, and every fetcher is where it should be. */
  ghost predicate DataOk(c: Config, was: set<Str>, s: Sys) {
    var known := Held(c, s.local);
    Consistent(c.sum, s.local)
    && was <= known
    && (forall x :: x in known && x !in was ==> UrlPlain(x))
    && (forall e :: GoodEcho(c, was, e) ==> Prefix(known, ListOf(c, e)))
    && (forall j :: 0 <= j < |s.workers| ==> WorkOk(c, was, known, s.workers[j]))
  }

  lemma MoreKnown(c: Config, was: set<Str>, known: set<Str>, more: set<Str>, w: Worker)
    requires WorkOk(c, was, known, w) && known <= more
    ensures WorkOk(c, was, more, w)
  {
    hide GoodEcho, Queue, AllTheirs, AllUrlPlain, AllCarried, IdsIn, ListOf;
    var l := ListOf(c, w.echo);
    if GoodEcho(c, was, w.echo) {
      match w.pc
      case Listing(todo, res) => QueueGrows(l, known, more, res + todo);
      case Sending(left) => QueueGrows(l, known, more, left);
      case Saving(lines, left) => QueueGrows(l, known, more, IdsIn(c.sum, lines) + left);
      case _ =>
    }
  }

  /** Looking an id up refreshes the handle and changes nothing else. */
  lemma LookedGood(c: Config, local: World)
    requires GoodSum(c.sum) && Consistent(c.sum, local)
    ensures Consistent(c.sum, Looked(c, local)) && Looked(c, local).files.log == local.files.log
    ensures Held(c, Looked(c, local)) == Held(c, local)
    ensures forall id :: Exists(c, local, id) <==> id in Held(c, local)
  {
    hide View, Lines, Refresh, IndexText, HandleOf, Snapshot, GoodLog;
    RefreshKeepsLog(c.sum, local.files, HandleOf(local, c.h));
    HandleSnapshotOf(c.sum, local, c.h);
    LogFits(c.sum, local);
    DoKeeps(c.sum, local, Load(c.h));
    RefreshGood(c.sum, local.files, HandleOf(local, c.h));
    HandleSet(local, c.h, Refresh(c.sum, local.files, HandleOf(local, c.h)));
  }

  lemma LogFits(sum: Str -> Str, w: World)
    requires Consistent(sum, w)
    ensures |w.files.log| <= MAX_INT64
  {
  }

  lemma HandleSet(w: World, h: nat, r: Refreshed)
    ensures HandleOf(World(r.files, w.handles[h := r.handle]), h) == r.handle
  {
  }

  /** What one step of a fetcher does to the local node and to itself. */
  ghost predicate StepOk(c: Config, was: set<Str>, local: World, w: Worker, o: Out) {
    var l, known, next := ListOf(c, w.echo), Held(c, local), Held(c, o.local);
    Consistent(c.sum, o.local) && known <= next
    && (forall x :: x in next && x !in known ==> Theirs(c, w.echo, x) && UrlPlain(x))
    && (GoodEcho(c, was, w.echo) ==> Prefix(next, l))
    && WorkOk(c, was, next, Worker(w.echo, o.pc, w.cut || o.cut))
  }

  /** Where every step of a fetcher starts. */
  ghost predicate StepFrom(c: Config, was: set<Str>, local: World, w: Worker) {
    Ready(c) && Consistent(c.sum, local) && IsEcho(w.echo)
    && was <= Held(c, local) && WorkOk(c, was, Held(c, local), w)
    && (GoodEcho(c, was, w.echo) ==> Prefix(Held(c, local), ListOf(c, w.echo)))
  }

  lemma GoodIsPlain(c: Config, was: set<Str>, e: Str)
    requires GoodEcho(c, was, e)
    ensures IsEcho(e) && UrlPlain(e) && Prefix(was, ListOf(c, e))
    ensures c.limit <= 0 || !c.feature || WindowCovers(was, ListOf(c, e), c.limit)
  {
  }

  lemma AskLastData(c: Config, was: set<Str>, local: World, w: Worker, now: int)
    requires StepFrom(c, was, local, w) && w.pc.AskLast?
    ensures StepOk(c, was, local, w, BodyStep(c, local, w.echo, w.pc, now))
  {
    hide Listed, Table, ListOf, IsEcho, UrlPlain, Consistent, Held, Looked, Exists, GoodSum, IsMsgId, Concat,
         Slice, AllIds, T.NoDups, Prefix, WindowCovers, AllKnown, Payload, SlicePath, GoodEcho, Theirs;
    var l, known := ListOf(c, w.echo), Held(c, local);
    LookedGood(c, local);
    if GoodEcho(c, was, w.echo) {
      GoodIsPlain(c, was, w.echo);
      Reads(c, w.echo, -1, 1);
      SliceIds(l, -1, 1);
      PayloadOfIds(Slice(l, -1, 1));
      var id := Concat(Slice(l, -1, 1));
      LastId(l, known, id);
      if c.limit > 0 && c.feature { WindowGrows(was, known, l, c.limit); }
      if !IsMsgId(id) || id in known {
        NothingMissing(known, l);
        EmptyQueue(l, known);
      }
    }
  }

  lemma WindowGrows(was: set<Str>, known: set<Str>, l: seq<Str>, limit: int)
    requires WindowCovers(was, l, limit) && was <= known
    ensures WindowCovers(known, l, limit)
  {
  }

  lemma ProbingData(c: Config, was: set<Str>, local: World, w: Worker, now: int)
    requires StepFrom(c, was, local, w) && w.pc.Probing?
    ensures StepOk(c, was, local, w, BodyStep(c, local, w.echo, w.pc, now))
  {
    hide Listed, Table, ListOf, IsEcho, UrlPlain, Consistent, Held, Looked, Exists, GoodSum, IsMsgId, Concat,
         Slice, AllIds, T.NoDups, Prefix, WindowCovers, AllKnown, Payload, GoodEcho, SlicePath, Theirs;
    var l, known, limit := ListOf(c, w.echo), Held(c, local), w.pc.limit;
    LookedGood(c, local);
    if GoodEcho(c, was, w.echo) {
      GoodIsPlain(c, was, w.echo);
      Reads(c, w.echo, Wrap(-limit), 1);
      SettledCovers(known, l, limit, w.pc.tries);
    }
  }

  lemma AskingData(c: Config, was: set<Str>, local: World, w: Worker, now: int)
    requires StepFrom(c, was, local, w) && w.pc.Asking?
    ensures StepOk(c, was, local, w, BodyStep(c, local, w.echo, w.pc, now))
  {
    hide Listed, Table, ListOf, IsEcho, UrlPlain, Consistent, Held, GoodSum, Theirs, Asks,
         Slice, AllIds, T.NoDups, Prefix, WindowCovers, AllKnown, GoodEcho, Queue, Asked, Size, SlicePath;
    var l, known, limit := ListOf(c, w.echo), Held(c, local), w.pc.limit;
    var path := if limit > 0 then SlicePath(w.echo, -limit, limit) else w.echo;
    AsksSlice(w.echo, -limit, limit);
    var r := Listed(Table(c), path);
    if r.Some? {
      var none: seq<Str> := [];
      assert none + r.value == r.value;
      forall i | 0 <= i < |r.value| ensures Theirs(c, w.echo, r.value[i]) {
        ListedTheirs(c, w.echo, path, r.value[i]);
      }
    }
    if GoodEcho(c, was, w.echo) {
      GoodIsPlain(c, was, w.echo);
      Reads(c, w.echo, 0, 0);
      PlainAsks(c, w.echo, limit);
      AskedQueue(l, known, limit);
    }
  }

  lemma ListingData(c: Config, was: set<Str>, local: World, w: Worker, now: int)
    requires StepFrom(c, was, local, w) && w.pc.Listing?
    ensures StepOk(c, was, local, w, BodyStep(c, local, w.echo, w.pc, now))
  {
    hide ListOf, IsEcho, UrlPlain, Consistent, Held, Looked, Exists, GoodSum, Prefix, WindowCovers, Queue, GoodEcho,
         Theirs;
    var l, known, todo, res := ListOf(c, w.echo), Held(c, local), w.pc.todo, w.pc.res;
    LookedGood(c, local);
    if todo == [] {
      assert res + todo == res;
    } else if todo[0] in known {
      var a, b: seq<Str> := res + todo, res + todo[1..];
      forall i | 0 <= i < |b| ensures Theirs(c, w.echo, b[i]) { assert b[i] == a[if i < |res| then i else i + 1]; }
      if GoodEcho(c, was, w.echo) { DropKnown(l, known, res, todo); }
    } else {
      assert res + [todo[0]] + todo[1..] == res + todo;
      if GoodEcho(c, was, w.echo) {
        assert (res + todo)[|res|] == todo[0];
        QueueHead(l, known, res + todo, |res|);
        MissingPlain(c, was, w.echo, todo[0]);
      }
    }
  }

  lemma QueueHead(l: seq<Str>, known: set<Str>, q: seq<Str>, i: nat)
    requires Queue(l, known, q) && i < |q|
    ensures q[i] in l
  {
    hide Pos;
  }

  lemma MissingPlain(c: Config, was: set<Str>, e: Str, x: Str)
    requires GoodEcho(c, was, e) && x in ListOf(c, e) && x !in was
    ensures UrlPlain(x)
  {
    hide ListOf, UrlPlain, Prefix, WindowCovers, Alone;
  }

  lemma {:induction false} ServedFrom(f: Files, h: Handle, ids: seq<Str>)
    ensures forall x :: x in Served(f, h, ids) ==> x in ids
  {
    hide Serves;
    if ids != [] {
      ServedFrom(f, h, ids[..|ids| - 1]);
      assert ids == ids[..|ids| - 1] + [ids[|ids| - 1]];
    }
  }

  lemma CarriedIds(sum: Str -> Str, lines: seq<Str>, ids: seq<Str>)
    requires AllCarried(sum, lines, ids)
    ensures IdsIn(sum, lines) == ids
    ensures forall i :: 0 <= i < |ids| ==> IsMsgId(ids[i])
  {
    hide Decode, IsMsgId;
    forall i | 0 <= i < |ids| ensures IdsIn(sum, lines)[i] == ids[i] && IsMsgId(ids[i]) {
      assert Carried(sum, lines[i], ids[i]);
    }
  }

  lemma TheirsServed(c: Config, e: Str, x: Str)
    requires Ready(c) && Theirs(c, e, x)
    ensures Serves(Node(c).files, Node(c).handle, x)
  {
    hide Table, Public, Sound, IsEcho, Touches, Refresh, Consistent, GoodSum, HandleOf, View, Lines, Serves;
    NodeReady(c);
    var g :| IsEcho(g) && Touches(e, g) && x in ListOf(c, g);
    EchoNotEmpty(g);
    BundleCarried(c.sum, c.remote, c.rh, g, x);
  }

  /** The answer to a batch: lines carrying plain ids of the batch, all of them when all are plain. */
  lemma BatchAnswer(c: Config, e: Str, batch: seq<Str>)
    requires Ready(c) && batch != [] && AllTheirs(c, e, batch) && Elements(batch).Some?
    ensures var lines := Db.MLines(Node(c).files, Node(c).handle, Elements(batch).value);
            var ids := IdsIn(c.sum, lines);
            AllCarried(c.sum, lines, ids) && AllUrlPlain(ids) && AllIn(ids, batch)
            && (AllUrlPlain(batch) ==> ids == batch)
  {
    hide Refresh, Consistent, GoodSum, Carried, Served, Public, Table, IdsIn, UrlPlain, Elements, Db.MLines, Sound,
         View, Lines, HandleOf, IsEcho, Theirs, Serves;
    TheirsIds(c, e, batch);
    RequestPathIff(batch, 20);
    var ids := Elements(batch).value;
    LinesCarried(c.sum, c.remote, c.rh, ids);
    var served := Served(Node(c).files, Node(c).handle, ids);
    CarriedIds(c.sum, Db.MLines(Node(c).files, Node(c).handle, ids), served);
    ServedFrom(Node(c).files, Node(c).handle, ids);
    forall i | 0 <= i < |served| ensures served[i] in batch && UrlPlain(served[i]) {
      assert served[i] in served && IsMsgId(served[i]);
    }
    if AllUrlPlain(batch) {
      forall i | 0 <= i < |batch| ensures Serves(Node(c).files, Node(c).handle, batch[i]) {
        TheirsServed(c, e, batch[i]);
      }
      ServedAll(Node(c).files, Node(c).handle, batch);
    }
  }

  lemma PartTheirs(c: Config, e: Str, ids: seq<Str>, batch: seq<Str>)
    requires AllTheirs(c, e, batch) && AllIn(ids, batch)
    ensures AllTheirs(c, e, ids)
  {
    hide Theirs;
    forall i | 0 <= i < |ids| ensures Theirs(c, e, ids[i]) {
      var n :| 0 <= n < |batch| && batch[n] == ids[i];
    }
  }

  /** The fetcher after a batch is answered. */
  lemma SentOk(c: Config, was: set<Str>, known: set<Str>, w: Worker)
    requires Ready(c) && w.echo != [] && w.pc.Sending? && w.pc.left != [] && WorkOk(c, was, known, w)
    requires Elements(Batch(w.pc.left)).Some?
    ensures var left := w.pc.left;
            var lines := Db.MLines(Node(c).files, Node(c).handle, Elements(Batch(left)).value);
            WorkOk(c, was, known, w.(pc := Saving(lines, left[|Batch(left)|..])))
  {
    hide ListOf, Queue, GoodEcho, Ready, Elements, AllCarried, IdsIn, Node, UrlPlain, Db.MLines, Theirs;
    var l, left := ListOf(c, w.echo), w.pc.left;
    var batch := Batch(left);
    assert left == batch + left[|batch|..];
    assert AllTheirs(c, w.echo, batch);
    BatchAnswer(c, w.echo, batch);
    PartTheirs(c, w.echo, IdsIn(c.sum, Db.MLines(Node(c).files, Node(c).handle, Elements(batch).value)), batch);
    if GoodEcho(c, was, w.echo) { assert AllUrlPlain(batch); }
  }

  lemma SentAll(c: Config, was: set<Str>, known: set<Str>, w: Worker)
    requires w.pc.Sending? && w.pc.left == [] && WorkOk(c, was, known, w)
    ensures WorkOk(c, was, known, w.(pc := Finished))
  {
    hide ListOf, Queue, GoodEcho, AllKnown;
    if GoodEcho(c, was, w.echo) { EmptyQueue(ListOf(c, w.echo), known); }
  }

  lemma CutOk(c: Config, was: set<Str>, known: set<Str>, e: Str)
    ensures WorkOk(c, was, known, Worker(e, Finished, true))
  {
  }

  /** A step that leaves the local node alone. */
  lemma LocalSame(c: Config, was: set<Str>, local: World, w: Worker, o: Out)
    requires StepFrom(c, was, local, w) && o.local == local
    requires WorkOk(c, was, Held(c, local), Worker(w.echo, o.pc, w.cut || o.cut))
    ensures StepOk(c, was, local, w, o)
  {
    hide WorkOk, Held, ListOf, GoodEcho, Consistent, Prefix;
  }

  lemma FromReady(c: Config, was: set<Str>, local: World, w: Worker)
    requires StepFrom(c, was, local, w)
    ensures Ready(c) && w.echo != [] && WorkOk(c, was, Held(c, local), w)
  {
    hide WorkOk, Held, ListOf, GoodEcho, Consistent, Prefix, Ready;
  }

  lemma SendingData(c: Config, was: set<Str>, local: World, w: Worker, now: int)
    requires StepFrom(c, was, local, w) && w.pc.Sending?
    ensures StepOk(c, was, local, w, BodyStep(c, local, w.echo, w.pc, now))
  {
    hide StepFrom, StepOk, WorkOk, Held, Elements, Node, Db.MLines, Batch;
    FromReady(c, was, local, w);
    if w.pc.left == [] {
      SentAll(c, was, Held(c, local), w);
    } else if Elements(Batch(w.pc.left)).Some? {
      SentOk(c, was, Held(c, local), w);
    } else {
      CutOk(c, was, Held(c, local), w.echo);
    }
    LocalSame(c, was, local, w, BodyStep(c, local, w.echo, w.pc, now));
  }

  /** Storing one line of an answer. */
  lemma SaveLine(c: Config, local: World, line: Str, id: Str, now: int)
    requires GoodSum(c.sum) && Consistent(c.sum, local) && Carried(c.sum, line, id)
    requires MIN_INT64 <= now <= MAX_INT64 && Decode(c.sum, line).Ok?
    requires |Do(c.sum, local, Save(c.h, Decode(c.sum, line).value, now, false)).files.log| <= MAX_INT64
    ensures var v := Do(c.sum, local, Save(c.h, Decode(c.sum, line).value, now, false));
            Consistent(c.sum, v) && Held(c, v) == Held(c, local) + {id}
  {
    hide Carried, Decode, Consistent, GoodSum, Do, View, Lines;
    CarriedIsStored(c.sum, local, c.h, line, id, now);
  }

  /** What is left of an answer after its first line. */
  lemma TailCarried(sum: Str -> Str, lines: seq<Str>)
    requires lines != [] && AllCarried(sum, lines, IdsIn(sum, lines))
    ensures var ids := IdsIn(sum, lines);
            IdsIn(sum, lines[1..]) == ids[1..] && AllCarried(sum, lines[1..], ids[1..])
            && Decode(sum, lines[0]).Ok? && Carried(sum, lines[0], ids[0])
  {
    hide Decode, Survives;
    var ids := IdsIn(sum, lines);
    assert Carried(sum, lines[0], ids[0]);
    assert IdsIn(sum, lines[1..]) == ids[1..] by { hide Carried; }
    forall i | 0 <= i < |lines| - 1 ensures Carried(sum, lines[1..][i], ids[1..][i]) {
      hide Carried;
      assert Carried(sum, lines[i + 1], ids[i + 1]);
    }
  }

  /** The fetcher after one line is stored. */
  lemma SavedOk(c: Config, was: set<Str>, known: set<Str>, w: Worker)
    requires w.pc.Saving? && w.pc.lines != [] && WorkOk(c, was, known, w)
    requires GoodEcho(c, was, w.echo) ==> T.NoDups(ListOf(c, w.echo)) && Prefix(known, ListOf(c, w.echo))
    ensures var id := IdsIn(c.sum, w.pc.lines)[0];
            Theirs(c, w.echo, id) && UrlPlain(id)
            && WorkOk(c, was, known + {id}, w.(pc := Saving(w.pc.lines[1..], w.pc.left)))
            && (GoodEcho(c, was, w.echo) ==> Prefix(known + {id}, ListOf(c, w.echo)))
  {
    hide ListOf, Prefix, Queue, GoodEcho, Decode, UrlPlain, T.NoDups, AllCarried, Carried, IdsIn, Theirs;
    var ids, left := IdsIn(c.sum, w.pc.lines), w.pc.left;
    TailCarried(c.sum, w.pc.lines);
    assert UrlPlain(ids[0]) && Theirs(c, w.echo, ids[0]);
    assert (ids + left)[1..] == ids[1..] + left;
    if GoodEcho(c, was, w.echo) {
      StoreHead(ListOf(c, w.echo), known, ids + left);
    }
  }

  /** A step that adds one id to the local node. */
  lemma LocalGains(c: Config, was: set<Str>, local: World, w: Worker, o: Out, id: Str)
    requires StepFrom(c, was, local, w) && Consistent(c.sum, o.local) && Held(c, o.local) == Held(c, local) + {id}
    requires Theirs(c, w.echo, id) && UrlPlain(id)
    requires GoodEcho(c, was, w.echo) ==> Prefix(Held(c, o.local), ListOf(c, w.echo))
    requires WorkOk(c, was, Held(c, o.local), Worker(w.echo, o.pc, w.cut || o.cut))
    ensures StepOk(c, was, local, w, o)
  {
    hide WorkOk, Held, ListOf, GoodEcho, Consistent, Prefix, UrlPlain, Ready, Theirs;
  }

  lemma FromGood(c: Config, was: set<Str>, local: World, w: Worker)
    requires StepFrom(c, was, local, w)
    ensures GoodSum(c.sum) && Consistent(c.sum, local)
    ensures GoodEcho(c, was, w.echo) ==> T.NoDups(ListOf(c, w.echo)) && Prefix(Held(c, local), ListOf(c, w.echo))
  {
    hide WorkOk, Held, ListOf, GoodEcho, Consistent, Prefix, GoodSum, T.NoDups, UrlPlain, IsEcho;
    if GoodEcho(c, was, w.echo) {
      GoodIsPlain(c, was, w.echo);
      Reads(c, w.echo, 0, 0);
    }
  }

  lemma SavingData(c: Config, was: set<Str>, local: World, w: Worker, now: int)
    requires StepFrom(c, was, local, w) && w.pc.Saving? && MIN_INT64 <= now <= MAX_INT64
    requires |BodyStep(c, local, w.echo, w.pc, now).local.files.log| <= MAX_INT64
    ensures StepOk(c, was, local, w, BodyStep(c, local, w.echo, w.pc, now))
  {
    hide StepFrom, StepOk, WorkOk, ListOf, Consistent, Held, Prefix, GoodEcho, Decode, UrlPlain, Do, T.NoDups, Carried,
         IdsIn, GoodSum, Theirs;
    FromReady(c, was, local, w);
    var o := BodyStep(c, local, w.echo, w.pc, now);
    if w.pc.lines == [] {
      SavedAll(c, was, Held(c, local), w);
      LocalSame(c, was, local, w, o);
    } else {
      var id := IdsIn(c.sum, w.pc.lines)[0];
      FromGood(c, was, local, w);
      SavedOk(c, was, Held(c, local), w);
      LineOk(c, was, Held(c, local), w);
      SaveLine(c, local, w.pc.lines[0], id, now);
      LocalGains(c, was, local, w, o, id);
    }
  }

  lemma SavedAll(c: Config, was: set<Str>, known: set<Str>, w: Worker)
    requires w.pc.Saving? && w.pc.lines == [] && WorkOk(c, was, known, w)
    ensures WorkOk(c, was, known, w.(pc := Sending(w.pc.left)))
  {
    hide ListOf, GoodEcho, Queue;
    assert IdsIn(c.sum, []) + w.pc.left == w.pc.left;
  }

  lemma LineOk(c: Config, was: set<Str>, known: set<Str>, w: Worker)
    requires w.pc.Saving? && w.pc.lines != [] && WorkOk(c, was, known, w)
    ensures Decode(c.sum, w.pc.lines[0]).Ok? && Carried(c.sum, w.pc.lines[0], IdsIn(c.sum, w.pc.lines)[0])
  {
    hide ListOf, GoodEcho, Queue, Carried, Decode, AllCarried, IdsIn;
    TailCarried(c.sum, w.pc.lines);
  }

  /** Every step of a fetcher, whatever it is about to do. */
  lemma BodyData(c: Config, was: set<Str>, local: World, w: Worker, now: int)
    requires StepFrom(c, was, local, w) && InBody(w.pc) && MIN_INT64 <= now <= MAX_INT64
    requires |BodyStep(c, local, w.echo, w.pc, now).local.files.log| <= MAX_INT64
    ensures StepOk(c, was, local, w, BodyStep(c, local, w.echo, w.pc, now))
  {
    hide StepFrom, StepOk, BodyStep;
    match w.pc
    case AskLast => AskLastData(c, was, local, w, now);
    case Probing(_, _) => ProbingData(c, was, local, w, now);
    case Asking(_) => AskingData(c, was, local, w, now);
    case Listing(_, _) => ListingData(c, was, local, w, now);
    case Sending(_) => SendingData(c, was, local, w, now);
    case Saving(_, _) => SavingData(c, was, local, w, now);
  }

  // ---------------------------------------------------------------- one step of the whole system

  /** What another name's fetcher stores is not on the list of an echo that it does not reach. */
  lemma OtherPrefix(c: Config, known: set<Str>, next: set<Str>, e: Str, g: Str)
    requires Alone(c, g) && e in c.echoes && IsEcho(e) && e != g && Prefix(known, ListOf(c, g)) && known <= next
    requires forall x :: x in next && x !in known ==> Theirs(c, e, x)
    ensures Prefix(next, ListOf(c, g))
  {
    hide Public, Table, Sound, IsEcho, Touches, UrlPlain;
    var l := ListOf(c, g);
    forall i | 0 <= i < |l| ensures l[i] in next ==> l[i] in known {
      assert l[i] in l;
      if l[i] in next && l[i] !in known {
        var h :| IsEcho(h) && Touches(e, h) && l[i] in ListOf(c, h);
        EchoNotEmpty(h);
        EchoNotEmpty(g);
        PublicDistinct(Table(c), h, g);
        assert false;
      }
    }
  }

  lemma WorkerData(c: Config, was: set<Str>, s: Sys, j: nat, now: int)
    requires Ready(c) && ControlOk(c, s) && DataOk(c, was, s) && Enabled(c, s, W(j, now))
    requires |WorkerStep(c, s, j, now).local.files.log| <= MAX_INT64
    ensures DataOk(c, was, WorkerStep(c, s, j, now))
  {
    hide Ready, ControlOk, IsEcho, UrlPlain, Consistent, Held, GoodEcho, WorkOk, Prefix, BodyStep, ListOf, Theirs,
         Alone;
    var w, t := s.workers[j], WorkerStep(c, s, j, now);
    if InBody(w.pc) {
      var o := BodyStep(c, s.local, w.echo, w.pc, now);
      WorkerEcho(c, s, j);
      BodyData(c, was, s.local, w, now);
      var known, next := Held(c, s.local), Held(c, o.local);
      forall e | GoodEcho(c, was, e) ensures Prefix(next, ListOf(c, e)) {
        GoodIsAlone(c, was, e);
        if e != w.echo { OtherPrefix(c, known, next, w.echo, e); }
      }
      forall n | 0 <= n < |s.workers| && n != j ensures WorkOk(c, was, next, t.workers[n]) {
        MoreKnown(c, was, known, next, s.workers[n]);
      }
    } else {
      AfterBody(c, was, Held(c, s.local), w, t.workers[j]);
    }
  }

  lemma GoodIsAlone(c: Config, was: set<Str>, e: Str)
    requires GoodEcho(c, was, e)
    ensures Alone(c, e)
  {
  }

  lemma AfterBody(c: Config, was: set<Str>, known: set<Str>, w: Worker, v: Worker)
    requires WorkOk(c, was, known, w) && !InBody(w.pc) && !InBody(v.pc) && v.echo == w.echo && v.cut == w.cut
    ensures WorkOk(c, was, known, v)
  {
    hide GoodEcho, ListOf;
  }

  lemma FailedOk(c: Config, was: set<Str>, known: set<Str>, w: Worker)
    requires WorkOk(c, was, known, w) && InBody(w.pc)
    ensures WorkOk(c, was, known, AfterError(w))
  {
    hide GoodEcho, ListOf;
  }

  lemma StepData(c: Config, was: set<Str>, s: Sys, ev: Event)
    requires Ready(c) && ControlOk(c, s) && DataOk(c, was, s) && Enabled(c, s, ev)
    requires |Step(c, s, ev).local.files.log| <= MAX_INT64
    ensures DataOk(c, was, Step(c, s, ev))
  {
    hide Ready, ControlOk, Consistent, Held, GoodEcho, Prefix, ListOf, IsEcho, WorkerStep;
    match ev
    case M =>
      var t := MasterStep(c, s);
      forall j | 0 <= j < |t.workers| ensures WorkOk(c, was, Held(c, t.local), t.workers[j]) {
        if j < |s.workers| { assert t.workers[j] == s.workers[j]; }
      }
    case W(j, now) => WorkerData(c, was, s, j, now);
    case Fail(j) => FailedOk(c, was, Held(c, s.local), s.workers[j]);
  }

  /** The local log only grows. */
  lemma StepLog(c: Config, s: Sys, ev: Event)
    requires Enabled(c, s, ev)
    ensures |s.local.files.log| <= |Step(c, s, ev).local.files.log|
  {
    hide Listed, SlicePath, Elements, Decode, Do, Table, Batch, IsMsgId, IsEcho, Concat, Exists, Db.MLines, Wrap;
    if ev.W? && InBody(s.workers[ev.j].pc) {
      LogGrows(c.sum, s.local, Load(c.h));
      var pc := s.workers[ev.j].pc;
      if pc.Saving? && pc.lines != [] && Decode(c.sum, pc.lines[0]).Ok? {
        LogGrows(c.sum, s.local, Save(c.h, Decode(c.sum, pc.lines[0]).value, ev.now, false));
      }
    }
  }

  // ---------------------------------------------------------------- theorems

  lemma StartData(c: Config, local: World)
    requires Consistent(c.sum, local)
    ensures DataOk(c, Held(c, local), Start(local))
  {
    hide Consistent, Held, ListOf, Prefix, UrlPlain, WindowCovers, Alone;
  }

  lemma {:induction false} RunData(c: Config, local: World, evs: seq<Event>)
    requires Ready(c) && Consistent(c.sum, local) && Exec(c, local, evs).Some?
    requires |Exec(c, local, evs).value.local.files.log| <= MAX_INT64
    ensures DataOk(c, Held(c, local), Exec(c, local, evs).value)
  {
    hide Ready, ControlOk, Consistent, Held, DataOk, Step, Enabled;
    if evs == [] {
      StartData(c, local);
    } else {
      var before, ev := evs[..|evs| - 1], evs[|evs| - 1];
      var s := Exec(c, local, before).value;
      StepLog(c, s, ev);
      RunData(c, local, before);
      RunControl(c, local, before);
      StepData(c, Held(c, local), s, ev);
    }
  }

  /** Fetch completeness over an unchanged remote, in every interleaving with errors anywhere. The
      local node stays consistent and loses nothing. For every echo that is good at the start its
      known ids are a prefix of the remote's list in every reachable state, so a run cut off
      anywhere can be completed by a later one. When Fetch has returned, every valid echo of the
      list has had its fetcher, and each fetcher of a good echo that was not cut by a failed request
      has left the whole list known. */
  lemma FetchComplete(c: Config, local: World, evs: seq<Event>)
    requires Ready(c) && Consistent(c.sum, local) && Exec(c, local, evs).Some?
    requires |Exec(c, local, evs).value.local.files.log| <= MAX_INT64
    ensures var s, was := Exec(c, local, evs).value, Held(c, local);
            Consistent(c.sum, s.local) && was <= Held(c, s.local)
            && (forall e :: GoodEcho(c, was, e) ==> Prefix(Held(c, s.local), ListOf(c, e)))
            && (s.master.Returned? ==>
                  Echoes(s.workers) == Valid(c.echoes)
                  && forall j :: 0 <= j < |s.workers| && !s.workers[j].cut
                                 && GoodEcho(c, was, s.workers[j].echo) ==>
                       AllKnown(Held(c, s.local), ListOf(c, s.workers[j].echo)))
  {
    hide Ready, Consistent, Held, GoodEcho, Prefix, ListOf, WorkOk, Echoes, Valid, AllKnown, Exec, ControlOk;
    var s, was := Exec(c, local, evs).value, Held(c, local);
    RunData(c, local, evs);
    RunControl(c, local, evs);
    if s.master.Returned? {
      ReturnedDone(c, local, evs);
      forall j | 0 <= j < |s.workers| && !s.workers[j].cut && GoodEcho(c, was, s.workers[j].echo)
        ensures AllKnown(Held(c, s.local), ListOf(c, s.workers[j].echo))
      {
        DoneKnows(c, was, Held(c, s.local), s.workers[j]);
      }
    }
  }

  lemma DoneKnows(c: Config, was: set<Str>, known: set<Str>, w: Worker)
    requires WorkOk(c, was, known, w) && Done(w) && !w.cut && GoodEcho(c, was, w.echo)
    ensures AllKnown(known, ListOf(c, w.echo))
  {
    hide GoodEcho, ListOf;
  }

  /** An id that a request path cannot carry is not obtained in any interleaving. */
  lemma NeverArrives(c: Config, local: World, evs: seq<Event>, x: Str)
    requires Ready(c) && Consistent(c.sum, local) && Exec(c, local, evs).Some?
    requires |Exec(c, local, evs).value.local.files.log| <= MAX_INT64
    requires x !in Held(c, local) && !UrlPlain(x)
    ensures x !in Held(c, Exec(c, local, evs).value.local)
  {
    hide Ready, Consistent, Held, Exec, GoodEcho, WorkOk, UrlPlain;
    RunData(c, local, evs);
  }

  /** Exactly when a fetcher that met no error leaves its whole list known: when every id that was
      missing is one a request path can carry, free of '/', '%', '?', '#' and control bytes. */
  lemma CompleteIff(c: Config, local: World, evs: seq<Event>, j: nat)
    requires Ready(c) && Consistent(c.sum, local) && Exec(c, local, evs).Some?
    requires |Exec(c, local, evs).value.local.files.log| <= MAX_INT64
    requires var s := Exec(c, local, evs).value;
             s.master.Returned? && j < |s.workers| && !s.workers[j].cut
    requires var l := ListOf(c, Exec(c, local, evs).value.workers[j].echo);
             Alone(c, Exec(c, local, evs).value.workers[j].echo) && Prefix(Held(c, local), l)
             && (c.limit <= 0 || !c.feature || WindowCovers(Held(c, local), l, c.limit))
    ensures var s := Exec(c, local, evs).value;
            var l := ListOf(c, s.workers[j].echo);
            AllKnown(Held(c, s.local), l)
            <==> forall i :: 0 <= i < |l| ==> l[i] in Held(c, local) || UrlPlain(l[i])
  {
    hide Ready, Consistent, Held, Prefix, WindowCovers, ListOf, Echoes, Valid, Exec, UrlPlain, Alone;
    var s := Exec(c, local, evs).value;
    var l := ListOf(c, s.workers[j].echo);
    FetchComplete(c, local, evs);
    if i :| 0 <= i < |l| && l[i] !in Held(c, local) && !UrlPlain(l[i]) {
      NeverArrives(c, local, evs, l[i]);
    }
  }

  // ---------------------------------------------------------------- runs without errors

  ghost predicate AllPaths(ids: seq<Str>) { forall i :: 0 <= i < |ids| ==> PlainPath(ids[i]) }

  /** The fetcher has met no error, and what it has yet to send can be sent. */
  ghost predicate CalmOk(w: Worker) {
    !w.cut
    && match w.pc
       case Listing(todo, res) => AllPaths(todo) && AllPaths(res)
       case Sending(left) => AllPaths(left)
       case Saving(_, left) => AllPaths(left)
       case _ => true
  }

  lemma PathSends(batch: seq<Str>)
    requires batch != [] && AllPaths(batch)
    ensures Elements(batch).Some?
  {
    hide Arrive, Request, Join, PlainPath;
    RequestIsJoin(batch);
    assert Request(batch)[1..] == Join(batch, SLASH);
    JoinPath(batch);
    PlainArrives(Join(batch, SLASH));
  }

  lemma PathsOf(l: seq<Str>, limit: int)
    requires AllPaths(l)
    ensures AllPaths(Asked(l, limit))
  {
    hide PlainPath;
  }

  lemma CalmBody(c: Config, local: World, w: Worker, now: int)
    requires Ready(c) && IsEcho(w.echo) && UrlPlain(w.echo) && LimitOk(w.pc)
    requires InBody(w.pc) && CalmOk(w) && AllPaths(ListOf(c, w.echo))
    ensures var o := BodyStep(c, local, w.echo, w.pc, now);
            CalmOk(Worker(w.echo, o.pc, w.cut || o.cut))
  {
    hide Listed, Table, ListOf, Ready, IsEcho, UrlPlain, Exists, Looked, IsMsgId, Concat, SlicePath, Elements, Asked,
         PlainPath, Decode, Do, Db.MLines, Wrap, AllIds, T.NoDups, Slice;
    match w.pc
    case AskLast => Reads(c, w.echo, -1, 1);
    case Probing(limit, _) => Reads(c, w.echo, Wrap(-limit), 1);
    case Asking(limit) =>
      PlainAsks(c, w.echo, limit);
      PathsOf(ListOf(c, w.echo), limit);
    case Sending(left) => if left != [] { PathSends(Batch(left)); }
    case _ =>
  }

  /** When all listed ids and the echo names can be sent as they are, slashes in ids included, a
      run without network errors cuts no fetcher. */
  lemma {:induction false} CalmRun(c: Config, local: World, evs: seq<Event>)
    requires Ready(c) && Exec(c, local, evs).Some? && Calm(evs)
    requires forall i :: 0 <= i < |c.echoes| && IsEcho(c.echoes[i]) ==>
               UrlPlain(c.echoes[i]) && AllPaths(ListOf(c, c.echoes[i]))
    ensures var s := Exec(c, local, evs).value;
            forall j :: 0 <= j < |s.workers| ==> CalmOk(s.workers[j])
  {
    hide Ready, ControlOk, CalmOk, Step, Enabled, IsEcho, ListOf, AllPaths, LimitsOk, UrlPlain;
    if evs != [] {
      var before, ev := evs[..|evs| - 1], evs[|evs| - 1];
      CalmRun(c, local, before);
      RunControl(c, local, before);
      RunsAreFinite(c, local, before);
      CalmStep(c, Exec(c, local, before).value, ev);
    }
  }

  lemma CalmStep(c: Config, s: Sys, ev: Event)
    requires Ready(c) && ControlOk(c, s) && LimitsOk(s.workers) && Enabled(c, s, ev) && !ev.Fail?
    requires forall i :: 0 <= i < |c.echoes| && IsEcho(c.echoes[i]) ==>
               UrlPlain(c.echoes[i]) && AllPaths(ListOf(c, c.echoes[i]))
    requires forall j :: 0 <= j < |s.workers| ==> CalmOk(s.workers[j])
    ensures forall j :: 0 <= j < |Step(c, s, ev).workers| ==> CalmOk(Step(c, s, ev).workers[j])
  {
    hide Ready, ControlOk, IsEcho, ListOf, AllPaths, BodyStep, UrlPlain;
    if ev.W? {
      var w := s.workers[ev.j];
      WorkerEcho(c, s, ev.j);
      if InBody(w.pc) { CalmBody(c, s.local, w, ev.now); }
    }
  }

  /** When no listed id can be carried by a request path, nothing is ever stored. */
  lemma {:induction false} NothingStored(c: Config, local: World, evs: seq<Event>)
    requires Ready(c) && Consistent(c.sum, local) && Exec(c, local, evs).Some?
    requires forall i :: 0 <= i < |c.echoes| && IsEcho(c.echoes[i]) ==>
               UrlPlain(c.echoes[i]) && forall x :: x in ListOf(c, c.echoes[i]) ==> !UrlPlain(x)
    ensures Exec(c, local, evs).value.local.files.log == local.files.log
  {
    hide Ready, Consistent, ControlOk, DataOk, Step, Enabled, IsEcho, ListOf, UrlPlain;
    if evs != [] {
      var before, ev := evs[..|evs| - 1], evs[|evs| - 1];
      NothingStored(c, local, before);
      LogFits(c.sum, local);
      RunData(c, local, before);
      RunControl(c, local, before);
      SameLog(c, Held(c, local), Exec(c, local, before).value, ev);
    }
  }

  lemma SameLog(c: Config, was: set<Str>, s: Sys, ev: Event)
    requires Ready(c) && ControlOk(c, s) && DataOk(c, was, s) && Enabled(c, s, ev)
    requires forall i :: 0 <= i < |c.echoes| && IsEcho(c.echoes[i]) ==>
               UrlPlain(c.echoes[i]) && forall x :: x in ListOf(c, c.echoes[i]) ==> !UrlPlain(x)
    ensures Step(c, s, ev).local.files.log == s.local.files.log
  {
    hide Ready, ControlOk, Consistent, Held, GoodEcho, ListOf, IsEcho, UrlPlain, Listed, SlicePath, Elements, Decode, Do,
         Table, Batch, IsMsgId, Concat, Db.MLines, Wrap, Prefix, Exists, Looked, AllCarried, IdsIn, Theirs;
    if ev.W? && InBody(s.workers[ev.j].pc) {
      var w := s.workers[ev.j];
      WorkerEcho(c, s, ev.j);
      assert WorkOk(c, was, Held(c, s.local), w);
      LookedLog(c, s.local);
      if w.pc.Saving? { NoLines(c, w); }
    }
  }

  lemma LookedLog(c: Config, local: World)
    ensures Looked(c, local).files.log == local.files.log
  {
    hide Refresh;
    RefreshKeepsLog(c.sum, local.files, HandleOf(local, c.h));
  }

  lemma FirstTheirs(c: Config, e: Str, ids: seq<Str>)
    requires ids != [] && AllTheirs(c, e, ids) && AllUrlPlain(ids) && UrlPlain(e)
    ensures ids[0] in ListOf(c, e) && UrlPlain(ids[0])
  {
    hide ListOf, UrlPlain, Theirs;
    TheirsPlain(c, e, ids[0]);
  }

  lemma NoLines(c: Config, w: Worker)
    requires w.pc.Saving? && AllTheirs(c, w.echo, IdsIn(c.sum, w.pc.lines)) && AllUrlPlain(IdsIn(c.sum, w.pc.lines))
    requires UrlPlain(w.echo) && forall x :: x in ListOf(c, w.echo) ==> !UrlPlain(x)
    ensures w.pc.lines == []
  {
    hide ListOf, UrlPlain, Decode, AllTheirs;
    var ids := IdsIn(c.sum, w.pc.lines);
    if ids != [] {
      FirstTheirs(c, w.echo, ids);
      assert false;
    }
  }
}
