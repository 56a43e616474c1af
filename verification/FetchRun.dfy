/** Fetch with its goroutines: a master that bounds the number of running fetchers with a
    condition variable, and one fetcher per echo, in every interleaving. Fetchers talk to a remote
    node by request texts and answer lines, and store into the database of the local one. */
module FetchRun {
  import opened Bytes
  import opened Codec
  import opened Log
  import opened Store
  import opened Url
  import opened Serve
  import opened Fetch
  import Db
  import Q = Query
  import T = Tags

  /** What does not change during a run: the remote node and the handle it answers from, the handle
      all fetchers store through, and the arguments and features of the fetch. */
  datatype Config = Config(sum: Str -> Str, remote: World, rh: nat, h: nat, echoes: seq<Str>,
                           limit: int, max: int, force: bool, feature: bool)

  /** The node as every request finds it, its handle refreshed. */
  function Node(c: Config): Refreshed { Refresh(c.sum, c.remote.files, HandleOf(c.remote, c.rh)) }

  /** The table it answers from. */
  ghost function Table(c: Config): (ix: Index)
    ensures Sound(ix)
  {
    EmptySound();
    var r := Node(c);
    if r.status == Good && r.handle.Open? && Sound(r.handle.ix) then r.handle.ix else EMPTY
  }

  lemma EmptySound()
    ensures Sound(EMPTY)
  {
  }

  /** The remote's list of an echo. */
  ghost function ListOf(c: Config, e: Str): seq<Str> { Public(Table(c), e) }

  /** The ids a handle knows. */
  function IdsOf(h: Handle): set<Str> { if h.Open? then h.ix.hash.Keys else {} }

  /** db.Exists looks through a handle that it refreshes first. */
  function Looked(c: Config, local: World): World { Do(c.sum, local, Load(c.h)) }

  predicate Exists(c: Config, local: World, id: Str) { id in IdsOf(HandleOf(Looked(c, local), c.h)) }

  /** Where a fetcher stands. After `Finished` come its two deferred calls: wait.Done, then the
      broadcast under the lock. */
  datatype Pc =
    | AskLast
    | Probing(limit: int, tries: nat)
    | Asking(limit: int)
    | Listing(todo: seq<Str>, res: seq<Str>)
    | Sending(left: seq<Str>)
    | Saving(lines: seq<Str>, left: seq<Str>)
    | Finished
    | WantLock
    | HasLock
    | Sent
    | Gone

  /** `cut` records that a request failed and ended the fetcher early. */
  datatype Worker = Worker(echo: Str, pc: Pc, cut: bool)

  /** Where the master stands: `i` is the position in the echo list, `num` the fetchers counted. */
  datatype Master =
    | Next(i: nat, num: nat)
    | Locked(i: nat, num: nat)
    | Started(i: nat, num: nat)
    | Waiting(i: nat, num: nat)
    | Woken(i: nat, num: nat)
    | Relocked(i: nat, num: nat)
    | Joining
    | Returned

  datatype Lock = Free | ByMaster | ByWorker(j: nat)

  datatype Sys = Sys(local: World, workers: seq<Worker>, master: Master, lock: Lock)

  /** Who moves: the master, a fetcher (at the time `now`), or a network error hitting a fetcher. */
  datatype Event = M | W(j: nat, now: int) | Fail(j: nat)

  // ---------------------------------------------------------------- the fetcher's body

  predicate InBody(pc: Pc) {
    pc.AskLast? || pc.Probing? || pc.Asking? || pc.Listing? || pc.Sending? || pc.Saving?
  }

  /** How the body goes on once the last id did not end it. */
  function Begin(c: Config): Pc { if c.limit < 0 then Probing(Wrap(-c.limit), 0) else Asking(c.limit) }

  datatype Out = Out(pc: Pc, local: World, cut: bool)

  /** One step of the body: one request, or one call of the local database. */
  ghost function BodyStep(c: Config, local: World, e: Str, pc: Pc, now: int): Out
    requires InBody(pc)
  {
    match pc
    case AskLast =>
      if !c.feature then Out(Asking(0), local, false)
      else if c.force then Out(Begin(c), local, false)
      else
        (match Listed(Table(c), SlicePath(e, -1, 1))
         case None => Out(Finished, local, true)
         case Some(lines) =>
           if !IsMsgId(Concat(lines)) then Out(Finished, local, false)
           else
             Out(if Exists(c, local, Concat(lines)) then Finished else Begin(c), Looked(c, local), false))
    case Probing(limit, tries) =>
      if tries > 16 then Out(Asking(0), local, false)
      else
        (match Listed(Table(c), SlicePath(e, Wrap(-limit), 1))
         case None => Out(Asking(0), local, false)
         case Some(lines) =>
           if !IsMsgId(Concat(lines)) then Out(Asking(0), local, false)
           else
             Out(if Exists(c, local, Concat(lines)) then Asking(limit)
                 else Probing(Wrap(limit * 2), tries + 1),
                 Looked(c, local), false))
    case Asking(limit) =>
      (match Listed(Table(c), if limit > 0 then SlicePath(e, -limit, limit) else e)
       case None => Out(Finished, local, true)
       case Some(lines) => Out(Listing(lines, []), local, false))
    case Listing(todo, res) =>
      if todo == [] then Out(Sending(res), local, false)
      else
        Out(Listing(todo[1..], if Exists(c, local, todo[0]) then res else res + [todo[0]]),
            Looked(c, local), false)
    case Sending(left) =>
      if left == [] then Out(Finished, local, false)
      else
        var rest := left[|Batch(left)|..];
        (match Elements(Batch(left))
         case None => Out(Finished, local, true)
         case Some(ids) => Out(Saving(Db.MLines(Node(c).files, Node(c).handle, ids), rest), local, false))
    case Saving(lines, left) =>
      if lines == [] then Out(Sending(left), local, false)
      else
        match Decode(c.sum, lines[0])
        case Err(_) => Out(Saving(lines[1..], left), local, false)
        case Ok(m) => Out(Saving(lines[1..], left), Do(c.sum, local, Save(c.h, m, now, false)), false)
  }

  /** A network error ends the fetcher, except while probing, where it falls back to a full list. */
  function AfterError(w: Worker): Worker {
    if w.pc.Probing? then w.(pc := Asking(0)) else w.(pc := Finished, cut := true)
  }

  // ---------------------------------------------------------------- steps

  /** The fetcher has not broadcast yet. */
  predicate Active(w: Worker) { !w.pc.Sent? && !w.pc.Gone? }

  /** wait.Done has been called. */
  predicate Done(w: Worker) { w.pc.WantLock? || w.pc.HasLock? || w.pc.Sent? || w.pc.Gone? }

  predicate AllDone(ws: seq<Worker>) { forall j :: 0 <= j < |ws| ==> Done(ws[j]) }

  predicate Enabled(c: Config, s: Sys, ev: Event) {
    match ev
    case M =>
      (match s.master
       case Next(i, num) =>
         !(i < |c.echoes| && IsEcho(c.echoes[i]) && num + 1 >= c.max) || s.lock.Free?
       case Waiting(_, _) => false
       case Woken(_, _) => s.lock.Free?
       case Joining => AllDone(s.workers)
       case Returned => false
       case _ => true)
    case W(j, now) =>
      j < |s.workers| && !s.workers[j].pc.Gone? && (s.workers[j].pc.WantLock? ==> s.lock.Free?)
      && MIN_INT64 <= now <= MAX_INT64
    case Fail(j) => j < |s.workers| && InBody(s.workers[j].pc)
  }

  function Spawn(c: Config, s: Sys, i: nat): seq<Worker>
    requires i < |c.echoes|
  {
    s.workers + [Worker(c.echoes[i], AskLast, false)]
  }

  function MasterStep(c: Config, s: Sys): Sys
    requires Enabled(c, s, M)
  {
    match s.master
    case Next(i, num) =>
      if i >= |c.echoes| then s.(master := Joining)
      else if !IsEcho(c.echoes[i]) then s.(master := Next(i + 1, num))
      else if num + 1 >= c.max then s.(master := Locked(i, num + 1), lock := ByMaster)
      else s.(workers := Spawn(c, s, i), master := Next(i + 1, num + 1))
    case Locked(i, num) =>
      if i >= |c.echoes| then s else s.(workers := Spawn(c, s, i), master := Started(i, num))
    // Wait parks the master and releases the lock in one step.
    case Started(i, num) => s.(master := Waiting(i, num), lock := Free)
    case Woken(i, num) => s.(master := Relocked(i, num), lock := ByMaster)
    case Relocked(i, num) => s.(master := Next(i + 1, num), lock := Free)
    case Joining => s.(master := Returned)
    case _ => s
  }

  /** Broadcast wakes the master if it is parked, and is lost otherwise. */
  function Wake(m: Master): Master { if m.Waiting? then Woken(m.i, m.num) else m }

  ghost function WorkerStep(c: Config, s: Sys, j: nat, now: int): Sys
    requires Enabled(c, s, W(j, now))
  {
    var w := s.workers[j];
    if InBody(w.pc) then
      var o := BodyStep(c, s.local, w.echo, w.pc, now);
      s.(local := o.local, workers := s.workers[j := Worker(w.echo, o.pc, w.cut || o.cut)])
    else
      match w.pc
      case Finished => s.(workers := s.workers[j := w.(pc := WantLock)])
      case WantLock => s.(workers := s.workers[j := w.(pc := HasLock)], lock := ByWorker(j))
      case HasLock => s.(workers := s.workers[j := w.(pc := Sent)], master := Wake(s.master))
      case _ => s.(workers := s.workers[j := w.(pc := Gone)], lock := Free)
  }

  ghost function Step(c: Config, s: Sys, ev: Event): Sys
    requires Enabled(c, s, ev)
  {
    match ev
    case M => MasterStep(c, s)
    case W(j, now) => WorkerStep(c, s, j, now)
    case Fail(j) => s.(workers := s.workers[j := AfterError(s.workers[j])])
  }

  function Start(local: World): Sys { Sys(local, [], Next(0, 0), Free) }

  /** The state after a sequence of events, if each is possible in turn. */
  ghost function Exec(c: Config, local: World, evs: seq<Event>): Option<Sys> {
    if evs == [] then Some(Start(local))
    else
      var r, ev := Exec(c, local, evs[..|evs| - 1]), evs[|evs| - 1];
      if r.Some? && Enabled(c, r.value, ev) then Some(Step(c, r.value, ev)) else None
  }

  // ---------------------------------------------------------------- counting

  function CountActive(ws: seq<Worker>): nat {
    if ws == [] then 0
    else CountActive(ws[..|ws| - 1]) + if Active(ws[|ws| - 1]) then 1 else 0
  }

  lemma {:induction false} CountUpdate(ws: seq<Worker>, j: nat, w: Worker)
    requires j < |ws|
    ensures CountActive(ws[j := w]) == CountActive(ws) - (if Active(ws[j]) then 1 else 0)
                                       + (if Active(w) then 1 else 0)
  {
    hide Active;
    var n := |ws| - 1;
    if j < n {
      assert ws[j := w][..n] == ws[..n][j := w];
      CountUpdate(ws[..n], j, w);
    } else {
      assert ws[j := w][..n] == ws[..n];
    }
  }

  lemma CountSpawn(ws: seq<Worker>, w: Worker)
    requires Active(w)
    ensures CountActive(ws + [w]) == CountActive(ws) + 1
  {
    assert (ws + [w])[..|ws|] == ws;
  }

  lemma {:induction false} CountBound(ws: seq<Worker>)
    ensures CountActive(ws) <= |ws|
  {
    if ws != [] { CountBound(ws[..|ws| - 1]); }
  }

  // ---------------------------------------------------------------- control invariant

  function Cap(c: Config): nat { if c.max > 1 then c.max else 1 }

  function Valid(echoes: seq<Str>): seq<Str> {
    if echoes == [] then []
    else
      var e := echoes[|echoes| - 1];
      Valid(echoes[..|echoes| - 1]) + if IsEcho(e) then [e] else []
  }

  function Echoes(ws: seq<Worker>): (r: seq<Str>)
    ensures |r| == |ws| && forall j :: 0 <= j < |ws| ==> r[j] == ws[j].echo
  {
    seq(|ws|, j requires 0 <= j < |ws| => ws[j].echo)
  }

  /** How many echoes of the list have been dealt with. */
  function Handled(c: Config, m: Master): nat {
    match m
    case Next(i, _) => i
    case Locked(i, _) => i
    case Started(i, _) => i + 1
    case Waiting(i, _) => i + 1
    case Woken(i, _) => i + 1
    case Relocked(i, _) => i + 1
    case _ => |c.echoes|
  }

  predicate HoldsLock(pc: Pc) { pc.HasLock? || pc.Sent? }

  /** The lock is held by at most one party, and by the one that thinks so. */
  ghost predicate LockOk(s: Sys) {
    && (s.lock.ByMaster? <==> s.master.Locked? || s.master.Started? || s.master.Relocked?)
    && (forall j :: 0 <= j < |s.workers| ==>
          (HoldsLock(s.workers[j].pc) <==> s.lock == ByWorker(j)))
    && (s.lock.ByWorker? ==> s.lock.j < |s.workers|)
  }

  /** One fetcher per valid echo dealt with, in list order. */
  ghost predicate SpawnOk(c: Config, s: Sys) {
    && Handled(c, s.master) <= |c.echoes|
    && Echoes(s.workers) == Valid(c.echoes[..Handled(c, s.master)])
    && (s.master.Locked? ==> s.master.i < |c.echoes| && IsEcho(c.echoes[s.master.i])
                             && s.master.num == |s.workers| + 1 >= c.max)
    && (s.master.Next? ==> s.master.num == |s.workers|)
    && (s.master.Started? || s.master.Waiting? || s.master.Woken? || s.master.Relocked? ==>
          s.master.num == |s.workers|)
  }

  /** At most Cap fetchers have not broadcast; outside the wait there is room for one more; and
      while the master waits unwoken, the fetcher it just started has not broadcast. */
  ghost predicate BoundOk(c: Config, s: Sys) {
    && (s.master.Started? || s.master.Waiting? ==>
          CountActive(s.workers) <= Cap(c) && s.workers != [] && Active(s.workers[|s.workers| - 1]))
    && (!s.master.Started? && !s.master.Waiting? ==> CountActive(s.workers) <= Cap(c) - 1)
  }

  ghost predicate ControlOk(c: Config, s: Sys) { LockOk(s) && SpawnOk(c, s) && BoundOk(c, s) }

  lemma StartControl(c: Config, local: World)
    ensures ControlOk(c, Start(local))
  {
    assert c.echoes[..0] == [];
  }

  lemma ValidNext(echoes: seq<Str>, i: nat)
    requires i < |echoes|
    ensures Valid(echoes[..i + 1]) == Valid(echoes[..i]) + if IsEcho(echoes[i]) then [echoes[i]] else []
  {
    hide IsEcho;
    assert echoes[..i + 1][..i] == echoes[..i];
  }

  lemma EchoesSpawn(ws: seq<Worker>, w: Worker)
    ensures Echoes(ws + [w]) == Echoes(ws) + [w.echo]
  {
  }

  lemma MasterControl(c: Config, s: Sys)
    requires ControlOk(c, s) && Enabled(c, s, M)
    ensures ControlOk(c, MasterStep(c, s))
  {
    hide IsEcho, Valid, Echoes, CountActive;
    CountBound(s.workers);
    match s.master
    case Next(i, num) =>
      if i < |c.echoes| {
        ValidNext(c.echoes, i);
        EchoesSpawn(s.workers, Worker(c.echoes[i], AskLast, false));
        CountSpawn(s.workers, Worker(c.echoes[i], AskLast, false));
        assert Valid(c.echoes[..i]) + [] == Valid(c.echoes[..i]);
      }
    case Locked(i, num) =>
      ValidNext(c.echoes, i);
      EchoesSpawn(s.workers, Worker(c.echoes[i], AskLast, false));
      CountSpawn(s.workers, Worker(c.echoes[i], AskLast, false));
    case _ =>
  }

  /** Replacing one fetcher's program counter, echo and all else unchanged. */
  lemma EchoesUpdate(ws: seq<Worker>, j: nat, w: Worker)
    requires j < |ws| && w.echo == ws[j].echo
    ensures Echoes(ws[j := w]) == Echoes(ws)
  {
  }

  lemma WorkerControl(c: Config, s: Sys, j: nat, now: int)
    requires ControlOk(c, s) && Enabled(c, s, W(j, now))
    ensures ControlOk(c, WorkerStep(c, s, j, now))
  {
    hide IsEcho, Valid, Echoes, CountActive, BodyStep;
    var w := s.workers[j];
    var next := WorkerStep(c, s, j, now).workers[j];
    BodyStays(c, s, j, now);
    CountUpdate(s.workers, j, next);
    EchoesUpdate(s.workers, j, next);
  }

  lemma BodyStays(c: Config, s: Sys, j: nat, now: int)
    requires Enabled(c, s, W(j, now))
    ensures var w, t := s.workers[j], WorkerStep(c, s, j, now);
            |t.workers| == |s.workers| && t.workers == s.workers[j := t.workers[j]]
            && t.workers[j].echo == w.echo
            && (InBody(w.pc) ==> InBody(t.workers[j].pc) || t.workers[j].pc.Finished?)
  {
    hide Listed, SlicePath, Exists, Looked, Elements, Decode, Do, Table, Batch, Wrap, IsMsgId, Concat, Db.MLines;
  }

  lemma FailControl(c: Config, s: Sys, j: nat)
    requires ControlOk(c, s) && Enabled(c, s, Fail(j))
    ensures ControlOk(c, Step(c, s, Fail(j)))
  {
    hide IsEcho, Valid, Echoes, CountActive;
    var next := AfterError(s.workers[j]);
    CountUpdate(s.workers, j, next);
    EchoesUpdate(s.workers, j, next);
  }

  lemma StepControl(c: Config, s: Sys, ev: Event)
    requires ControlOk(c, s) && Enabled(c, s, ev)
    ensures ControlOk(c, Step(c, s, ev))
  {
    hide ControlOk, Enabled, MasterStep, WorkerStep;
    match ev
    case M => MasterControl(c, s);
    case W(j, now) => WorkerControl(c, s, j, now);
    case Fail(j) => FailControl(c, s, j);
  }

  /** In every interleaving at most max(1, MaxConnections) started fetchers have not broadcast,
      the fetchers started so far are exactly one per valid echo dealt with, and a master that is
      parked is parked on a fetcher that has not broadcast. */
  lemma {:induction false} RunControl(c: Config, local: World, evs: seq<Event>)
    requires Exec(c, local, evs).Some?
    ensures var s := Exec(c, local, evs).value;
            ControlOk(c, s)
            && CountActive(s.workers) <= (if c.max > 1 then c.max else 1)
            && (s.master.Waiting? ==> s.workers != [] && Active(s.workers[|s.workers| - 1]))
            && (s.master.Returned? ==> Echoes(s.workers) == Valid(c.echoes))
  {
    hide ControlOk, Step, Enabled;
    if evs == [] {
      StartControl(c, local);
    } else {
      var before := evs[..|evs| - 1];
      RunControl(c, local, before);
      StepControl(c, Exec(c, local, before).value, evs[|evs| - 1]);
    }
    ControlMeans(c, Exec(c, local, evs).value);
  }

  lemma ControlMeans(c: Config, s: Sys)
    requires ControlOk(c, s)
    ensures CountActive(s.workers) <= (if c.max > 1 then c.max else 1)
    ensures s.master.Waiting? ==> s.workers != [] && Active(s.workers[|s.workers| - 1])
    ensures s.master.Returned? ==> Echoes(s.workers) == Valid(c.echoes)
  {
    hide CountActive, Valid;
    assert c.echoes[..|c.echoes|] == c.echoes;
  }

  // ---------------------------------------------------------------- no deadlock

  ghost predicate Final(s: Sys) { s.master.Returned? && forall j :: 0 <= j < |s.workers| ==> s.workers[j].pc.Gone? }

  /** Nobody is ever stuck: in every reachable state that is not final someone can move, and
      without waiting for a network error. */
  lemma SomeoneMoves(c: Config, s: Sys)
    requires ControlOk(c, s) && !Final(s)
    ensures Enabled(c, s, M) || exists j: nat :: Enabled(c, s, W(j, 0))
  {
    hide IsEcho, CountActive, Valid, Echoes;
    if j :| 0 <= j < |s.workers| && !s.workers[j].pc.Gone? && !s.workers[j].pc.WantLock? {
      assert Enabled(c, s, W(j, 0));
    } else {
      NobodyHolds(s);
      if j :| 0 <= j < |s.workers| && s.workers[j].pc.WantLock? {
        if s.lock.Free? { assert Enabled(c, s, W(j, 0)); }
      }
    }
  }

  lemma NobodyHolds(s: Sys)
    requires LockOk(s) && forall j :: 0 <= j < |s.workers| ==> !HoldsLock(s.workers[j].pc)
    ensures !s.lock.ByWorker?
  {
  }

  // ---------------------------------------------------------------- the remote

  /** A consistent remote and a 64-bit limit. Nothing is asked of the echo names. */
  ghost predicate Ready(c: Config) {
    GoodSum(c.sum) && Consistent(c.sum, c.remote) && MIN_INT64 <= c.limit <= MAX_INT64
  }

  /** The node answers from the table its log means. */
  lemma NodeReady(c: Config)
    requires Ready(c)
    ensures Table(c) == View(c.sum, Lines(c.remote.files.log)) && AllIds(Table(c).list)
  {
    hide View, Lines, Refresh, IndexText, HandleOf, Sound, Snapshot, GoodLog, IsMsgId;
    HandleSnapshotOf(c.sum, c.remote, c.rh);
    RefreshGood(c.sum, c.remote.files, HandleOf(c.remote, c.rh));
    ViewSound(c.sum, Lines(c.remote.files.log));
    LinesFree(c.remote.files.log);
    Db.ViewPlainIds(c.sum, Lines(c.remote.files.log));
    var v := View(c.sum, Lines(c.remote.files.log));
    forall i | 0 <= i < |v.list| ensures IsMsgId(v.list[i]) { ListedKnown(v, i); }
  }

  lemma ListedKnown(ix: Index, i: nat)
    requires Sound(ix) && i < |ix.list|
    ensures ix.list[i] in ix.hash
  {
  }

  /** What a fetcher of a plain echo reads. */
  lemma Reads(c: Config, e: Str, start: int, lim: int)
    requires Ready(c) && IsEcho(e) && UrlPlain(e)
    requires MIN_INT64 <= start <= MAX_INT64 && MIN_INT64 <= lim <= MAX_INT64
    ensures Listed(Table(c), SlicePath(e, start, lim)) == Some(Slice(ListOf(c, e), start, lim))
    ensures Listed(Table(c), e) == Some(ListOf(c, e))
    ensures AllIds(ListOf(c, e)) && T.NoDups(ListOf(c, e))
  {
    hide Listed, Sound, Public, Slice, IsEcho, Table, Ready, UrlPlain, T.NoDups;
    NodeReady(c);
    RequestAnswered(Table(c), e, start, lim);
    PublicIds(Table(c), e);
    EchoNotEmpty(e);
    PublicDistinct(Table(c), e, e);
  }

  lemma EchoNotEmpty(e: Str)
    requires IsEcho(e)
    ensures e != []
  {
  }

  // ---------------------------------------------------------------- every run is finite

  /** What storing these ids may still cost. */
  function Weight(ids: seq<Str>): nat {
    if ids == [] then 0 else Weight(ids[..|ids| - 1]) + |ids[|ids| - 1]| + 3
  }

  lemma {:induction false} WeightAppend(a: seq<Str>, b: seq<Str>)
    ensures Weight(a + b) == Weight(a) + Weight(b)
  {
    if b == [] {
      assert a + b == a;
    } else {
      assert (a + b)[..|a + b| - 1] == a + b[..|b| - 1];
      WeightAppend(a, b[..|b| - 1]);
    }
  }

  lemma WeightOne(x: Str)
    ensures Weight([x]) == |x| + 3
  {
    assert [x][..0] == [];
  }

  lemma {:induction false} RequestLength(batch: seq<Str>)
    ensures |Request(batch)| + 2 * |batch| == Weight(batch)
  {
    if batch != [] { RequestLength(batch[..|batch| - 1]); }
  }

  lemma {:induction false} FewLines(f: Files, h: Handle, ids: seq<Str>)
    ensures |Db.MLines(f, h, ids)| <= |ids|
  {
    hide BundleOf, Known;
    if ids != [] { FewLines(f, h, ids[..|ids| - 1]); }
  }

  /** A batch is answered with fewer lines than its weight. */
  lemma BatchShort(f: Files, h: Handle, batch: seq<Str>)
    requires batch != [] && Elements(batch).Some?
    ensures |Db.MLines(f, h, Elements(batch).value)| + 1 < Weight(batch)
  {
    hide Arrive, Split, Request, Weight, Db.MLines;
    RequestIsJoin(batch);
    RequestLength(batch);
    ArriveShort(Request(batch)[1..]);
    FewLines(f, h, Elements(batch).value);
  }

  function Over(tries: nat): nat { if tries < 18 then 18 - tries else 0 }

  function Size(ids: seq<Str>): nat { Weight(ids) + |ids| }

  /** How many more steps a fetcher can take, `n` bounding what its echo's list may cost. */
  function PcRank(n: nat, pc: Pc): nat {
    match pc
    case AskLast => 27 + n
    case Probing(_, tries) => 8 + n + Over(tries)
    case Asking(_) => 7 + n
    case Listing(todo, res) => 6 + Size(todo) + Weight(res)
    case Sending(left) => 5 + Weight(left)
    case Saving(lines, left) => 6 + |lines| + Weight(left)
    case Finished => 4
    case WantLock => 3
    case HasLock => 2
    case Sent => 1
    case Gone => 0
  }

  ghost function Rank(c: Config, w: Worker): nat { PcRank(Reach(c, w.echo), w.pc) }

  ghost function Ranks(c: Config, ws: seq<Worker>): nat {
    if ws == [] then 0 else Ranks(c, ws[..|ws| - 1]) + Rank(c, ws[|ws| - 1])
  }

  /** What the rest of the echo list may still cost. */
  ghost function Cost(c: Config, i: nat): nat
    decreases |c.echoes| - i
  {
    if i >= |c.echoes| then 0 else 34 + Reach(c, c.echoes[i]) + Cost(c, i + 1)
  }

  ghost function MasterRank(c: Config, m: Master): nat {
    match m
    case Next(i, _) => Cost(c, i) + 2
    case Locked(i, _) => if i < |c.echoes| then Cost(c, i) + 1 else 7
    case Started(i, _) => Cost(c, i + 1) + 6
    case Waiting(i, _) => Cost(c, i + 1) + 5
    case Woken(i, _) => Cost(c, i + 1) + 4
    case Relocked(i, _) => Cost(c, i + 1) + 3
    case Joining => 1
    case Returned => 0
  }

  ghost function Measure(c: Config, s: Sys): nat { MasterRank(c, s.master) + Ranks(c, s.workers) }

  lemma {:induction false} RanksUpdate(c: Config, ws: seq<Worker>, j: nat, w: Worker)
    requires j < |ws|
    ensures Ranks(c, ws[j := w]) == Ranks(c, ws) - Rank(c, ws[j]) + Rank(c, w)
  {
    hide Rank;
    var n := |ws| - 1;
    if j < n {
      assert ws[j := w][..n] == ws[..n][j := w];
      RanksUpdate(c, ws[..n], j, w);
    } else {
      assert ws[j := w][..n] == ws[..n];
    }
  }

  lemma RanksSpawn(c: Config, ws: seq<Worker>, w: Worker)
    ensures Ranks(c, ws + [w]) == Ranks(c, ws) + Rank(c, w)
  {
    assert (ws + [w])[..|ws|] == ws;
  }

  /** What a fetcher of a plain echo asks for. */
  lemma PlainAsks(c: Config, e: Str, limit: int)
    requires Ready(c) && IsEcho(e) && UrlPlain(e) && limit <= MAX_INT64
    ensures Listed(Table(c), if limit > 0 then SlicePath(e, -limit, limit) else e) == Some(Asked(ListOf(c, e), limit))
  {
    hide Listed, Slice, Table, Ready, IsEcho, UrlPlain, ListOf, AllIds, SlicePath, T.NoDups;
    if limit > 0 { Reads(c, e, -limit, limit); } else { Reads(c, e, 0, 0); }
  }

  // The answer to any request, whatever the echo is called.

  lemma {:induction false} PassingSmall(f: Q.Filter, infos: seq<Info>)
    ensures Size(Q.Ids(Q.Passing(f, infos))) <= Size(Q.Ids(infos))
  {
    hide Q.Pass, Weight;
    if infos != [] {
      var n := |infos| - 1;
      var p, x := Q.Passing(f, infos[..n]), infos[n];
      PassingSmall(f, infos[..n]);
      assert Q.Ids(infos) == Q.Ids(infos[..n]) + [x.id];
      assert Q.Ids(p + [x]) == Q.Ids(p) + [x.id];
      WeightAppend(Q.Ids(infos[..n]), [x.id]);
      WeightAppend(Q.Ids(p), [x.id]);
      assert p + [] == p;
    }
  }

  lemma PublicSmall(ix: Index, e: Str, start: int, lim: int)
    requires Sound(ix)
    ensures Size(Slice(Public(ix, e), start, lim)) <= Size(ix.list)
  {
    hide Q.Passing, Sound, Slice, Weight;
    PassingSmall(Q.Listing(e, [], false), Q.Records(ix));
    RecordIds(ix);
    SliceSmall(Public(ix, e), start, lim);
  }

  lemma RecordIds(ix: Index)
    requires Sound(ix)
    ensures Q.Ids(Q.Records(ix)) == ix.list
  {
  }

  lemma SliceSmall(l: seq<Str>, start: int, lim: int)
    ensures Size(Slice(l, start, lim)) <= Size(l)
  {
    hide Weight;
    var n := |l|;
    var from := if start < 0 then Q.Max(0, n + start) else Q.Min(start, n);
    var to := if lim > 0 then Q.Min(from + lim, n) else n;
    assert Slice(l, start, lim) == l[from..to];
    assert l == l[..from] + (l[from..to] + l[to..]);
    WeightAppend(l[..from], l[from..to] + l[to..]);
    WeightAppend(l[from..to], l[to..]);
  }

  lemma {:induction false} BlocksSmall(ix: Index, echoes: seq<Str>, start: int, lim: int)
    requires Sound(ix) && AllIds(ix.list)
    ensures Size(Payload(Blocks(ix, echoes, [], start, lim))) <= |echoes| * Size(ix.list)
  {
    hide Sound, Answer, IsEcho, Slice, Public, Weight, AllIds;
    if echoes == [] {
      NoWeight();
    } else {
      var n := |echoes| - 1;
      var g := echoes[n];
      BlocksSmall(ix, echoes[..n], start, lim);
      var before := Blocks(ix, echoes[..n], [], start, lim);
      var block := if IsEcho(g) then [g] + Answer(ix, g, [], start, lim) else [];
      PayloadAppend(before, block);
      WeightAppend(Payload(before), Payload(block));
      BlockSmall(ix, g, start, lim);
      Distributes(n, Size(ix.list));
    }
  }

  lemma Distributes(n: nat, k: nat)
    ensures (n + 1) * k == n * k + k
  {
  }

  lemma BlockSmall(ix: Index, g: Str, start: int, lim: int)
    requires Sound(ix) && AllIds(ix.list)
    ensures Size(Payload(if IsEcho(g) then [g] + Answer(ix, g, [], start, lim) else [])) <= Size(ix.list)
  {
    hide Sound, Answer, IsEcho, Slice, Public, Weight, AllIds;
    NoWeight();
    if IsEcho(g) {
      var one: seq<Str> := [g];
      assert one[..0] == [];
      assert Blocks(ix, one, [], start, lim) == [] + ([g] + Answer(ix, g, [], start, lim)) == [g] + Answer(ix, g, [], start, lim);
      OneBlock(ix, g, start, lim);
      PublicSmall(ix, g, start, lim);
    }
  }

  /** The requests a fetcher of e makes for lists of ids. */
  ghost predicate Asks(e: Str, path: Str) {
    path == e || exists start, lim :: path == SlicePath(e, start, lim)
  }

  lemma AsksSlice(e: Str, start: int, lim: int)
    ensures Asks(e, SlicePath(e, start, lim)) && Asks(e, e)
  {
  }

  lemma AsksCuts(e: Str, path: Str)
    requires Asks(e, path)
    ensures Cuts(path) <= |e| + 1
  {
    hide PrintSlice;
    CutsShort(e);
    if path != e {
      var start, lim :| path == SlicePath(e, start, lim);
      CutsAppend(e + [SLASH], PrintSlice(start, lim));
      CutsAppend(e, [SLASH]);
      assert [SLASH][1..] == [];
      assert Cuts([SLASH]) == 1;
      SliceCuts(start, lim);
    }
  }

  lemma SliceCuts(start: int, lim: int)
    ensures Cuts(PrintSlice(start, lim)) == 0
  {
    hide Itoa;
    ItoaPlain(start);
    ItoaPlain(lim);
    CutsShort(PrintSlice(start, lim));
  }

  /** A bound on what any such answer may cost. */
  ghost function Reach(c: Config, e: Str): nat { Times(|e| + 2, Size(Table(c).list)) }

  function Times(n: nat, k: nat): nat { n * k }

  lemma AnswerSmall(c: Config, e: Str, path: Str)
    requires Ready(c) && Asks(e, path) && Listed(Table(c), path).Some?
    ensures Size(Listed(Table(c), path).value) <= Reach(c, e)
  {
    hide Ready, Table, Blocks, Arrive, Split, Cuts, Asks, Weight, Size, ScanSlice, Sound, AllIds, Payload;
    NodeReady(c);
    AsksCuts(e, path);
    ArriveCuts(path);
    var parts := Split(Arrive(path).value, SLASH);
    var slice := ScanSlice(parts[|parts| - 1]);
    var echoes := if slice.Some? then parts[..|parts| - 1] else parts;
    var start, lim := if slice.Some? then slice.value.0 else 0, if slice.Some? then slice.value.1 else 0;
    BlocksSmall(Table(c), echoes, start, lim);
    Monotone(|echoes|, |e| + 2, Size(Table(c).list));
  }

  lemma Monotone(a: nat, b: nat, k: nat)
    requires a <= b
    ensures a * k <= b * k
  {
  }

  lemma ListingRank(todo: seq<Str>, res: seq<Str>, keep: bool)
    requires todo != []
    ensures Size(todo[1..]) + Weight(if keep then res else res + [todo[0]]) < Size(todo) + Weight(res)
  {
    hide Weight;
    assert todo == [todo[0]] + todo[1..];
    WeightAppend([todo[0]], todo[1..]);
    WeightOne(todo[0]);
    WeightAppend(res, [todo[0]]);
  }

  lemma SendingRank(c: Config, left: seq<Str>)
    requires left != [] && Elements(Batch(left)).Some?
    ensures |Db.MLines(Node(c).files, Node(c).handle, Elements(Batch(left)).value)|
            + 1 + Weight(left[|Batch(left)|..]) < Weight(left)
  {
    hide Weight, Elements, Db.MLines, Node;
    BatchShort(Node(c).files, Node(c).handle, Batch(left));
    assert left == Batch(left) + left[|Batch(left)|..];
    WeightAppend(Batch(left), left[|Batch(left)|..]);
  }

  /** Limits in use stay within 64 bits. */
  predicate LimitOk(pc: Pc) {
    match pc
    case Probing(limit, _) => limit <= MAX_INT64
    case Asking(limit) => limit <= MAX_INT64
    case _ => true
  }

  lemma BodyRank(c: Config, local: World, e: Str, pc: Pc, now: int)
    requires InBody(pc) && Ready(c) && LimitOk(pc)
    ensures var o := BodyStep(c, local, e, pc, now);
            PcRank(Reach(c, e), o.pc) < PcRank(Reach(c, e), pc) && LimitOk(o.pc)
  {
    hide Listed, SlicePath, Exists, Looked, Elements, Decode, Do, Table, Batch, IsMsgId, Concat,
         Db.MLines, Ready, Reach, Size, Weight, Node;
    LimitGiven(c);
    match pc
    case Asking(limit) =>
      var path := if limit > 0 then SlicePath(e, -limit, limit) else e;
      AsksSlice(e, -limit, limit);
      if Listed(Table(c), path).Some? { AnswerSmall(c, e, path); }
      NoWeight();
    case Listing(todo, res) =>
      if todo == [] { NoWeight(); } else { ListingRank(todo, res, Exists(c, local, todo[0])); }
    case Sending(left) =>
      if left != [] && Elements(Batch(left)).Some? { SendingRank(c, left); }
    case _ =>
  }

  lemma NoWeight()
    ensures Weight([]) == 0 && Size([]) == 0
  {
  }

  lemma LimitGiven(c: Config)
    requires Ready(c)
    ensures MIN_INT64 <= c.limit <= MAX_INT64
  {
  }

  ghost predicate LimitsOk(ws: seq<Worker>) { forall j :: 0 <= j < |ws| ==> LimitOk(ws[j].pc) }

  lemma {:induction false} ValidEcho(echoes: seq<Str>, e: Str)
    requires e in Valid(echoes)
    ensures e in echoes && IsEcho(e)
  {
    hide IsEcho;
    if echoes != [] && e in Valid(echoes[..|echoes| - 1]) { ValidEcho(echoes[..|echoes| - 1], e); }
  }

  /** Every fetcher works on a valid echo of the list. */
  lemma WorkerEcho(c: Config, s: Sys, j: nat)
    requires ControlOk(c, s) && j < |s.workers|
    ensures IsEcho(s.workers[j].echo) && s.workers[j].echo in c.echoes
  {
    hide IsEcho, Valid, LockOk, BoundOk;
    var done := c.echoes[..Handled(c, s.master)];
    assert Echoes(s.workers)[j] == s.workers[j].echo;
    assert s.workers[j].echo in Valid(done);
    ValidEcho(done, s.workers[j].echo);
    var i :| 0 <= i < |done| && done[i] == s.workers[j].echo;
    assert c.echoes[i] == s.workers[j].echo;
  }

  /** Every step, a network error included, makes the measure smaller. */
  lemma StepShrinks(c: Config, s: Sys, ev: Event)
    requires ControlOk(c, s) && Ready(c) && LimitsOk(s.workers) && Enabled(c, s, ev)
    ensures Measure(c, Step(c, s, ev)) < Measure(c, s)
    ensures LimitsOk(Step(c, s, ev).workers)
  {
    hide IsEcho, Ready, Valid, Echoes, CountActive, LockOk, BoundOk, Ranks, BodyStep, Reach;
    match ev
    case M =>
      if (s.master.Next? || s.master.Locked?) && s.master.i < |c.echoes| {
        RanksSpawn(c, s.workers, Worker(c.echoes[s.master.i], AskLast, false));
      }
    case W(j, now) =>
      var w := s.workers[j];
      if InBody(w.pc) {
        BodyRank(c, s.local, w.echo, w.pc, now);
      }
      RanksUpdate(c, s.workers, j, WorkerStep(c, s, j, now).workers[j]);
    case Fail(j) =>
      RanksUpdate(c, s.workers, j, AfterError(s.workers[j]));
  }

  /** No interleaving is longer than the measure of the start. */
  lemma {:induction false} RunsAreFinite(c: Config, local: World, evs: seq<Event>)
    requires Ready(c) && Exec(c, local, evs).Some?
    ensures |evs| + Measure(c, Exec(c, local, evs).value) <= Measure(c, Start(local))
    ensures LimitsOk(Exec(c, local, evs).value.workers)
  {
    hide Measure, Enabled, Step, ControlOk, Ready;
    if evs != [] {
      var before := evs[..|evs| - 1];
      RunsAreFinite(c, local, before);
      RunControl(c, local, before);
      StepShrinks(c, Exec(c, local, before).value, evs[|evs| - 1]);
    }
  }

  /** No event of the sequence is a network error. */
  predicate Calm(evs: seq<Event>) { forall i :: 0 <= i < |evs| ==> !evs[i].Fail? }

  /** From wherever an interleaving has come, it can go on without network errors until Fetch has
      returned and every fetcher has broadcast and gone. */
  lemma {:induction false} CanFinish(c: Config, local: World, evs: seq<Event>) returns (more: seq<Event>)
    requires Ready(c) && Exec(c, local, evs).Some?
    ensures Exec(c, local, evs + more).Some? && Final(Exec(c, local, evs + more).value)
    ensures Calm(more)
    decreases Measure(c, Exec(c, local, evs).value)
  {
    hide Measure, Enabled, Step, ControlOk, Ready, LimitsOk, Final;
    var s := Exec(c, local, evs).value;
    if Final(s) {
      more := [];
      assert evs + more == evs;
    } else {
      RunControl(c, local, evs);
      RunsAreFinite(c, local, evs);
      SomeoneMoves(c, s);
      var ev: Event;
      if Enabled(c, s, M) {
        ev := M;
      } else {
        var j: nat :| Enabled(c, s, W(j, 0));
        ev := W(j, 0);
      }
      assert (evs + [ev])[..|evs|] == evs;
      StepShrinks(c, s, ev);
      more := CanFinish(c, local, evs + [ev]);
      assert evs + [ev] + more == evs + ([ev] + more);
      more := [ev] + more;
    }
  }

  // ---------------------------------------------------------------- returning

  lemma StillDone(c: Config, s: Sys, ev: Event)
    requires Enabled(c, s, ev) && AllDone(s.workers) && s.master.Returned?
    ensures AllDone(Step(c, s, ev).workers)
  {
    hide BodyStep, IsEcho;
  }

  /** Fetch returns only after every fetcher has called wait.Done. */
  lemma {:induction false} ReturnedDone(c: Config, local: World, evs: seq<Event>)
    requires Exec(c, local, evs).Some? && Exec(c, local, evs).value.master.Returned?
    ensures AllDone(Exec(c, local, evs).value.workers)
  {
    hide Step, Enabled, AllDone;
    if evs != [] {
      var before, ev := evs[..|evs| - 1], evs[|evs| - 1];
      var r := Exec(c, local, before).value;
      BecomesReturned(c, r, ev);
      if r.master.Returned? {
        ReturnedDone(c, local, before);
        StillDone(c, r, ev);
      }
    }
  }

  lemma BecomesReturned(c: Config, s: Sys, ev: Event)
    requires Enabled(c, s, ev) && Step(c, s, ev).master.Returned?
    ensures s.master.Returned? || AllDone(Step(c, s, ev).workers)
  {
    hide BodyStep, IsEcho, AllDone;
  }
}
