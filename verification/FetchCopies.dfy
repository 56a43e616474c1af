/** Which messages a run of Fetch leaves in the local database: those of the remote, unchanged. */
module FetchCopies {
  import opened Bytes
  import opened Codec
  import opened Log
  import opened Store
  import opened Fetch
  import opened FetchRun
  import opened FetchData
  import Db
  import S = Serve
  import T = Tags

  /** The last line of a log that carries x. */
  function LastLine(sum: Str -> Str, log: Str, x: Str): Str {
    var lines := Lines(log);
    var k := LastAt(sum, lines, x);
    if k < |lines| then lines[k] else []
  }

  /** The near log has the message that the far log has last; only a date of 0 may have been filled in. */
  ghost predicate Copied(sum: Str -> Str, near: Str, far: Str, x: Str) {
    var m, r := Decode(sum, LastLine(sum, near, x)), Decode(sum, LastLine(sum, far, x));
    m.Ok? && r.Ok? && m.value == if r.value.date == 0 then r.value.(date := m.value.date) else r.value
  }

  /** Lines of the remote's log, each the last of its id. */
  ghost predicate FromRemote(c: Config, lines: seq<Str>) {
    forall i :: 0 <= i < |lines| ==> RemoteLine(c, lines[i])
  }

  ghost predicate RemoteLine(c: Config, line: Str) {
    Decode(c.sum, line).Ok? && line == LastLine(c.sum, c.remote.files.log, Decode(c.sum, line).value.id)
  }

  /** What every step keeps: an id held at the start has the line it had, any other one a copy. */
  ghost predicate CopyOk(c: Config, start: World, s: Sys) {
    (forall x :: x in Held(c, s.local) ==>
       if x in Held(c, start)
       then LastLine(c.sum, s.local.files.log, x) == LastLine(c.sum, start.files.log, x)
       else Copied(c.sum, s.local.files.log, c.remote.files.log, x))
    && forall j :: 0 <= j < |s.workers| && s.workers[j].pc.Saving? ==> FromRemote(c, s.workers[j].pc.lines)
  }

  // ---------------------------------------------------------------- what the remote answers

  lemma AnswerLast(c: Config, id: Str)
    requires Ready(c) && Serves(Node(c).files, Node(c).handle, id)
    ensures RemoteLine(c, BundleOf(Node(c).files, Node(c).handle, id, false))
  {
    hide Refresh, HandleOf, LastAt, Decode, Lines, ReadAt, Consistent, GoodSum, Carries;
    GetReadsLast(c.sum, c.remote, c.rh, id);
    LastAtIsLast(c.sum, Lines(c.remote.files.log), id);
    CarriesMeans(c.sum, LastLine(c.sum, c.remote.files.log, id), id);
  }

  lemma CarriesMeans(sum: Str -> Str, line: Str, id: Str)
    ensures Carries(sum, line, id) <==> Decode(sum, line).Ok? && Decode(sum, line).value.id == id
  {
  }

  lemma {:induction false} AnswersLast(c: Config, ids: seq<Str>)
    requires Ready(c)
    ensures FromRemote(c, Db.MLines(Node(c).files, Node(c).handle, ids))
  {
    hide Ready, Node, RemoteLine, BundleOf, Known;
    if ids != [] {
      var n := |ids| - 1;
      AnswersLast(c, ids[..n]);
      if Serves(Node(c).files, Node(c).handle, ids[n]) { AnswerLast(c, ids[n]); }
    }
  }

  // ---------------------------------------------------------------- one line stored

  /** Storing a line of the remote: nothing when its id is held, otherwise one line more, which decodes
      to the same message but for a date of 0. */
  lemma SaveCopies(c: Config, local: World, line: Str, id: Str, now: int)
    requires GoodSum(c.sum) && Consistent(c.sum, local) && Carried(c.sum, line, id) && Decode(c.sum, line).Ok?
    requires MIN_INT64 <= now <= MAX_INT64
    requires |Do(c.sum, local, Save(c.h, Decode(c.sum, line).value, now, false)).files.log| <= MAX_INT64
    ensures var v, r := Do(c.sum, local, Save(c.h, Decode(c.sum, line).value, now, false)), Decode(c.sum, line).value;
            if id in Held(c, local) then v.files.log == local.files.log
            else exists l :: Lines(v.files.log) == Lines(local.files.log) + [l] && Carries(c.sum, l, id)
                             && Decode(c.sum, l) == Ok(if r.date == 0 then r.(date := now) else r)
  {
    hide View, Lines, Decode, StoreMsg, Storable, HandleOf, Consistent, GoodFiles, Snapshot, Bundle, Filled, Survives, Stripped;
    var m := Decode(c.sum, line).value;
    CarriedStorable(c.sum, line, id, now);
    HandleSnapshotOf(c.sum, local, c.h);
    StoreGood(c.sum, local.files, HandleOf(local, c.h), m, now, false);
    CarriedFilled(c.sum, line, id, now);
    var l := Bundle(Filled(c.sum, m, now));
    if id !in Held(c, local) { assert Carries(c.sum, l, id); }
  }

  lemma CarriedFilled(sum: Str -> Str, line: Str, id: Str, now: int)
    requires Carried(sum, line, id) && MIN_INT64 <= now <= MAX_INT64
    ensures var r := Decode(sum, line).value; var full := Filled(sum, r, now);
            full == (if r.date == 0 then r.(date := now) else r) && Stripped(full) == full && full.id == id == r.id
  {
    hide Decode, Survives, TextOf, T.Canonical, T.Print, Stripped;
    var r := Decode(sum, line).value;
    EchoGiven(r);
    FilledTells(sum, r, now);
    DateSurvives(r, now);
    StrippedSame(Filled(sum, r, now));
  }

  lemma EchoGiven(m: Msg)
    requires Survives(m)
    ensures m.echo != [] && m.id != []
  {
    hide T.Canonical, T.Print;
  }

  lemma DateSurvives(m: Msg, now: int)
    requires Survives(m) && MIN_INT64 <= now <= MAX_INT64
    ensures Survives(m.(date := now))
  {
    hide T.Canonical, T.Print;
  }

  /** One line more is the last one of the id it carries, and of no other. */
  lemma LastLineSnoc(sum: Str -> Str, near: Str, next: Str, l: Str, x: Str)
    requires Lines(next) == Lines(near) + [l]
    ensures LastLine(sum, next, x) == if Carries(sum, l, x) then l else LastLine(sum, near, x)
  {
    hide Lines, Carries, LastAt;
    var lines := Lines(next);
    assert lines[..|lines| - 1] == Lines(near);
    LastAtStep(sum, lines, x);
  }

  lemma HeldSnoc(sum: Str -> Str, lines: seq<Str>, l: Str, x: Str)
    ensures x in View(sum, lines + [l]).hash <==> x in View(sum, lines).hash || Carries(sum, l, x)
  {
    hide Decode, View, InfoOf;
    ViewStep(sum, lines, l, x);
  }

  // ---------------------------------------------------------------- steps

  lemma SavedCopies(c: Config, start: World, local: World, line: Str, id: Str, now: int, x: Str)
    requires GoodSum(c.sum) && Consistent(c.sum, local) && Carried(c.sum, line, id) && Decode(c.sum, line).Ok?
    requires RemoteLine(c, line) && MIN_INT64 <= now <= MAX_INT64
    requires |Do(c.sum, local, Save(c.h, Decode(c.sum, line).value, now, false)).files.log| <= MAX_INT64
    requires x in Held(c, local) ==>
               if x in Held(c, start) then LastLine(c.sum, local.files.log, x) == LastLine(c.sum, start.files.log, x)
               else Copied(c.sum, local.files.log, c.remote.files.log, x)
    requires x in Held(c, start) ==> x in Held(c, local)
    ensures var v := Do(c.sum, local, Save(c.h, Decode(c.sum, line).value, now, false));
            x in Held(c, v) ==>
              if x in Held(c, start) then LastLine(c.sum, v.files.log, x) == LastLine(c.sum, start.files.log, x)
              else Copied(c.sum, v.files.log, c.remote.files.log, x)
  {
    hide View, Lines, Decode, Do, Consistent, GoodSum, Carried, Carries, LastLine;
    var r := Decode(c.sum, line).value;
    var v := Do(c.sum, local, Save(c.h, r, now, false));
    SaveCopies(c, local, line, id, now);
    CarriedId(c.sum, line, id);
    if id !in Held(c, local) {
      var l :| Lines(v.files.log) == Lines(local.files.log) + [l] && Carries(c.sum, l, id)
               && Decode(c.sum, l) == Ok(if r.date == 0 then r.(date := now) else r);
      LastLineSnoc(c.sum, local.files.log, v.files.log, l, x);
      HeldSnoc(c.sum, Lines(local.files.log), l, x);
      CarriesMeans(c.sum, l, x);
      CarriesMeans(c.sum, l, id);
    }
  }

  lemma CarriedId(sum: Str -> Str, line: Str, id: Str)
    requires Carried(sum, line, id)
    ensures Decode(sum, line).Ok? && Decode(sum, line).value.id == id
  {
  }

  /** A step that stores nothing leaves the log alone. */
  lemma BodyLog(c: Config, local: World, e: Str, pc: Pc, now: int)
    requires InBody(pc) && !pc.Saving?
    ensures BodyStep(c, local, e, pc, now).local.files.log == local.files.log
  {
    hide S.Listed, S.SlicePath, Elements, Decode, Do, Table, Batch, IsMsgId, IsEcho, S.Concat, Exists, Db.MLines, Wrap;
    LookedLog(c, local);
  }

  lemma BodyLines(c: Config, local: World, e: Str, pc: Pc, now: int)
    requires Ready(c) && InBody(pc) && (pc.Saving? ==> FromRemote(c, pc.lines))
    ensures var o := BodyStep(c, local, e, pc, now); o.pc.Saving? ==> FromRemote(c, o.pc.lines)
  {
    hide Ready, S.Listed, S.SlicePath, Elements, Decode, Do, Table, Batch, IsMsgId, IsEcho, S.Concat, Exists, Db.MLines, Wrap,
         Node, RemoteLine;
    if pc.Sending? && pc.left != [] && Elements(Batch(pc.left)).Some? {
      AnswersLast(c, Elements(Batch(pc.left)).value);
    }
  }

  lemma WorkerCopies(c: Config, start: World, was: set<Str>, s: Sys, j: nat, now: int)
    requires Ready(c) && DataOk(c, was, s) && was == Held(c, start) && CopyOk(c, start, s) && Enabled(c, s, W(j, now))
    requires |WorkerStep(c, s, j, now).local.files.log| <= MAX_INT64
    ensures CopyOk(c, start, WorkerStep(c, s, j, now))
  {
    hide Consistent, Held, WorkOk, FromRemote, Copied, LastLine, BodyStep, Decode, GoodEcho, Prefix, ListOf, GoodSum;
    var w, t := s.workers[j], WorkerStep(c, s, j, now);
    if InBody(w.pc) {
      BodyLines(c, s.local, w.echo, w.pc, now);
      if w.pc.Saving? {
        if w.pc.lines != [] { SavingCopies(c, start, was, s, j, now); } else { SavingDone(c, s.local, w, now); }
      } else {
        BodyLog(c, s.local, w.echo, w.pc, now);
      }
      SameHeld(c, s.local, t.local);
    }
  }

  lemma SavingDone(c: Config, local: World, w: Worker, now: int)
    requires w.pc.Saving? && w.pc.lines == []
    ensures BodyStep(c, local, w.echo, w.pc, now).local == local
  {
  }

  lemma SameHeld(c: Config, a: World, b: World)
    ensures a.files.log == b.files.log ==> Held(c, a) == Held(c, b)
  {
  }

  lemma SavingCopies(c: Config, start: World, was: set<Str>, s: Sys, j: nat, now: int)
    requires Ready(c) && DataOk(c, was, s) && was == Held(c, start) && CopyOk(c, start, s)
    requires j < |s.workers| && s.workers[j].pc.Saving? && s.workers[j].pc.lines != [] && MIN_INT64 <= now <= MAX_INT64
    requires |BodyStep(c, s.local, s.workers[j].echo, s.workers[j].pc, now).local.files.log| <= MAX_INT64
    ensures var v := BodyStep(c, s.local, s.workers[j].echo, s.workers[j].pc, now).local;
            forall x :: x in Held(c, v) ==>
              if x in Held(c, start) then LastLine(c.sum, v.files.log, x) == LastLine(c.sum, start.files.log, x)
              else Copied(c.sum, v.files.log, c.remote.files.log, x)
  {
    hide Consistent, Held, WorkOk, Copied, LastLine, Decode, GoodEcho, Prefix, ListOf, GoodSum, Do, Carried;
    var w := s.workers[j];
    LineOk(c, was, Held(c, s.local), w);
    var line, id := w.pc.lines[0], IdsIn(c.sum, w.pc.lines)[0];
    assert RemoteLine(c, line);
    var v := BodyStep(c, s.local, w.echo, w.pc, now).local;
    forall x | x in Held(c, v)
      ensures if x in Held(c, start) then LastLine(c.sum, v.files.log, x) == LastLine(c.sum, start.files.log, x)
              else Copied(c.sum, v.files.log, c.remote.files.log, x)
    {
      SavedCopies(c, start, s.local, line, id, now, x);
    }
  }

  lemma StepCopies(c: Config, start: World, was: set<Str>, s: Sys, ev: Event)
    requires Ready(c) && DataOk(c, was, s) && was == Held(c, start) && CopyOk(c, start, s) && Enabled(c, s, ev)
    requires |Step(c, s, ev).local.files.log| <= MAX_INT64
    ensures CopyOk(c, start, Step(c, s, ev))
  {
    hide Ready, Consistent, Held, WorkOk, FromRemote, Copied, LastLine, WorkerStep, GoodEcho, Prefix, ListOf, IsEcho;
    match ev
    case M =>
      var t := MasterStep(c, s);
      forall j | 0 <= j < |t.workers| && t.workers[j].pc.Saving? ensures FromRemote(c, t.workers[j].pc.lines) {
        if j < |s.workers| { assert t.workers[j] == s.workers[j]; }
      }
    case W(j, now) => WorkerCopies(c, start, was, s, j, now);
    case Fail(j) =>
  }

  lemma {:induction false} RunCopies(c: Config, local: World, evs: seq<Event>)
    requires Ready(c) && Consistent(c.sum, local) && Exec(c, local, evs).Some?
    requires |Exec(c, local, evs).value.local.files.log| <= MAX_INT64
    ensures CopyOk(c, local, Exec(c, local, evs).value)
  {
    hide Ready, Consistent, Held, DataOk, Step, Enabled, Copied, LastLine;
    if evs != [] {
      var before, ev := evs[..|evs| - 1], evs[|evs| - 1];
      var s := Exec(c, local, before).value;
      StepLog(c, s, ev);
      RunCopies(c, local, before);
      RunData(c, local, before);
      StepCopies(c, local, Held(c, local), s, ev);
    }
  }

  // ---------------------------------------------------------------- the theorem

  lemma HeldLine(sum: Str -> Str, lines: seq<Str>, x: Str)
    requires x in View(sum, lines).hash
    ensures var k := LastAt(sum, lines, x); k < |lines| && Decode(sum, lines[k]).Ok? && Decode(sum, lines[k]).value.id == x
  {
    hide Decode, View, LastAt;
    ViewLast(sum, lines, x);
    LastAtIsLast(sum, lines, x);
  }

  /** In every interleaving, with errors anywhere: for an id held before the run the last line is the one
      it was; for an id gained, the last line of the local log decodes to the message that the remote's
      last line of the id decodes to, with only a date of 0 replaced. */
  lemma FetchCarries(c: Config, local: World, evs: seq<Event>, x: Str)
    requires Ready(c) && Consistent(c.sum, local) && Exec(c, local, evs).Some?
    requires |Exec(c, local, evs).value.local.files.log| <= MAX_INT64
    requires x in Held(c, Exec(c, local, evs).value.local)
    ensures var near, was, far := Lines(Exec(c, local, evs).value.local.files.log), Lines(local.files.log),
                                  Lines(c.remote.files.log);
            var k, i, j := LastAt(c.sum, near, x), LastAt(c.sum, was, x), LastAt(c.sum, far, x);
            k < |near| && Decode(c.sum, near[k]).Ok?
            && if x in Held(c, local) then i < |was| && near[k] == was[i]
               else j < |far| && Decode(c.sum, far[j]).Ok?
                    && var m, r := Decode(c.sum, near[k]).value, Decode(c.sum, far[j]).value;
                       r.id == m.id == x && m == if r.date == 0 then r.(date := m.date) else r
  {
    hide Ready, Consistent, Exec, View, Lines, LastAt, Decode;
    RunCopies(c, local, evs);
    var s := Exec(c, local, evs).value;
    HeldLine(c.sum, Lines(s.local.files.log), x);
    if x in Held(c, local) {
      HeldLine(c.sum, Lines(local.files.log), x);
    } else {
      NoLine(c.sum);
    }
  }

  lemma NoLine(sum: Str -> Str)
    ensures Decode(sum, []).Err?
  {
    if Decode(sum, []).Ok? { NotEmptyLine(sum, []); }
  }
}
