/** Runs of the database: any number of handles sharing one log file and one index file. */
module Store {
  import opened Bytes
  import opened Codec
  import opened Log
  import Base64
  import T = Tags

  /** The two files. A missing log and an empty one behave alike; a missing index does not. */
  datatype Files = Files(log: Str, idx: Option<Str>)

  /** A DB object's Idx: not loaded yet, or a table together with the index size it was read from. */
  datatype Handle = Closed | Open(ix: Index, size: nat)

  datatype Status = Good | BadLine | Crash

  /** Writing over a file opened without truncation: a longer old tail stays. */
  function Overwrite(was: Option<Str>, text: Str): Str {
    if was.None? || |was.value| <= |text| then text else text + was.value[|text|..]
  }

  /** _CreateIndex. */
  function Reindexed(sum: Str -> Str, f: Files): Files {
    f.(idx := Some(Overwrite(f.idx, IndexText(sum, f.log))))
  }

  datatype Refreshed = Refreshed(files: Files, handle: Handle, status: Status)

  /** The part of LoadIndex after the index file is known to exist. */
  function ReadIndex(sum: Str -> Str, f: Files, h: Handle): Refreshed
    requires f.idx.Some?
  {
    var text := f.idx.value;
    if h.Closed? then
      var r := LoadLines(EMPTY, Lines(text));
      if r.ok then Refreshed(f, Open(r.ix, |text|), Good) else Refreshed(f, Closed, BadLine)
    else if |text| > h.size then
      var r := LoadLines(h.ix, Lines(text[h.size..]));
      if r.ok then Refreshed(f, Open(r.ix, |text|), Good)
      else Refreshed(f, Open(h.ix.(hash := r.ix.hash), h.size), BadLine)
    else if |text| == h.size then Refreshed(f, h, Good)
    else
      // The index shrank: it is written again, then read into a table that was never allocated.
      var g := Reindexed(sum, f);
      var ls := Lines(g.idx.value);
      if ls == [] then Refreshed(g, Closed, Good)
      else Refreshed(g, h, if ParseRecord(ls[0]).None? then BadLine else Crash)
  }

  /** LoadIndex: a missing index forgets the loaded table and is created first. */
  function Refresh(sum: Str -> Str, f: Files, h: Handle): Refreshed {
    if f.idx.None? then ReadIndex(sum, Reindexed(sum, f), Closed) else ReadIndex(sum, f, h)
  }

  function Known(h: Handle, id: Str): Option<Info> {
    if h.Open? && id in h.ix.hash then Some(h.ix.hash[id]) else None
  }

  datatype Outcome = Stored | AlreadyExists | NotLoaded(status: Status)

  datatype Put = Put(files: Files, handle: Handle, outcome: Outcome)

  /** The two lines a stored message adds. */
  function Append(sum: Str -> Str, f: Files, m: Msg, now: int): Files
    requires f.idx.Some?
  {
    var full := Filled(sum, m, now);
    Files(f.log + (Bundle(full) + [NL]),
          Some(f.idx.value + (Record(full, SignedOff(m, |f.log|)) + [NL])))
  }

  /** _Store: the existence check sees the id the message came with, not the one Encode gives it. */
  function StoreMsg(sum: Str -> Str, f: Files, h: Handle, m: Msg, now: int, edit: bool): (p: Put)
  {
    var r := Refresh(sum, f, h);
    if r.status != Good then Put(r.files, r.handle, NotLoaded(r.status))
    else if Known(r.handle, m.id).Some? && !edit then Put(r.files, r.handle, AlreadyExists)
    else Put(Append(sum, r.files, m, now), r.handle, Stored)
  }

  /** The tag Blacklist adds before editing. */
  function Blacklisted(m: Msg): Msg { m.(tags := T.Added(m.tags, ACCESS + [SLASH] + BLACKLIST)) }

  /** _GetBundle after the refresh. */
  function BundleOf(f: Files, h: Handle, id: Str, bl: bool): Str {
    var info := Known(h, id);
    if info.None? || (!bl && info.value.off < 0) then [] else ReadAt(f.log, Abs(info.value.off))
  }

  // ---------------------------------------------------------------- runs

  datatype World = World(files: Files, handles: map<nat, Handle>)

  datatype Op =
    | OpenDb(h: nat)
    | Load(h: nat)
    | Save(h: nat, m: Msg, now: int, edit: bool)
    | Ban(h: nat, m: Msg, now: int)
    | Rebuild
    | DropIndex

  function HandleOf(w: World, h: nat): Handle { if h in w.handles then w.handles[h] else Closed }

  function Do(sum: Str -> Str, w: World, op: Op): World {
    match op
    case OpenDb(h) => w.(handles := w.handles[h := Closed])
    case Load(h) =>
      var r := Refresh(sum, w.files, HandleOf(w, h));
      World(r.files, w.handles[h := r.handle])
    case Save(h, m, now, edit) =>
      var p := StoreMsg(sum, w.files, HandleOf(w, h), m, now, edit);
      World(p.files, w.handles[h := p.handle])
    case Ban(h, m, now) =>
      var p := StoreMsg(sum, w.files, HandleOf(w, h), Blacklisted(m), now, true);
      World(p.files, w.handles[h := p.handle])
    case Rebuild => w.(files := Reindexed(sum, w.files))
    case DropIndex => w.(files := w.files.(idx := None))
  }

  function Run(sum: Str -> Str, w: World, ops: seq<Op>): World {
    if ops == [] then w else Do(sum, Run(sum, w, ops[..|ops| - 1]), ops[|ops| - 1])
  }

  /** A message whose bundle line is decoded again, to what is left of it without carriage
      returns, and whose index record has none to lose. Its subject, address and text may. */
  ghost predicate Fit(m: Msg) {
    Survives(Stripped(m)) && Free(m.id, NL) && RecordClean(m)
  }

  ghost predicate RecordClean(m: Msg) { Free(m.echo, CR) && Free(m.to, CR) && Free(m.from, CR) }

  ghost predicate Storable(sum: Str -> Str, m: Msg, now: int) { Fit(Filled(sum, m, now)) }

  ghost predicate GoodOp(sum: Str -> Str, op: Op) {
    match op
    case Save(_, m, now, _) => Storable(sum, m, now)
    case Ban(_, m, now) => Storable(sum, m, now)
    case _ => true
  }

  ghost predicate GoodOps(sum: Str -> Str, ops: seq<Op>) {
    forall i :: 0 <= i < |ops| ==> GoodOp(sum, ops[i])
  }

  /** The handle is a snapshot of the table of some earlier state of the log. */
  ghost predicate Snapshot(sum: Str -> Str, lines: seq<Str>, h: Handle) {
    h.Open? ==> exists k :: 0 <= k <= |lines| && SnapshotAt(sum, lines, h, k)
  }

  ghost predicate SnapshotAt(sum: Str -> Str, lines: seq<Str>, h: Handle, k: nat)
    requires h.Open? && k <= |lines|
  {
    h.size == |PrintIndex(sum, lines[..k])| && h.ix == View(sum, lines[..k])
  }

  /** Complete lines only, within the range of file offsets. */
  ghost predicate GoodLog(log: Str) { Terminated(log) && |log| <= MAX_INT64 }

  /** The index file, when present, is what a rebuild would write. */
  ghost predicate GoodFiles(sum: Str -> Str, f: Files) {
    GoodLog(f.log) && (f.idx.Some? ==> f.idx.value == IndexText(sum, f.log))
  }

  ghost predicate Consistent(sum: Str -> Str, w: World) {
    GoodFiles(sum, w.files)
    && forall h :: h in w.handles ==> Snapshot(sum, Lines(w.files.log), w.handles[h])
  }

  /** Any good log without an index and without handles is where a run may start. */
  lemma StartConsistent(sum: Str -> Str, log: Str)
    requires GoodLog(log)
    ensures Consistent(sum, World(Files(log, None), map[]))
  {
  }

  // ---------------------------------------------------------------- one refresh

  lemma LoadOfPrintText(sum: Str -> Str, log: Str)
    requires GoodSum(sum) && GoodLog(log)
    ensures LoadLines(EMPTY, Lines(IndexText(sum, log))) == Loaded(View(sum, Lines(log)), true)
  {
    hide LoadLines, View, PrintIndex;
    UnlinesLines(log);
    LinesFree(log);
    LoadOfPrint(sum, Lines(log));
  }

  /** An earlier snapshot, refreshed by reading only the tail, becomes the table of the whole log;
      when there is no tail it already was. */
  lemma SnapshotCatchesUp(sum: Str -> Str, log: Str, h: Handle)
    requires GoodSum(sum) && GoodLog(log) && h.Open? && Snapshot(sum, Lines(log), h)
    ensures var text, v := IndexText(sum, log), View(sum, Lines(log));
            h.size <= |text|
            && LoadLines(h.ix, Lines(text[h.size..])) == Loaded(v, true)
            && (h.size == |text| ==> h.ix == v)
  {
    hide LoadLines, View, PrintIndex;
    var lines := Lines(log);
    var k :| 0 <= k <= |lines| && SnapshotAt(sum, lines, h, k);
    var a, b := lines[..k], lines[k..];
    assert a + b == lines;
    UnlinesLines(log);
    LinesFree(log);
    LoadTail(sum, a, b);
    if h.size == |IndexText(sum, log)| {
      NoTail(h.ix);
      assert IndexText(sum, log)[h.size..] == [];
    }
  }

  lemma NoTail(ix: Index)
    ensures LoadLines(ix, Lines([])) == Loaded(ix, true)
  {
  }

  /** From any consistent state, LoadIndex leaves the index file as a rebuild would write it and
      the handle equal to one loaded from scratch, whichever of its paths it took. */
  lemma RefreshGood(sum: Str -> Str, f: Files, h: Handle)
    requires GoodSum(sum) && GoodFiles(sum, f) && Snapshot(sum, Lines(f.log), h)
    ensures var text := IndexText(sum, f.log);
            Refresh(sum, f, h)
            == Refreshed(f.(idx := Some(text)), Open(View(sum, Lines(f.log)), |text|), Good)
  {
    hide LoadLines, View, Lines, IndexText, GoodLog, Snapshot;
    LoadOfPrintText(sum, f.log);
    if f.idx.Some? && h.Open? {
      SnapshotCatchesUp(sum, f.log, h);
    }
  }

  // ---------------------------------------------------------------- one stored message

  lemma FilledTags(sum: Str -> Str, m: Msg, now: int)
    ensures Filled(sum, m, now).tags == m.tags
    ensures m.id != [] ==> Filled(sum, m, now).id == m.id
    ensures Filled(sum, m, now).(id := m.id, date := m.date) == m
  {
    hide TextOf;
  }

  lemma BundleOneLine(m: Msg)
    requires Free(m.id, NL)
    ensures Free(Bundle(m), NL)
  {
    Base64.EncodeFree(TextOf(m), NL);
  }

  lemma RecordLength(m: Msg, off: int)
    ensures |Record(m, off)| == |m.id| + |m.echo| + |Itoa(off)| + |m.to| + |m.from| + |Tag(m, REPTO)| + 5
  {
    RecordText(m, off);
  }

  lemma {:induction false} WithoutShorter(s: Str, c: Byte)
    ensures |Without(s, c)| <= |s|
    ensures |Without(s, c)| == |s| ==> Free(s, c)
  {
    if s != [] { WithoutShorter(s[1..], c); }
  }

  /** A message and what is decoded from its bundle have the same index record exactly when no
      field of the record holds a carriage return. */
  lemma RecordStripsIff(m: Msg, off: int)
    ensures Record(Stripped(m), off) == Record(m, off) <==> RecordClean(m)
  {
    hide Record, Itoa, Without;
    RecordLength(m, off);
    RecordLength(Stripped(m), off);
    WithoutShorter(m.echo, CR);
    WithoutShorter(m.to, CR);
    WithoutShorter(m.from, CR);
    if RecordClean(m) {
      WithoutSame(m.echo, CR);
      WithoutSame(m.to, CR);
      WithoutSame(m.from, CR);
      assert Fields(Stripped(m), off) == Fields(m, off);
      RecordIsJoin(m, off);
      RecordIsJoin(Stripped(m), off);
    }
  }

  lemma RecordIsJoin(m: Msg, off: int)
    ensures Record(m, off) == Join(Fields(m, off), COLON)
  {
  }

  lemma PrintSnoc(sum: Str -> Str, lines: seq<Str>, l: Str)
    ensures PrintIndex(sum, lines + [l]) == PrintIndex(sum, lines) + Entry(sum, l, |Unlines(lines)|)
  {
    hide Entry;
    assert (lines + [l])[..|lines|] == lines;
  }

  /** One more bundle in the log: it decodes to its message without carriage returns, and the index
      record that _Store writes is the one a rebuild would print exactly when no field of it holds
      a carriage return. */
  lemma AppendLineIff(sum: Str -> Str, log: Str, full: Msg)
    requires GoodLog(log) && Survives(Stripped(full)) && Free(full.id, NL)
    requires |log| + |Bundle(full)| + 1 <= MAX_INT64
    ensures var log' := log + (Bundle(full) + [NL]);
            Decode(sum, Bundle(full)) == Ok(Stripped(full))
            && Lines(log') == Lines(log) + [Bundle(full)]
            && GoodLog(log')
            && (IndexText(sum, log') == IndexText(sum, log) + (Record(full, SignedOff(full, |log|)) + [NL])
                <==> RecordClean(full))
  {
    hide Decode, Survives, Lines, Unlines, PrintIndex, Record, Bundle;
    BundleStripsIff(sum, full);
    BundleOneLine(full);
    LinesSnoc(log, Bundle(full));
    UnlinesLines(log);
    PrintSnoc(sum, Lines(log), Bundle(full));
    var off := SignedOff(full, |log|);
    RecordStripsIff(full, off);
    AppendSame(IndexText(sum, log), Record(Stripped(full), off) + [NL], Record(full, off) + [NL]);
    AppendLast(Record(Stripped(full), off), Record(full, off));
  }

  lemma AppendSame(a: Str, b: Str, c: Str)
    ensures a + b == a + c <==> b == c
  {
    if a + b == a + c { assert b == (a + b)[|a|..] == (a + c)[|a|..] == c; }
  }

  lemma AppendLast(b: Str, c: Str)
    ensures b + [NL] == c + [NL] <==> b == c
  {
    if b + [NL] == c + [NL] { assert b == (b + [NL])[..|b|] == (c + [NL])[..|c|] == c; }
  }

  lemma AppendLine(sum: Str -> Str, log: Str, full: Msg)
    requires GoodLog(log) && Fit(full)
    requires |log| + |Bundle(full)| + 1 <= MAX_INT64
    ensures var log' := log + (Bundle(full) + [NL]);
            Decode(sum, Bundle(full)) == Ok(Stripped(full))
            && Lines(log') == Lines(log) + [Bundle(full)]
            && GoodLog(log')
            && IndexText(sum, log') == IndexText(sum, log) + (Record(full, SignedOff(full, |log|)) + [NL])
  {
    hide Decode, Survives, Lines, IndexText, Record, SignedOff, Bundle, GoodLog, Stripped;
    AppendLineIff(sum, log, full);
  }

  /** Storing appends one line to each file, and the index stays what a rebuild would write. */
  lemma AppendGood(sum: Str -> Str, f: Files, m: Msg, now: int)
    requires GoodSum(sum) && GoodFiles(sum, f) && f.idx.Some? && Storable(sum, m, now)
    requires |Append(sum, f, m, now).log| <= MAX_INT64
    ensures var full, g := Filled(sum, m, now), Append(sum, f, m, now);
            GoodFiles(sum, g) && g.idx.Some?
            && Lines(g.log) == Lines(f.log) + [Bundle(full)]
            && Decode(sum, Bundle(full)) == Ok(Stripped(full))
  {
    hide Decode, Survives, Lines, IndexText, Record, Bundle, GoodLog, Stripped;
    FilledTags(sum, m, now);
    AppendLine(sum, f.log, Filled(sum, m, now));
  }

  lemma SnapshotKept(sum: Str -> Str, lines: seq<Str>, l: Str, h: Handle)
    requires Snapshot(sum, lines, h)
    ensures Snapshot(sum, lines + [l], h)
  {
    hide View, PrintIndex;
    if h.Open? {
      var k :| 0 <= k <= |lines| && SnapshotAt(sum, lines, h, k);
      assert (lines + [l])[..k] == lines[..k];
      assert SnapshotAt(sum, lines + [l], h, k);
    }
  }

  lemma SnapshotNow(sum: Str -> Str, log: Str)
    ensures Snapshot(sum, Lines(log), Open(View(sum, Lines(log)), |IndexText(sum, log)|))
  {
    hide View, PrintIndex;
    var lines := Lines(log);
    assert lines[..|lines|] == lines;
    assert SnapshotAt(sum, lines, Open(View(sum, lines), |IndexText(sum, log)|), |lines|);
  }

  /** One _Store call from a consistent state. */
  lemma StoreGood(sum: Str -> Str, f: Files, h: Handle, m: Msg, now: int, edit: bool)
    requires GoodSum(sum) && GoodFiles(sum, f) && Snapshot(sum, Lines(f.log), h)
    requires Storable(sum, m, now) && |StoreMsg(sum, f, h, m, now, edit).files.log| <= MAX_INT64
    ensures var p, full := StoreMsg(sum, f, h, m, now, edit), Filled(sum, m, now);
            GoodFiles(sum, p.files) && p.files.idx.Some? && Snapshot(sum, Lines(p.files.log), p.handle)
            && p.handle.Open? && p.handle.ix == View(sum, Lines(f.log))
            && p.outcome == (if m.id in View(sum, Lines(f.log)).hash && !edit then AlreadyExists else Stored)
            && (p.outcome == AlreadyExists ==> p.files.log == f.log)
            && (p.outcome == Stored ==> Lines(p.files.log) == Lines(f.log) + [Bundle(full)]
                                        && Decode(sum, Bundle(full)) == Ok(Stripped(full)))
  {
    hide View, Lines, IndexText, GoodLog, Snapshot, Refresh, Append, Storable, Decode, Bundle;
    RefreshGood(sum, f, h);
    SnapshotNow(sum, f.log);
    var r := Refresh(sum, f, h);
    var p := StoreMsg(sum, f, h, m, now, edit);
    if p.outcome == Stored {
      AppendGood(sum, r.files, m, now);
      SnapshotKept(sum, Lines(f.log), Bundle(Filled(sum, m, now)), p.handle);
    }
  }

  // ---------------------------------------------------------------- whole runs

  lemma RefreshKeepsLog(sum: Str -> Str, f: Files, h: Handle)
    ensures Refresh(sum, f, h).files.log == f.log
  {
    hide LoadLines, Lines, IndexText;
  }

  lemma LogGrows(sum: Str -> Str, w: World, op: Op)
    ensures w.files.log <= Do(sum, w, op).files.log
  {
    hide Refresh, Bundle, Record, Filled;
    if op.Load? || op.Save? || op.Ban? {
      RefreshKeepsLog(sum, w.files, HandleOf(w, op.h));
    }
  }

  lemma HandleSnapshot(sum: Str -> Str, w: World, h: nat)
    requires Consistent(sum, w)
    ensures Snapshot(sum, Lines(w.files.log), HandleOf(w, h))
  {
    hide Lines, SnapshotAt;
  }

  lemma DoSave(sum: Str -> Str, w: World, h: nat, m: Msg, now: int, edit: bool)
    requires GoodSum(sum) && Consistent(sum, w) && Storable(sum, m, now)
    requires |StoreMsg(sum, w.files, HandleOf(w, h), m, now, edit).files.log| <= MAX_INT64
    ensures var p := StoreMsg(sum, w.files, HandleOf(w, h), m, now, edit);
            Consistent(sum, World(p.files, w.handles[h := p.handle]))
  {
    hide View, Lines, Snapshot, GoodFiles, StoreMsg, Storable, Decode, Bundle, HandleOf;
    HandleSnapshot(sum, w, h);
    var p := StoreMsg(sum, w.files, HandleOf(w, h), m, now, edit);
    StoreGood(sum, w.files, HandleOf(w, h), m, now, edit);
    forall g | g in w.handles && g != h ensures Snapshot(sum, Lines(p.files.log), w.handles[g]) {
      if p.outcome == Stored {
        SnapshotKept(sum, Lines(w.files.log), Bundle(Filled(sum, m, now)), w.handles[g]);
      }
    }
  }

  lemma DoKeeps(sum: Str -> Str, w: World, op: Op)
    requires GoodSum(sum) && Consistent(sum, w) && GoodOp(sum, op)
    requires |Do(sum, w, op).files.log| <= MAX_INT64
    ensures Consistent(sum, Do(sum, w, op))
  {
    hide View, Lines, Snapshot, GoodLog, StoreMsg, Storable, Refresh, IndexText, HandleOf, Blacklisted;
    match op
    case Load(h) =>
      HandleSnapshot(sum, w, h);
      RefreshGood(sum, w.files, HandleOf(w, h));
      SnapshotNow(sum, w.files.log);
    case Save(h, m, now, edit) => DoSave(sum, w, h, m, now, edit);
    case Ban(h, m, now) =>
      BanStorable(sum, m, now);
      DoSave(sum, w, h, Blacklisted(m), now, true);
    case OpenDb(h) => ClosedSnapshot(sum, Lines(w.files.log));
    case Rebuild =>
    case DropIndex =>
  }

  lemma ClosedSnapshot(sum: Str -> Str, lines: seq<Str>)
    ensures Snapshot(sum, lines, Closed)
  {
  }

  // ---------------------------------------------------------------- blacklisting keeps messages storable

  lemma PutCanonical(t: T.Tags, k: Str, v: Str)
    requires T.Canonical(t) && Free(k, SLASH) && Free(v, SLASH)
    requires k != [] && k[0] != T.SPACE && v != [] && v[|v| - 1] != T.SPACE
    ensures T.Canonical(T.Put(t, k, v))
  {
    var u := T.Put(t, k, v);
    forall x ensures x in u.hash <==> x in u.list {
      assert x in t.list + [k] <==> x in t.list || x == k;
    }
  }

  lemma PutFree(t: T.Tags, k: Str, v: Str, c: Byte)
    requires T.Canonical(t) && Free(T.Print(t), c) && Free(k, c) && Free(v, c) && c != SLASH
    ensures Free(T.Print(T.Put(t, k, v)), c)
  {
    var u := T.Put(t, k, v);
    forall x | x in t.hash ensures Free(x, c) && Free(t.hash[x], c) { TagFree(t, x, c); }
    T.FlatFree(u.list, u.hash, c);
    var f := T.Flat(u.list, u.hash);
    if f != [] {
      JoinKeepsFree(f, SLASH, c);
    }
  }

  lemma BlacklistedTags(m: Msg)
    ensures Blacklisted(m).tags == T.Put(m.tags, ACCESS, BLACKLIST)
  {
    hide Split, T.PutAll, T.Put;
    var parts: seq<Str> := [ACCESS, BLACKLIST];
    BlacklistParts();
    OnePair(m.tags, parts);
  }

  lemma BlacklistParts()
    ensures Split(ACCESS + [SLASH] + BLACKLIST, SLASH) == [ACCESS, BLACKLIST]
  {
    hide Split;
    var parts: seq<Str> := [ACCESS, BLACKLIST];
    assert parts[1..] == [BLACKLIST];
    assert Join(parts, SLASH) == ACCESS + [SLASH] + BLACKLIST;
    SplitJoin(parts, SLASH);
  }

  lemma OnePair(t: T.Tags, parts: seq<Str>)
    requires |parts| == 2
    ensures T.PutAll(t, parts) == T.Put(t, parts[0], parts[1])
  {
    hide T.Put;
    assert parts[..0] == [];
  }

  lemma BanStorable(sum: Str -> Str, m: Msg, now: int)
    requires GoodSum(sum) && Storable(sum, m, now)
    ensures Storable(sum, Blacklisted(m), now)
    ensures Tag(Filled(sum, Blacklisted(m), now), ACCESS) == BLACKLIST
  {
    hide T.Canonical, T.Print, TextOf, IsEcho, IsMsgId, Blacklisted, Split;
    var b := Blacklisted(m);
    BanOnlyTags(m);
    BlacklistedTags(m);
    FilledTags(sum, m, now);
    FilledTags(sum, b, now);
    PutCanonical(m.tags, ACCESS, BLACKLIST);
    PutFree(m.tags, ACCESS, BLACKLIST, NL);
    PutFree(m.tags, ACCESS, BLACKLIST, CR);
    assert REPTO[0] != ACCESS[0];
  }

  lemma BanOnlyTags(m: Msg)
    ensures Blacklisted(m).(tags := m.tags) == m
  {
    hide T.Added;
  }

  // ---------------------------------------------------------------- theorems over runs

  /** The message a step writes to the log, if it writes one. */
  function Written(sum: Str -> Str, w: World, op: Op): seq<Msg> {
    match op
    case Save(h, m, now, edit) =>
      if StoreMsg(sum, w.files, HandleOf(w, h), m, now, edit).outcome == Stored
      then [Filled(sum, m, now)] else []
    case Ban(h, m, now) =>
      if StoreMsg(sum, w.files, HandleOf(w, h), Blacklisted(m), now, true).outcome == Stored
      then [Filled(sum, Blacklisted(m), now)] else []
    case _ => []
  }

  /** Every message written during a run, in order. */
  function History(sum: Str -> Str, w: World, ops: seq<Op>): seq<Msg> {
    if ops == [] then []
    else
      var before := ops[..|ops| - 1];
      History(sum, w, before) + Written(sum, Run(sum, w, before), ops[|ops| - 1])
  }

  function Bundles(ms: seq<Msg>): seq<Str> {
    if ms == [] then [] else Bundles(ms[..|ms| - 1]) + [Bundle(ms[|ms| - 1])]
  }

  ghost predicate Readable(sum: Str -> Str, ms: seq<Msg>) {
    forall i :: 0 <= i < |ms| ==> Decode(sum, Bundle(ms[i])) == Ok(Stripped(ms[i]))
  }

  lemma DoWrites(sum: Str -> Str, w: World, op: Op)
    requires GoodSum(sum) && Consistent(sum, w) && GoodOp(sum, op)
    requires |Do(sum, w, op).files.log| <= MAX_INT64
    ensures Lines(Do(sum, w, op).files.log) == Lines(w.files.log) + Bundles(Written(sum, w, op))
    ensures Readable(sum, Written(sum, w, op))
  {
    hide View, Lines, Snapshot, GoodLog, Storable, Refresh, IndexText, HandleOf, Blacklisted,
         Filled, Append, Decode, Bundle, StoreMsg;
    match op
    case Load(h) => RefreshKeepsLog(sum, w.files, HandleOf(w, h));
    case Save(h, m, now, edit) =>
      HandleSnapshot(sum, w, h);
      StoreGood(sum, w.files, HandleOf(w, h), m, now, edit);
      OneBundle(Filled(sum, m, now));
    case Ban(h, m, now) =>
      HandleSnapshot(sum, w, h);
      BanStorable(sum, m, now);
      StoreGood(sum, w.files, HandleOf(w, h), Blacklisted(m), now, true);
      OneBundle(Filled(sum, Blacklisted(m), now));
    case _ =>
  }

  lemma OneBundle(m: Msg)
    ensures Bundles([m]) == [Bundle(m)]
  {
    hide Bundle;
    assert [m][..0] == [];
  }

  lemma {:induction false} BundlesAppend(a: seq<Msg>, b: seq<Msg>)
    ensures Bundles(a + b) == Bundles(a) + Bundles(b)
  {
    hide Bundle;
    if b == [] {
      assert a + b == a;
    } else {
      assert (a + b)[..|a + b| - 1] == a + b[..|b| - 1];
      BundlesAppend(a, b[..|b| - 1]);
    }
  }

  lemma {:induction false} BundlesAt(ms: seq<Msg>, i: nat)
    requires i < |ms|
    ensures |Bundles(ms)| == |ms| && Bundles(ms)[i] == Bundle(ms[i])
  {
    hide Bundle;
    var n := |ms| - 1;
    if n > 0 {
      BundlesAt(ms[..n], if i < n then i else 0);
    }
  }

  /** In every interleaving of stores, edits, blacklistings, loads, rebuilds and index removals by
      any number of handles, the index file (when present) is byte for byte what a rebuild would
      print, each handle is a snapshot of an earlier log, and the log is the starting log followed
      by exactly the messages written, each of which decodes back to itself without its carriage
      returns. */
  lemma {:induction false} RunKeepsConsistent(sum: Str -> Str, w: World, ops: seq<Op>)
    requires GoodSum(sum) && Consistent(sum, w) && GoodOps(sum, ops)
    requires |Run(sum, w, ops).files.log| <= MAX_INT64
    ensures Consistent(sum, Run(sum, w, ops))
    ensures Lines(Run(sum, w, ops).files.log) == Lines(w.files.log) + Bundles(History(sum, w, ops))
    ensures Readable(sum, History(sum, w, ops))
  {
    hide Consistent, GoodOp, Do, Lines, Written, Bundle, Decode;
    if ops != [] {
      var before, op := ops[..|ops| - 1], ops[|ops| - 1];
      var v := Run(sum, w, before);
      LogGrows(sum, v, op);
      RunKeepsConsistent(sum, w, before);
      DoKeeps(sum, v, op);
      DoWrites(sum, v, op);
      BundlesAppend(History(sum, w, before), Written(sum, v, op));
    }
  }

  /** Refreshing a handle that has lived through the run gives the same as opening a new one. */
  lemma RefreshEqualsFresh(sum: Str -> Str, w: World, h: nat)
    requires GoodSum(sum) && Consistent(sum, w)
    ensures Refresh(sum, w.files, HandleOf(w, h)) == Refresh(sum, w.files, Closed)
    ensures Refresh(sum, w.files, Closed).status == Good
    ensures Refresh(sum, w.files, Closed).files.idx == Some(IndexText(sum, w.files.log))
    ensures Refresh(sum, w.files, Closed).handle.Open?
    ensures Sound(Refresh(sum, w.files, Closed).handle.ix)
  {
    hide View, Lines, Snapshot, GoodLog, Refresh, IndexText, Sound, HandleOf;
    HandleSnapshot(sum, w, h);
    ClosedSnapshot(sum, Lines(w.files.log));
    RefreshGood(sum, w.files, HandleOf(w, h));
    RefreshGood(sum, w.files, Closed);
    ViewSound(sum, Lines(w.files.log));
  }

  /** What a handle reads for an id is the last log line carrying it, or nothing. */
  lemma GetReadsLast(sum: Str -> Str, w: World, h: nat, id: Str)
    requires GoodSum(sum) && Consistent(sum, w)
    ensures var r := Refresh(sum, w.files, HandleOf(w, h));
            var lines := Lines(w.files.log);
            var k := LastAt(sum, lines, id);
            BundleOf(r.files, r.handle, id, true) == if k < |lines| then lines[k] else []
  {
    hide View, Lines, Snapshot, Refresh, IndexText, HandleOf, LastAt, Decode, SignedOff, InfoOf, Unlines,
         ReadAt, Abs;
    HandleSnapshot(sum, w, h);
    RefreshGood(sum, w.files, HandleOf(w, h));
    ViewLast(sum, Lines(w.files.log), id);
    if id in View(sum, Lines(w.files.log)).hash {
      OffsetReadsLast(sum, w.files.log, id);
    }
  }

  /** Last write wins: after any run, the bundle read through any handle for the id of a message
      written during the run and not overwritten since is that message's bundle, and it decodes
      to exactly that message without its carriage returns. */
  lemma LastWriteWins(sum: Str -> Str, w: World, ops: seq<Op>, h: nat, i: nat)
    requires GoodSum(sum) && Consistent(sum, w) && GoodOps(sum, ops)
    requires |Run(sum, w, ops).files.log| <= MAX_INT64
    requires i < |History(sum, w, ops)|
    requires forall j :: i < j < |History(sum, w, ops)| ==>
               History(sum, w, ops)[j].id != History(sum, w, ops)[i].id
    ensures var v, m := Run(sum, w, ops), History(sum, w, ops)[i];
            var r := Refresh(sum, v.files, HandleOf(v, h));
            BundleOf(r.files, r.handle, m.id, true) == Bundle(m) && Decode(sum, Bundle(m)) == Ok(Stripped(m))
  {
    hide Consistent, GoodOps, Run, History, Lines, Refresh, BundleOf, Bundle, Decode, LastAt, HandleOf,
         Bundles;
    var v, ms := Run(sum, w, ops), History(sum, w, ops);
    RunKeepsConsistent(sum, w, ops);
    GetReadsLast(sum, v, h, ms[i].id);
    LastBundle(sum, Lines(w.files.log), ms, i);
  }

  lemma LastBundle(sum: Str -> Str, before: seq<Str>, ms: seq<Msg>, i: nat)
    requires i < |ms| && Readable(sum, ms)
    requires forall j :: i < j < |ms| ==> ms[j].id != ms[i].id
    ensures var lines := before + Bundles(ms);
            var k := LastAt(sum, lines, ms[i].id);
            k < |lines| && lines[k] == Bundle(ms[i])
  {
    hide Bundle, Decode, LastAt, Bundles;
    var lines := before + Bundles(ms);
    BundlesAt(ms, i);
    var n := |before| + i;
    assert lines[n] == Bundle(ms[i]);
    assert Carries(sum, lines[n], ms[i].id);
    LastAtIsLast(sum, lines, ms[i].id);
    var k := LastAt(sum, lines, ms[i].id);
    if k > n {
      var j := k - |before|;
      BundlesAt(ms, j);
      assert false;
    }
  }

  // ---------------------------------------------------------------- blacklisting

  /** A message is hidden exactly when its last record carries the blacklist tag and does not
      start the log: at offset 0 the sign is lost. */
  lemma HiddenIff(sum: Str -> Str, lines: seq<Str>, id: Str)
    requires id in View(sum, lines).hash
    ensures var k := LastAt(sum, lines, id);
            k < |lines| && Decode(sum, lines[k]).Ok?
            && (View(sum, lines).hash[id].off < 0 <==>
                  Tag(Decode(sum, lines[k]).value, "access") == "blacklist" && k > 0)
  {
    hide View, LastAt, Decode;
    ViewLast(sum, lines, id);
    var k := LastAt(sum, lines, id);
    var m := Decode(sum, lines[k]).value;
    assert View(sum, lines).hash[id].off == SignedOff(m, |Unlines(lines[..k])|);
    if k > 0 {
      assert lines[..k][0] == lines[0];
    }
  }

  /** Blacklisting a message that is in the database hides it from every later lookup. */
  lemma BanHides(sum: Str -> Str, w: World, h: nat, m: Msg, now: int)
    requires GoodSum(sum) && Consistent(sum, w) && Storable(sum, m, now)
    requires |Do(sum, w, Ban(h, m, now)).files.log| <= MAX_INT64
    requires m.id in View(sum, Lines(w.files.log)).hash && m.id != []
    ensures var lines := Lines(Do(sum, w, Ban(h, m, now)).files.log);
            m.id in View(sum, lines).hash && View(sum, lines).hash[m.id].off < 0
  {
    hide Consistent, View, Lines, StoreMsg, Decode, LastAt, Bundle, Storable, HandleOf, Blacklisted, Filled;
    var b := Blacklisted(m);
    HandleSnapshotOf(sum, w, h);
    BanStorable(sum, m, now);
    BanOnlyTags(m);
    FilledTags(sum, b, now);
    StoreGood(sum, w.files, HandleOf(w, h), b, now, true);
    var before, line := Lines(w.files.log), Bundle(Filled(sum, b, now));
    ViewStep(sum, before, line, m.id);
    LastAtStep(sum, before + [line], m.id);
    LastAtIsLast(sum, before, m.id);
    ViewLast(sum, before, m.id);
    HiddenIff(sum, before + [line], m.id);
  }

  lemma HandleSnapshotOf(sum: Str -> Str, w: World, h: nat)
    requires Consistent(sum, w)
    ensures GoodFiles(sum, w.files) && Snapshot(sum, Lines(w.files.log), HandleOf(w, h))
  {
    HandleSnapshot(sum, w, h);
  }

  /** Steps of a node that only stores what it fetches: nothing is edited and ids are given. */
  ghost predicate Plain(op: Op) { !op.Ban? && (op.Save? ==> !op.edit && op.m.id != []) }

  lemma PlainKeeps(sum: Str -> Str, w: World, op: Op, id: Str)
    requires GoodSum(sum) && Consistent(sum, w) && GoodOp(sum, op) && Plain(op)
    requires |Do(sum, w, op).files.log| <= MAX_INT64
    requires id in View(sum, Lines(w.files.log)).hash
    ensures var v := View(sum, Lines(Do(sum, w, op).files.log));
            id in v.hash && v.hash[id] == View(sum, Lines(w.files.log)).hash[id]
  {
    hide Consistent, View, Lines, StoreMsg, Decode, Bundle, Storable, HandleOf, Filled, Refresh;
    match op
    case Save(h, m, now, edit) =>
      HandleSnapshotOf(sum, w, h);
      FilledTags(sum, m, now);
      StoreGood(sum, w.files, HandleOf(w, h), m, now, edit);
      ViewStep(sum, Lines(w.files.log), Bundle(Filled(sum, m, now)), id);
    case Load(h) => RefreshKeepsLog(sum, w.files, HandleOf(w, h));
    case _ =>
  }

  /** No run of plain stores changes the entry of a message already present. In particular a
      blacklisted one stays hidden from lookups and keeps being reported as existing. */
  lemma {:induction false} BlacklistIsPermanent(sum: Str -> Str, w: World, ops: seq<Op>, id: Str, h: nat)
    requires GoodSum(sum) && Consistent(sum, w) && GoodOps(sum, ops)
    requires forall i :: 0 <= i < |ops| ==> Plain(ops[i])
    requires |Run(sum, w, ops).files.log| <= MAX_INT64
    requires id in View(sum, Lines(w.files.log)).hash
    ensures var v := Run(sum, w, ops);
            var r := Refresh(sum, v.files, HandleOf(v, h));
            var was := View(sum, Lines(w.files.log)).hash[id];
            Known(r.handle, id) == Some(was)
            && (was.off < 0 ==> BundleOf(r.files, r.handle, id, false) == [])
  {
    hide Consistent, View, Lines, GoodOps, Run, Refresh, ReadAt, HandleOf, IndexText;
    PlainRunKeeps(sum, w, ops, id);
    var v := Run(sum, w, ops);
    RunKeepsConsistent(sum, w, ops);
    HandleSnapshotOf(sum, v, h);
    RefreshGood(sum, v.files, HandleOf(v, h));
  }

  lemma {:induction false} PlainRunKeeps(sum: Str -> Str, w: World, ops: seq<Op>, id: Str)
    requires GoodSum(sum) && Consistent(sum, w) && GoodOps(sum, ops)
    requires forall i :: 0 <= i < |ops| ==> Plain(ops[i])
    requires |Run(sum, w, ops).files.log| <= MAX_INT64
    requires id in View(sum, Lines(w.files.log)).hash
    ensures var v := View(sum, Lines(Run(sum, w, ops).files.log));
            id in v.hash && v.hash[id] == View(sum, Lines(w.files.log)).hash[id]
  {
    hide Consistent, View, Lines, GoodOp, Do, Plain;
    if ops != [] {
      var before, op := ops[..|ops| - 1], ops[|ops| - 1];
      var v := Run(sum, w, before);
      LogGrows(sum, v, op);
      RunKeepsConsistent(sum, w, before);
      PlainRunKeeps(sum, w, before, id);
      PlainKeeps(sum, v, op, id);
    }
  }

  /** No run ever moves a message in the list: an edit changes its record, not its number. */
  lemma RunNeverMoves(sum: Str -> Str, w: World, ops: seq<Op>, id: Str)
    requires GoodSum(sum) && Consistent(sum, w) && GoodOps(sum, ops)
    requires |Run(sum, w, ops).files.log| <= MAX_INT64
    requires id in View(sum, Lines(w.files.log)).hash
    ensures var u, v := View(sum, Lines(w.files.log)), View(sum, Lines(Run(sum, w, ops).files.log));
            Sound(v) && u.list <= v.list && id in v.hash && v.hash[id].num == u.hash[id].num
  {
    hide Consistent, View, Lines, GoodOps, Run, History, Sound, Bundles;
    RunKeepsConsistent(sum, w, ops);
    ViewGrows(sum, Lines(w.files.log), Bundles(History(sum, w, ops)));
    ViewSound(sum, Lines(Run(sum, w, ops).files.log));
  }

  // ---------------------------------------------------------------- read back, field by field

  /** What any handle reads for an id, hidden messages on request or not: the last log line carrying
      it, unless that one is blacklisted, not the first of the log, and not asked for. */
  lemma GetTells(sum: Str -> Str, w: World, h: nat, id: Str, bl: bool)
    requires GoodSum(sum) && Consistent(sum, w)
    ensures var r := Refresh(sum, w.files, HandleOf(w, h));
            var lines := Lines(w.files.log); var k := LastAt(sum, lines, id);
            BundleOf(r.files, r.handle, id, bl)
            == if k == |lines| then []
               else if !bl && k > 0 && Decode(sum, lines[k]).Ok? && Tag(Decode(sum, lines[k]).value, "access") == "blacklist"
               then [] else lines[k]
  {
    hide View, Lines, Refresh, HandleOf, Decode, LastAt, ReadAt, Snapshot, IndexText;
    var lines := Lines(w.files.log);
    GetReadsLast(sum, w, h, id);
    ViewLast(sum, lines, id);
    HandleSnapshotOf(sum, w, h);
    RefreshGood(sum, w.files, HandleOf(w, h));
    if id in View(sum, lines).hash { HiddenIff(sum, lines, id); }
  }

  /** Storing or editing, and reading back through any handle: a known id is refused when it is no edit,
      and nothing is written; otherwise there is one line more, which is what is read for its id, and
      which decodes to the message given, without carriage returns, a date of 0 replaced by the time and
      an id made where none was given. */
  lemma StoredIsRead(sum: Str -> Str, w: World, h: nat, g: nat, m: Msg, now: int, edit: bool)
    requires GoodSum(sum) && Consistent(sum, w) && Storable(sum, m, now)
    requires |Do(sum, w, Save(h, m, now, edit)).files.log| <= MAX_INT64
    ensures var v := Do(sum, w, Save(h, m, now, edit));
            var lines, next := Lines(w.files.log), Lines(v.files.log);
            if LastAt(sum, lines, m.id) < |lines| && !edit then v.files.log == w.files.log
            else |next| == |lines| + 1 && next[..|lines|] == lines && Decode(sum, next[|lines|]).Ok?
                 && var d := Decode(sum, next[|lines|]).value; var r := Refresh(sum, v.files, HandleOf(v, g));
                    BundleOf(r.files, r.handle, d.id, true) == next[|lines|]
                    && d == Stripped(m).(id := d.id, date := d.date)
                    && d.date == (if m.date == 0 then now else m.date) && (m.id != [] ==> d.id == m.id)
  {
    hide View, Lines, Refresh, HandleOf, Decode, LastAt, StoreMsg, Storable, Snapshot, GoodFiles, Bundle, Filled, Survives;
    var v, full := Do(sum, w, Save(h, m, now, edit)), Filled(sum, m, now);
    HandleSnapshotOf(sum, w, h);
    DoKeeps(sum, w, Save(h, m, now, edit));
    StoreGood(sum, w.files, HandleOf(w, h), m, now, edit);
    ViewLast(sum, Lines(w.files.log), m.id);
    var lines, next := Lines(w.files.log), Lines(v.files.log);
    if !(LastAt(sum, lines, m.id) < |lines| && !edit) {
      assert next == lines + [Bundle(full)];
      FilledTells(sum, m, now);
      StorableEcho(sum, m, now);
      var id := full.id;
      GetReadsLast(sum, v, g, id);
      LastAtStep(sum, next, id);
      assert Carries(sum, next[|lines|], id);
    }
  }

  lemma StorableEcho(sum: Str -> Str, m: Msg, now: int)
    requires Storable(sum, m, now)
    ensures m.echo != []
  {
    hide TextOf, T.Canonical, T.Print;
    FilledTells(sum, m, now);
    assert m.echo == [] ==> Without(m.echo, CR) == [];
  }

  /** Blacklisting adds the one tag and changes nothing else. */
  lemma BlacklistedTells(m: Msg)
    ensures var b := Blacklisted(m);
            b.(tags := m.tags) == m && b.tags.hash == m.tags.hash["access" := "blacklist"]
            && b.tags.list == if "access" in m.tags.hash then m.tags.list else m.tags.list + ["access"]
  {
    BlacklistedTags(m);
    BanOnlyTags(m);
  }

  // ---------------------------------------------------------------- when loading fails

  /** Loading into an open handle when the index file holds a line that is no record after the place read
      up to: nothing moves on, so that the next load fails again; the list stays, though entries read
      before the bad line are in the map already. */
  lemma BadTail(sum: Str -> Str, f: Files, h: Handle, good: seq<Str>, bad: Str, rest: seq<Str>)
    requires f.idx.Some? && h.Open? && |f.idx.value| > h.size
    requires Lines(f.idx.value[h.size..]) == good + [bad] + rest
    requires (forall i :: 0 <= i < |good| ==> ParseRecord(good[i]).Some?) && ParseRecord(bad).None?
    ensures var r := Refresh(sum, f, h);
            r.status == BadLine && r.files == f && r.handle.Open? && r.handle.size == h.size
            && r.handle.ix.list == h.ix.list && r.handle.ix.hash == LoadLines(h.ix, good).ix.hash
  {
    hide Lines, ParseRecord, Insert;
    LoadsGood(h.ix, good);
    LoadsBad(h.ix, good, bad, rest);
  }

  lemma {:induction false} LoadsGood(ix: Index, good: seq<Str>)
    requires forall i :: 0 <= i < |good| ==> ParseRecord(good[i]).Some?
    ensures LoadLines(ix, good).ok
  {
    hide ParseRecord, Insert;
    if good != [] { LoadsGood(ix, good[..|good| - 1]); }
  }

  lemma {:induction false} LoadsBad(ix: Index, good: seq<Str>, bad: Str, rest: seq<Str>)
    requires LoadLines(ix, good).ok && ParseRecord(bad).None?
    ensures LoadLines(ix, good + [bad] + rest) == Loaded(LoadLines(ix, good).ix, false)
  {
    hide ParseRecord, Insert;
    var all := good + [bad] + rest;
    if rest == [] {
      assert all == good + [bad] && all[..|all| - 1] == good;
    } else {
      var n := |rest| - 1;
      LoadsBad(ix, good, bad, rest[..n]);
      assert all[..|all| - 1] == good + [bad] + rest[..n];
    }
  }

  /** An index file shorter than what a handle has read: it is printed anew, over the old text; the handle
      is not loaded again, and the first record found in the file ends the program. */
  lemma ShrunkIndex(sum: Str -> Str, f: Files, h: Handle)
    requires f.idx.Some? && h.Open? && |f.idx.value| < h.size
    ensures var r := Refresh(sum, f, h); var text := r.files.idx;
            r.files.log == f.log && text.Some? && IndexText(sum, f.log) <= text.value
            && text.value[|IndexText(sum, f.log)|..]
               == (if |IndexText(sum, f.log)| < |f.idx.value| then f.idx.value[|IndexText(sum, f.log)|..] else [])
            && (if Lines(text.value) == [] then r.status == Good && r.handle == Closed
                else r.handle == h && (r.status == Crash <==> ParseRecord(Lines(text.value)[0]).Some?)
                     && (r.status == BadLine <==> ParseRecord(Lines(text.value)[0]).None?))
  {
    hide Lines, ParseRecord, IndexText;
  }
}
