/** The message log and the index derived from it, as texts and as loaded tables. */
module Log {
  import opened Bytes
  import opened Codec
  import Base64
  import T = Tags

  const ACCESS: Str := "access"
  const BLACKLIST: Str := "blacklist"

  /** MsgInfo without Topic, which is kept apart (see Topics). */
  datatype Info = Info(num: nat, id: Str, echo: Str, to: Str, off: int, repto: Str, from: Str)

  /** The loaded table: ids in order of first appearance, and the latest record of each. */
  datatype Index = Index(list: seq<Str>, hash: map<Str, Info>)

  const EMPTY := Index([], map[])

  // ---------------------------------------------------------------- writing the index

  /** A blacklisted message has its offset negated. */
  function SignedOff(m: Msg, off: nat): int {
    if Tag(m, ACCESS) == BLACKLIST then -(off as int) else off
  }

  function Fields(m: Msg, off: int): seq<Str> {
    [m.id, m.echo, Itoa(off), m.to, m.from, Tag(m, REPTO)]
  }

  /** One index line, without its newline. */
  function Record(m: Msg, off: int): Str { Join(Fields(m, off), COLON) }

  /** What _CreateIndex writes for the log line at offset `off`. */
  function Entry(sum: Str -> Str, line: Str, off: nat): Str {
    var m := Decode(sum, line);
    if m.Err? then [] else Record(m.value, SignedOff(m.value, off)) + [NL]
  }

  /** What _CreateIndex writes for a whole log. */
  function PrintIndex(sum: Str -> Str, lines: seq<Str>): Str {
    if lines == [] then []
    else
      var init, last := lines[..|lines| - 1], lines[|lines| - 1];
      PrintIndex(sum, init) + Entry(sum, last, |Unlines(init)|)
  }

  function IndexText(sum: Str -> Str, log: Str): Str { PrintIndex(sum, Lines(log)) }

  // ---------------------------------------------------------------- reading the index

  /** One index line read back; None is a format error. Fields past the sixth are not looked at. */
  function ParseRecord(line: Str): Option<Info> {
    var f := Split(line, COLON);
    if |f| < 6 then None
    else
      var off := ScanInt(f[2]);
      if off.None? then None else Some(Info(0, f[0], f[1], f[3], off.value, f[5], f[4]))
  }

  /** A new id goes to the end of the list; a known one keeps its number. */
  function Insert(ix: Index, mi: Info): Index {
    if mi.id in ix.hash then ix.(hash := ix.hash[mi.id := mi.(num := ix.hash[mi.id].num)])
    else Index(ix.list + [mi.id], ix.hash[mi.id := mi.(num := |ix.list|)])
  }

  datatype Loaded = Loaded(ix: Index, ok: bool)

  /** Reading index lines one by one, stopping at the first malformed one. */
  function LoadLines(ix: Index, lines: seq<Str>): Loaded {
    if lines == [] then Loaded(ix, true)
    else
      var before := LoadLines(ix, lines[..|lines| - 1]);
      if !before.ok then before
      else
        var mi := ParseRecord(lines[|lines| - 1]);
        if mi.None? then Loaded(before.ix, false) else Loaded(Insert(before.ix, mi.value), true)
  }

  lemma {:induction false} LoadAppend(ix: Index, a: seq<Str>, b: seq<Str>)
    requires LoadLines(ix, a).ok
    ensures LoadLines(ix, a + b) == LoadLines(LoadLines(ix, a).ix, b)
  {
    if b == [] {
      assert a + b == a;
    } else {
      LoadAppend(ix, a, b[..|b| - 1]);
      assert (a + b)[..|a + b| - 1] == a + b[..|b| - 1];
    }
  }

  /** The loaded table is an ordered map whose numbers are list positions. */
  ghost predicate Sound(ix: Index) {
    && T.NoDups(ix.list)
    && (forall id :: id in ix.hash <==> id in ix.list)
    && (forall i :: 0 <= i < |ix.list| ==> ix.list[i] in ix.hash && ix.hash[ix.list[i]].num == i)
    && (forall id :: id in ix.hash ==> ix.hash[id].id == id)
  }

  lemma InsertSound(ix: Index, mi: Info)
    requires Sound(ix)
    ensures Sound(Insert(ix, mi))
    ensures ix.list <= Insert(ix, mi).list
  {
    var jx := Insert(ix, mi);
    if mi.id !in ix.hash {
      forall id ensures id in jx.hash <==> id in jx.list {
        if id in jx.list {
          var i :| 0 <= i < |jx.list| && jx.list[i] == id;
          assert i < |ix.list| ==> ix.list[i] in ix.list;
        } else {
          assert jx.list[|ix.list|] == mi.id;
          assert id in ix.list ==> id in jx.list;
        }
      }
    }
  }

  lemma {:induction false} LoadSound(ix: Index, lines: seq<Str>)
    requires Sound(ix)
    ensures Sound(LoadLines(ix, lines).ix)
    ensures ix.list <= LoadLines(ix, lines).ix.list
  {
    if lines != [] {
      LoadSound(ix, lines[..|lines| - 1]);
      var before := LoadLines(ix, lines[..|lines| - 1]);
      var mi := ParseRecord(lines[|lines| - 1]);
      if before.ok && mi.Some? {
        InsertSound(before.ix, mi.value);
      }
    }
  }

  // ---------------------------------------------------------------- records survive

  /** The record as it is meant. */
  function Meant(m: Msg, off: int): Info {
    Info(0, m.id, m.echo, m.to, off, Tag(m, REPTO), m.from)
  }

  /** The last three fields as they are read back: a colon in one of them makes more of it. */
  function Tail(m: Msg): (t: seq<Str>)
    ensures |t| >= 3
  {
    TailParts(m.to, m.from, Tag(m, REPTO));
    Split(m.to + [COLON] + m.from + [COLON] + Tag(m, REPTO), COLON)
  }

  lemma TailParts(to: Str, from: Str, r: Str)
    ensures Split(to + [COLON] + from + [COLON] + r, COLON) == Split(to, COLON) + (Split(from, COLON) + Split(r, COLON))
  {
    hide Split;
    SplitConcat(from, r, COLON);
    SplitConcat(to, from + [COLON] + r, COLON);
    assert to + [COLON] + (from + [COLON] + r) == to + [COLON] + from + [COLON] + r;
  }

  /** What the record of m says once it is read back. */
  function InfoOf(m: Msg, off: int): Info {
    var t := Tail(m);
    Info(0, m.id, m.echo, t[0], off, t[2], t[1])
  }

  /** The fields that index records do not escape. */
  ghost predicate IndexSafe(m: Msg) {
    Free(m.to, COLON) && Free(m.from, COLON) && Free(Tag(m, REPTO), COLON)
  }

  ghost predicate NoColon(m: Msg) { Free(m.id, COLON) && Free(m.echo, COLON) && IndexSafe(m) }

  lemma InfoMeant(m: Msg, off: int)
    requires IndexSafe(m)
    ensures InfoOf(m, off) == Meant(m, off)
  {
    hide Split;
    var r := Tag(m, REPTO);
    SplitFree(m.to, COLON);
    SplitFree(m.from, COLON);
    SplitFree(r, COLON);
    SplitConcat(m.from, r, COLON);
    SplitConcat(m.to, m.from + [COLON] + r, COLON);
    assert m.to + [COLON] + (m.from + [COLON] + r) == m.to + [COLON] + m.from + [COLON] + r;
  }

  lemma RecordText(m: Msg, off: int)
    ensures Record(m, off) == m.id + [COLON] + (m.echo + [COLON] + (Itoa(off) + [COLON]
                              + (m.to + [COLON] + m.from + [COLON] + Tag(m, REPTO))))
  {
    hide Itoa;
    var f := Fields(m, off);
    assert f[1..][1..] == f[2..] && f[2..][1..] == f[3..] && f[3..][1..] == f[4..] && f[4..][1..] == f[5..];
    assert Join(f[5..], COLON) == f[5];
    assert Join(f[4..], COLON) == f[4] + [COLON] + f[5];
    assert Join(f[3..], COLON) == m.to + [COLON] + m.from + [COLON] + Tag(m, REPTO);
    assert Join(f[2..], COLON) == f[2] + [COLON] + Join(f[3..], COLON);
    assert Join(f[1..], COLON) == f[1] + [COLON] + Join(f[2..], COLON);
  }

  /** Whatever its last three fields hold, the record of a colon-free id and echo is read back with
      that id, echo and offset. */
  lemma RecordParses(m: Msg, off: int)
    requires MIN_INT64 <= off <= MAX_INT64 && Free(m.id, COLON) && Free(m.echo, COLON)
    ensures ParseRecord(Record(m, off)) == Some(InfoOf(m, off))
  {
    hide Split, Itoa, ScanInt, Join;
    ItoaFree(off, COLON);
    ScanItoa(off);
    RecordText(m, off);
    SplitFree(m.id, COLON);
    SplitFree(m.echo, COLON);
    SplitFree(Itoa(off), COLON);
    var tail := m.to + [COLON] + m.from + [COLON] + Tag(m, REPTO);
    SplitConcat(Itoa(off), tail, COLON);
    SplitConcat(m.echo, Itoa(off) + [COLON] + tail, COLON);
    SplitConcat(m.id, m.echo + [COLON] + (Itoa(off) + [COLON] + tail), COLON);
    assert Split(Record(m, off), COLON) == [m.id] + ([m.echo] + ([Itoa(off)] + Tail(m)));
  }

  /** Index fields are not escaped: a record reads back as it was meant exactly when none of the
      five text fields holds a colon. */
  lemma RecordRoundTrip(m: Msg, off: int)
    requires MIN_INT64 <= off <= MAX_INT64
    ensures ParseRecord(Record(m, off)) == Some(Meant(m, off)) <==> NoColon(m)
  {
    if NoColon(m) {
      RecordParses(m, off);
      InfoMeant(m, off);
    } else if ParseRecord(Record(m, off)) == Some(Meant(m, off)) {
      JoinSplit(Record(m, off), COLON);
    }
  }

  // ---------------------------------------------------------------- the table of a log

  /** The table meant by a log: each decodable line inserted in turn, at its offset. */
  function View(sum: Str -> Str, lines: seq<Str>): Index {
    if lines == [] then EMPTY
    else
      var init, last := lines[..|lines| - 1], lines[|lines| - 1];
      var m := Decode(sum, last);
      if m.Err? then View(sum, init)
      else Insert(View(sum, init), InfoOf(m.value, SignedOff(m.value, |Unlines(init)|)))
  }

  /** MsgId returns twenty bytes of a base64 text without '+' and '/'. */
  ghost predicate GoodSum(sum: Str -> Str) {
    forall s :: IsMsgId(sum(s)) && Free(sum(s), COLON) && Free(sum(s), NL)
  }

  /** What is decoded from one line of a file would survive being stored again. */
  lemma DecodedSurvives(sum: Str -> Str, line: Str)
    requires GoodSum(sum) && Free(line, NL) && Decode(sum, line).Ok?
    ensures Survives(Decode(sum, line).value) && Free(Decode(sum, line).value.id, NL)
  {
    if COLON in line {
      DecodeSurvives(sum, line);
      SplitKeepsFree(line, COLON, NL);
      assert Free(Split(line, COLON)[0], NL);
    } else {
      var data := Base64.Decode(StdSpelling(line)).value;
      WithoutFree(data, CR);
      var text := Without(data, CR);
      assert IsMsgId(sum(text)) && Free(sum(text), COLON) && Free(sum(text), NL);
      ParsedSurvives(sum(text), text);
    }
  }

  lemma FieldsFree(sum: Str -> Str, line: Str, off: int)
    requires GoodSum(sum) && Free(line, NL) && Decode(sum, line).Ok?
    ensures var m := Decode(sum, line).value;
            Free(m.id, COLON) && Free(m.echo, COLON) && AllFree(Fields(m, off), NL)
  {
    hide Decode, T.Canonical, T.Print, Itoa, GoodSum, IsMsgId;
    var m := Decode(sum, line).value;
    DecodedSurvives(sum, line);
    ReptoFree(m);
    ItoaFree(off, NL);
  }

  lemma ReptoFree(m: Msg)
    requires Survives(m)
    ensures Free(Tag(m, REPTO), NL)
  {
    if REPTO in m.tags.hash {
      TagFree(m.tags, REPTO, NL);
    }
  }

  lemma TagFree(t: T.Tags, k: Str, c: Byte)
    requires T.Canonical(t) && Free(T.Print(t), c) && k in t.hash
    ensures Free(t.hash[k], c) && Free(k, c)
  {
    assert k in t.list;
    var i :| 0 <= i < |t.list| && t.list[i] == k;
    T.FlatAt(t.list, t.hash, i);
    var f := T.Flat(t.list, t.hash);
    JoinFreeParts(f, SLASH, c);
    assert Free(f[2 * i], c) && Free(f[2 * i + 1], c);
  }

  lemma EntryParses(sum: Str -> Str, line: Str, off: nat)
    requires GoodSum(sum) && Free(line, NL) && off <= MAX_INT64
    ensures Terminated(Entry(sum, line, off))
    ensures var m := Decode(sum, line); var ls := Lines(Entry(sum, line, off));
            if m.Err? then ls == []
            else |ls| == 1 && ParseRecord(ls[0]) == Some(InfoOf(m.value, SignedOff(m.value, off)))
  {
    var m := Decode(sum, line);
    if m.Ok? {
      var o := SignedOff(m.value, off);
      FieldsFree(sum, line, o);
      JoinKeepsFree(Fields(m.value, o), COLON, NL);
      LinesOne(Record(m.value, o));
      RecordParses(m.value, o);
    }
  }

  lemma {:induction false} PrintTerminated(sum: Str -> Str, lines: seq<Str>)
    ensures Terminated(PrintIndex(sum, lines))
  {
    if lines != [] {
      PrintTerminated(sum, lines[..|lines| - 1]);
    }
  }

  lemma {:induction false} PrintPrefix(sum: Str -> Str, a: seq<Str>, b: seq<Str>)
    ensures PrintIndex(sum, a) <= PrintIndex(sum, a + b)
  {
    if b == [] {
      assert a + b == a;
    } else {
      PrintPrefix(sum, a, b[..|b| - 1]);
      assert (a + b)[..|a + b| - 1] == a + b[..|b| - 1];
    }
  }

  /** Loading the printed index from scratch gives the table of the log. */
  lemma {:induction false} LoadOfPrint(sum: Str -> Str, lines: seq<Str>)
    requires GoodSum(sum) && AllFree(lines, NL) && |Unlines(lines)| <= MAX_INT64
    ensures LoadLines(EMPTY, Lines(PrintIndex(sum, lines))) == Loaded(View(sum, lines), true)
  {
    if lines != [] {
      var init, last := lines[..|lines| - 1], lines[|lines| - 1];
      assert lines == init + [last];
      UnlinesAppend(init, [last]);
      LoadOfPrint(sum, init);
      EntryParses(sum, last, |Unlines(init)|);
      PrintTerminated(sum, init);
      var p, e := PrintIndex(sum, init), Entry(sum, last, |Unlines(init)|);
      LinesAppend(p, e);
      LoadAppend(EMPTY, Lines(p), Lines(e));
      LoadOne(View(sum, init), Lines(e));
    }
  }

  lemma LoadOne(ix: Index, ls: seq<Str>)
    ensures ls == [] ==> LoadLines(ix, ls) == Loaded(ix, true)
    ensures |ls| == 1 && ParseRecord(ls[0]).Some? ==>
              LoadLines(ix, ls) == Loaded(Insert(ix, ParseRecord(ls[0]).value), true)
  {
    if |ls| == 1 {
      assert ls[..0] == [];
    }
  }

  /** Reading only the tail past an earlier size completes an earlier table to the current one. */
  lemma LoadTail(sum: Str -> Str, a: seq<Str>, b: seq<Str>)
    requires GoodSum(sum) && AllFree(a + b, NL) && |Unlines(a + b)| <= MAX_INT64
    ensures PrintIndex(sum, a) <= PrintIndex(sum, a + b)
    ensures LoadLines(View(sum, a), Lines(PrintIndex(sum, a + b)[|PrintIndex(sum, a)|..]))
            == Loaded(View(sum, a + b), true)
  {
    hide *;
    var p, q := PrintIndex(sum, a), PrintIndex(sum, a + b);
    PrintPrefix(sum, a, b);
    PrintTerminated(sum, a);
    UnlinesAppend(a, b);
    FreePrefix(a, b);
    LoadOfPrint(sum, a);
    LoadOfPrint(sum, a + b);
    LoadRest(p, q[|p|..]);
    assert q == p + q[|p|..];
  }

  lemma FreePrefix(a: seq<Str>, b: seq<Str>)
    requires AllFree(a + b, NL)
    ensures AllFree(a, NL)
  {
    forall i | 0 <= i < |a| ensures Free(a[i], NL) { assert (a + b)[i] == a[i]; }
  }

  lemma LoadRest(p: Str, tail: Str)
    requires Terminated(p) && LoadLines(EMPTY, Lines(p)).ok
    ensures LoadLines(EMPTY, Lines(p + tail)) == LoadLines(LoadLines(EMPTY, Lines(p)).ix, Lines(tail))
  {
    LinesAppend(p, tail);
    LoadAppend(EMPTY, Lines(p), Lines(tail));
  }

  lemma {:induction false} ViewSound(sum: Str -> Str, lines: seq<Str>)
    ensures Sound(View(sum, lines))
  {
    if lines != [] {
      var init, last := lines[..|lines| - 1], lines[|lines| - 1];
      ViewSound(sum, init);
      var m := Decode(sum, last);
      if m.Ok? {
        InsertSound(View(sum, init), InfoOf(m.value, SignedOff(m.value, |Unlines(init)|)));
      }
    }
  }

  /** A longer log never moves a message: the list only grows at its end. */
  lemma {:induction false} ViewGrows(sum: Str -> Str, a: seq<Str>, b: seq<Str>)
    ensures View(sum, a).list <= View(sum, a + b).list
    ensures forall id :: id in View(sum, a).hash ==>
              id in View(sum, a + b).hash && View(sum, a + b).hash[id].num == View(sum, a).hash[id].num
  {
    hide Decode, InfoOf, SignedOff, Unlines;
    if b == [] {
      assert a + b == a;
    } else {
      ViewGrows(sum, a, b[..|b| - 1]);
      assert (a + b)[..|a + b| - 1] == a + b[..|b| - 1];
    }
  }

  // ---------------------------------------------------------------- last line wins

  /** Does this log line carry the message `id`? */
  predicate Carries(sum: Str -> Str, line: Str, id: Str) {
    var m := Decode(sum, line);
    m.Ok? && m.value.id == id
  }

  /** Position of the last line carrying `id`, or the number of lines. */
  function LastAt(sum: Str -> Str, lines: seq<Str>, id: Str): (k: nat)
    ensures k <= |lines|
  {
    if lines == [] then 0
    else
      var n := |lines| - 1;
      if Carries(sum, lines[n], id) then n
      else
        var k := LastAt(sum, lines[..n], id);
        if k == n then n + 1 else k
  }

  lemma {:induction false} LastAtIsLast(sum: Str -> Str, lines: seq<Str>, id: Str)
    ensures var k := LastAt(sum, lines, id);
            (k < |lines| ==> Carries(sum, lines[k], id))
            && forall j :: 0 <= j < |lines| && (k < j || k == |lines|) ==> !Carries(sum, lines[j], id)
  {
    hide Carries;
    if lines != [] {
      var n := |lines| - 1;
      LastAtIsLast(sum, lines[..n], id);
      forall j | 0 <= j < n ensures lines[..n][j] == lines[j] {}
    }
  }

  /** One more line sets the entry of the id it carries and leaves the others alone. */
  lemma ViewStep(sum: Str -> Str, init: seq<Str>, last: Str, id: Str)
    ensures var v, w := View(sum, init), View(sum, init + [last]);
            var m := Decode(sum, last);
            if Carries(sum, last, id)
            then id in w.hash
                 && w.hash[id].(num := 0) == InfoOf(m.value, SignedOff(m.value, |Unlines(init)|))
            else (id in w.hash <==> id in v.hash) && (id in v.hash ==> w.hash[id] == v.hash[id])
  {
    hide Decode, Unlines, SignedOff;
    assert (init + [last])[..|init|] == init;
  }

  lemma LastAtStep(sum: Str -> Str, lines: seq<Str>, id: Str)
    ensures var n := |lines| - 1;
            if lines == [] then LastAt(sum, lines, id) == 0 && View(sum, lines).hash == map[]
            else if Carries(sum, lines[n], id) then LastAt(sum, lines, id) == n
            else var k := LastAt(sum, lines[..n], id);
                 LastAt(sum, lines, id) == if k == n then n + 1 else k
  {
    hide Carries;
  }

  /** Entry `id` of the table of `lines` is the record of line `k`. */
  ghost predicate EntryIs(sum: Str -> Str, lines: seq<Str>, id: Str, k: nat)
    requires k < |lines|
  {
    var m := Decode(sum, lines[k]);
    && m.Ok?
    && id in View(sum, lines).hash
    && View(sum, lines).hash[id].(num := 0)
       == InfoOf(m.value, SignedOff(m.value, |Unlines(lines[..k])|))
  }

  lemma EntryIsKept(sum: Str -> Str, init: seq<Str>, last: Str, id: Str, k: nat)
    requires k < |init| && EntryIs(sum, init, id, k) && !Carries(sum, last, id)
    ensures EntryIs(sum, init + [last], id, k)
  {
    hide Decode, Unlines, SignedOff, View, InfoOf, Insert, Carries;
    ViewStep(sum, init, last, id);
    assert (init + [last])[k] == init[k];
    assert (init + [last])[..k] == init[..k];
  }

  /** The table holds, for each id, the record of the last line that carries it. */
  lemma {:induction false} ViewLast(sum: Str -> Str, lines: seq<Str>, id: Str)
    ensures var k := LastAt(sum, lines, id);
            if k < |lines| then EntryIs(sum, lines, id, k) else id !in View(sum, lines).hash
  {
    hide Decode, Unlines, SignedOff, Insert, View, LastAt;
    LastAtStep(sum, lines, id);
    if lines != [] {
      var n := |lines| - 1;
      ViewLast(sum, lines[..n], id);
      ViewStep(sum, lines[..n], lines[n], id);
      assert lines == lines[..n] + [lines[n]];
      var k := LastAt(sum, lines[..n], id);
      if k < n && !Carries(sum, lines[n], id) {
        EntryIsKept(sum, lines[..n], lines[n], id, k);
      }
    }
  }

  function Abs(n: int): nat { if n < 0 then -n else n }

  /** Following an entry's offset into the log reads exactly the last line carrying the id. */
  lemma OffsetReadsLast(sum: Str -> Str, log: Str, id: Str)
    requires Terminated(log) && id in View(sum, Lines(log)).hash
    ensures var k := LastAt(sum, Lines(log), id);
            k < |Lines(log)| && ReadAt(log, Abs(View(sum, Lines(log)).hash[id].off)) == Lines(log)[k]
  {
    hide Decode, Lines, Unlines, View, LastAt, ReadAt, Carries;
    var lines := Lines(log);
    ViewLast(sum, lines, id);
    var k := LastAt(sum, lines, id);
    LinesFree(log);
    UnlinesLines(log);
    ReadNth(lines, k);
  }

  lemma ReadNth(lines: seq<Str>, k: nat)
    requires k < |lines| && AllFree(lines, NL)
    ensures ReadAt(Unlines(lines), |Unlines(lines[..k])|) == lines[k]
  {
    var before, l, after := lines[..k], lines[k], lines[k + 1..];
    assert Free(l, NL);
    ReadAtLine(before, l, after);
    assert before + [l] + after == lines;
  }

  // ---------------------------------------------------------------- the table, field by field

  /** An id is in the table exactly when some line carries it. Its entry is made of the last such line:
      the echo, the byte offset of the line, negative for a blacklisted message, and, where they hold no
      colon, recipient, sender and the message replied to. */
  lemma TableTells(sum: Str -> Str, lines: seq<Str>, id: Str)
    ensures var v, k := View(sum, lines), LastAt(sum, lines, id);
            (id in v.hash <==> k < |lines|) && (k < |lines| ==>
               Decode(sum, lines[k]).Ok?
               && var m, x, at := Decode(sum, lines[k]).value, v.hash[id], |Unlines(lines[..k])|;
                  x.id == m.id == id && x.echo == m.echo
                  && x.off == (if Tag(m, "access") == "blacklist" then -at else at)
                  && (':' !in m.to && ':' !in m.from && ':' !in Tag(m, "repto") ==>
                        x.to == m.to && x.from == m.from && x.repto == Tag(m, "repto")))
  {
    hide Decode, View, LastAt, Unlines, InfoOf;
    ViewLast(sum, lines, id);
    LastAtIsLast(sum, lines, id);
    var k := LastAt(sum, lines, id);
    if k < |lines| {
      var m := Decode(sum, lines[k]).value;
      var o := SignedOff(m, |Unlines(lines[..k])|);
      InfoIs(m, o);
      if IndexSafe(m) { InfoMeant(m, o); }
    }
  }

  lemma InfoIs(m: Msg, off: int)
    ensures InfoOf(m, off).id == m.id && InfoOf(m, off).echo == m.echo && InfoOf(m, off).off == off
  {
    hide Tail;
  }

  /** Position of the first line carrying `id`, or the number of lines. */
  function FirstAt(sum: Str -> Str, lines: seq<Str>, id: Str): (k: nat)
    ensures k <= |lines|
  {
    if lines == [] then 0
    else
      var n := |lines| - 1;
      var k := FirstAt(sum, lines[..n], id);
      if k < n || Carries(sum, lines[n], id) then k else n + 1
  }

  lemma {:induction false} FirstAtIsFirst(sum: Str -> Str, lines: seq<Str>, id: Str)
    ensures var k := FirstAt(sum, lines, id);
            (k < |lines| ==> Carries(sum, lines[k], id)) && forall j :: 0 <= j < k ==> !Carries(sum, lines[j], id)
  {
    hide Carries;
    if lines != [] {
      var n := |lines| - 1;
      FirstAtIsFirst(sum, lines[..n], id);
      forall j | 0 <= j < n ensures lines[..n][j] == lines[j] {}
    }
  }

  /** Numbers follow the order of first appearance in the log. */
  lemma {:induction false} NumberOrder(sum: Str -> Str, lines: seq<Str>, a: Str, b: Str)
    ensures var v := View(sum, lines);
            (a in v.hash <==> FirstAt(sum, lines, a) < |lines|)
            && (a in v.hash && b in v.hash ==>
                  (v.hash[a].num < v.hash[b].num <==> FirstAt(sum, lines, a) < FirstAt(sum, lines, b)))
  {
    hide Decode, Unlines, InfoOf, SignedOff, Sound;
    if lines != [] {
      var n := |lines| - 1;
      NumberOrder(sum, lines[..n], a, b);
      NumberOrder(sum, lines[..n], b, a);
      ViewSound(sum, lines[..n]);
      var m := Decode(sum, lines[n]);
      var v := View(sum, lines[..n]);
      if m.Ok? {
        InfoIs(m.value, SignedOff(m.value, |Unlines(lines[..n])|));
        if a in v.hash { NumberFits(v, a); }
        if b in v.hash { NumberFits(v, b); }
      }
    }
  }

  lemma NumberFits(ix: Index, id: Str)
    requires Sound(ix) && id in ix.hash
    ensures ix.hash[id].num < |ix.list|
  {
    assert id in ix.list;
    var i :| 0 <= i < |ix.list| && ix.list[i] == id;
  }
}
