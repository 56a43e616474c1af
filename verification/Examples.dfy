/** Inputs on which a property fails that one might expect of the program, each an input it can
    receive: a log of decodable lines, a run of its own calls, valid ids and echo names. */
module Examples {
  import opened Bytes
  import opened Codec
  import opened Log
  import opened Store
  import opened Url
  import Base64
  import C = Clean
  import Cy = Cycles
  import D = FetchData
  import F = Fetch
  import O = Requests
  import P = Quota
  import Q = Query
  import R = FetchRun
  import S = Serve
  import T = Tags
  import Tp = Topics
  import U = Users

  const ECHO: Str := "ab.c"
  const A := Twenty('a')
  const B := Twenty('b')
  const M := Twenty('m')
  const SLASHED: Str := "aaaaaaaaa/bbbbbbbbbb"

  /** An id: one letter twenty times. */
  function Twenty(c: Byte): (id: Str)
    ensures |id| == 20 && forall i :: 0 <= i < 20 ==> id[i] == c
  {
    seq(20, i => c)
  }

  // ---------------------------------------------------------------- small messages

  function Note(id: Str, to: Str, tags: T.Tags): Msg { Msg(id, tags, ECHO, 1, "f", [], to, "s", "x") }

  function OneTag(k: Str, v: Str): T.Tags { T.Put(T.EMPTY, k, v) }

  ghost predicate Small(s: Str) {
    |s| <= 20 && Free(s, COLON) && Free(s, NL) && Free(s, CR)
  }

  ghost predicate SmallTag(k: Str, v: Str) {
    Small(k) && Small(v) && Free(k, SLASH) && Free(v, SLASH)
    && k != [] && k[0] != T.SPACE && v != [] && v[|v| - 1] != T.SPACE && (k == REPTO ==> IsMsgId(v))
  }

  ghost predicate SmallTags(t: T.Tags) { t == T.EMPTY || exists k, v :: SmallTag(k, v) && t == OneTag(k, v) }

  lemma {:induction false} EncodeShort(s: Str)
    ensures |Base64.Encode(s)| <= 4 * |s|
  {
    if |s| > 2 { EncodeShort(s[3..]); }
  }

  lemma {:induction false} JoinShort(parts: seq<Str>, c: Byte)
    requires |parts| >= 1 && forall i :: 0 <= i < |parts| ==> |parts[i]| <= 100
    ensures |Join(parts, c)| <= 101 * |parts|
  {
    if |parts| > 1 { JoinShort(parts[1..], c); }
  }

  lemma EmptyPrint()
    ensures T.Canonical(T.EMPTY) && T.Print(T.EMPTY) == []
  {
  }

  lemma OneTagPrint(k: Str, v: Str)
    requires SmallTag(k, v)
    ensures T.Canonical(OneTag(k, v)) && T.Print(OneTag(k, v)) == k + [SLASH] + v
    ensures OneTag(k, v).hash == map[k := v]
  {
    EmptyPrint();
    PutCanonical(T.EMPTY, k, v);
    OneTagFlat(k, v);
    var two: seq<Str> := [k, v];
    assert two[1..] == [v];
    assert Join([v], SLASH) == v;
    assert Join(two, SLASH) == k + [SLASH] + v;
  }

  lemma OneTagFlat(k: Str, v: Str)
    ensures OneTag(k, v) == T.Tags([k], map[k := v])
    ensures T.Flat([k], map[k := v]) == [k, v]
  {
    var list: seq<Str> := [k];
    assert list[..0] == [];
  }

  lemma TagsFit(t: T.Tags)
    requires SmallTags(t)
    ensures T.Canonical(t) && Free(T.Print(t), NL) && Free(T.Print(t), CR) && |T.Print(t)| <= 41
    ensures REPTO in t.hash ==> IsMsgId(t.hash[REPTO]) && Free(t.hash[REPTO], COLON)
  {
    hide T.Canonical, T.Print;
    EmptyPrint();
    if t != T.EMPTY {
      var k, v :| SmallTag(k, v) && t == OneTag(k, v);
      OneTagPrint(k, v);
    }
  }

  lemma ItoaOne()
    ensures Itoa(1) == "1"
  {
    assert Decimal(1) == [Digit(1)];
  }

  lemma TextShort(m: Msg)
    requires |T.Print(m.tags)| <= 100 && m.date == 1 && |m.echo| <= 20 && |m.from| <= 20 && |m.addr| <= 20
    requires |m.to| <= 20 && |m.subj| <= 20 && |m.text| <= 20
    ensures |TextOf(m)| <= 909
  {
    hide T.Print, Itoa;
    ItoaOne();
    JoinShort(Header(m) + [m.text], NL);
  }

  /** Such a message can be stored, and its bundle is short. */
  lemma NoteFits(id: Str, to: Str, tags: T.Tags)
    requires IsMsgId(id) && Small(id) && Small(to) && SmallTags(tags)
    ensures var m := Note(id, to, tags);
            Survives(m) && Stripped(m) == m && Fit(m) && IndexSafe(m) && |Bundle(m)| <= 4000
  {
    hide T.Canonical, T.Print, TextOf, Stripped;
    var m := Note(id, to, tags);
    TagsFit(tags);
    TextShort(m);
    EncodeShort(TextOf(m));
    StrippedSame(m);
  }

  lemma FilledNote(sum: Str -> Str, id: Str, to: Str, tags: T.Tags, now: int)
    requires id != []
    ensures Filled(sum, Note(id, to, tags), now) == Note(id, to, tags)
  {
    hide TextOf;
  }

  // ---------------------------------------------------------------- small logs

  /** The log with one more note. */
  function Grown(log: Str, id: Str, to: Str, tags: T.Tags): Str { log + (Bundle(Note(id, to, tags)) + [NL]) }

  lemma GrownGood(sum: Str -> Str, log: Str, id: Str, to: Str, tags: T.Tags)
    requires GoodLog(log) && |log| <= 100_000
    requires IsMsgId(id) && Small(id) && Small(to) && SmallTags(tags)
    ensures var log', m := Grown(log, id, to, tags), Note(id, to, tags);
            GoodLog(log') && |log'| <= |log| + 4001
            && Lines(log') == Lines(log) + [Bundle(m)] && Decode(sum, Bundle(m)) == Ok(m)
            && View(sum, Lines(log')) == Insert(View(sum, Lines(log)), Meant(m, SignedOff(m, |log|)))
  {
    hide GoodLog, Lines, Decode, Bundle, Survives, SmallTags, SignedOff, Stripped, Fit;
    var m := Note(id, to, tags);
    NoteFits(id, to, tags);
    InfoMeant(m, SignedOff(m, |log|));
    AppendLine(sum, log, m);
    LogIsLines(sum, log);
    assert (Lines(log) + [Bundle(m)])[..|Lines(log)|] == Lines(log);
  }

  lemma LogIsLines(sum: Str -> Str, log: Str)
    requires GoodLog(log)
    ensures Unlines(Lines(log)) == log
  {
    UnlinesLines(log);
  }

  lemma EmptyLog(sum: Str -> Str)
    ensures GoodLog([]) && Lines([]) == [] && View(sum, []) == EMPTY
  {
  }

  lemma TwentyOk(c: Byte)
    requires 'a' <= c <= 'z'
    ensures IsMsgId(Twenty(c)) && Small(Twenty(c)) && UrlPlain(Twenty(c)) && Free(Twenty(c), SLASH)
    ensures Twenty(c)[0] == c
  {
    hide Twenty;
  }

  lemma Ids()
    ensures IsMsgId(A) && IsMsgId(B) && IsMsgId(M) && Small(A) && Small(B) && Small(M)
    ensures UrlPlain(A) && UrlPlain(B) && UrlPlain(M) && Free(A, SLASH) && Free(B, SLASH)
    ensures A != B && A != M && B != M && A != [] && B != [] && M != []
  {
    hide Twenty, IsMsgId, Small, UrlPlain, Free;
    TwentyOk('a');
    TwentyOk('b');
    TwentyOk('m');
  }

  lemma Banned()
    ensures SmallTags(OneTag(ACCESS, BLACKLIST)) && SmallTags(T.EMPTY)
    ensures OneTag(ACCESS, BLACKLIST).hash == map[ACCESS := BLACKLIST]
  {
    assert SmallTag(ACCESS, BLACKLIST);
  }

  // ---------------------------------------------------------------- offset 0 has no sign

  /** A message that comes already blacklisted, stored first of all: its offset is 0, and it is
      shown to everybody. */
  lemma FirstBlacklistedIsShown(sum: Str -> Str, now: int)
    requires GoodSum(sum) && MIN_INT64 <= now <= MAX_INT64
    ensures var w, m := World(Files([], None), map[]), Note(A, "t", OneTag(ACCESS, BLACKLIST));
            var op := Save(0, m, now, false);
            var v := Do(sum, w, op);
            Consistent(sum, w) && GoodOp(sum, op) && Tag(m, ACCESS) == BLACKLIST
            && Consistent(sum, v)
            && A in View(sum, Lines(v.files.log)).hash && View(sum, Lines(v.files.log)).hash[A].off == 0
            && var r := Refresh(sum, v.files, HandleOf(v, 0));
               BundleOf(r.files, r.handle, A, false) == Bundle(m) != []
  {
    hide GoodLog, Lines, Decode, View, Bundle, Refresh, StoreMsg, HandleOf, SmallTags, LastAt, ReadAt, IndexText, Survives,
         Snapshot, Stripped;
    var w, m := World(Files([], None), map[]), Note(A, "t", OneTag(ACCESS, BLACKLIST));
    Ids();
    Banned();
    EmptyLog(sum);
    StartConsistent(sum, []);
    NoteFits(A, "t", OneTag(ACCESS, BLACKLIST));
    FilledNote(sum, A, "t", OneTag(ACCESS, BLACKLIST), now);
    HandleSnapshotOf(sum, w, 0);
    SaveIsAppend(sum, w, m, now);
    GrownGood(sum, [], A, "t", OneTag(ACCESS, BLACKLIST));
    var v := Do(sum, w, Save(0, m, now, false));
    DoKeeps(sum, w, Save(0, m, now, false));
    HandleSnapshotOf(sum, v, 0);
    RefreshGood(sum, v.files, HandleOf(v, 0));
    GetReadsLast(sum, v, 0, A);
    OnlyLine(sum, Lines(v.files.log), m);
    NotEmptyLine(sum, Bundle(m));
  }

  lemma OnlyLine(sum: Str -> Str, lines: seq<Str>, m: Msg)
    requires lines == [Bundle(m)] && Decode(sum, Bundle(m)) == Ok(m)
    ensures LastAt(sum, lines, m.id) == 0
  {
    hide Decode, Bundle;
    LastAtStep(sum, lines, m.id);
  }

  /** Storing into an empty log. */
  lemma SaveIsAppend(sum: Str -> Str, w: World, m: Msg, now: int)
    requires GoodSum(sum) && Consistent(sum, w) && w.files.log == [] && Filled(sum, m, now) == m
    ensures Do(sum, w, Save(0, m, now, false)).files.log == [] + (Bundle(m) + [NL])
  {
    hide Bundle, Record, Filled, Refresh, View, Snapshot;
    EmptyLog(sum);
    HandleSnapshotOf(sum, w, 0);
    RefreshGood(sum, w.files, HandleOf(w, 0));
  }

  // ---------------------------------------------------------------- cleaning can reveal

  lemma NoteBundle(sum: Str -> Str, id: Str, to: Str, tags: T.Tags)
    requires IsMsgId(id) && Small(id) && Small(to) && SmallTags(tags)
    ensures C.BundleLine(sum, Bundle(Note(id, to, tags))) && C.IdOf(Bundle(Note(id, to, tags))) == Some(id)
  {
    hide Bundle, Survives, Decode, IsMsgId;
    NoteFits(id, to, tags);
    MessageRoundTrip(sum, Note(id, to, tags));
    BundleSplits(Note(id, to, tags));
  }

  function LogOfThree(): Str {
    Grown(Grown(Grown([], A, "t", T.EMPTY), B, "t", T.EMPTY), A, "t", OneTag(ACCESS, BLACKLIST))
  }

  /** Two messages, the first of them blacklisted later: it is hidden, and cleaning the log puts its
      last line first, where it is shown again. */
  lemma CleaningReveals(sum: Str -> Str)
    requires GoodSum(sum)
    ensures var lines := Lines(LogOfThree());
            var u, v := View(sum, lines), View(sum, C.Compacted(lines));
            GoodLog(LogOfThree()) && C.BundleLines(sum, lines)
            && A in u.hash && u.hash[A].off < 0 && A in v.hash && v.hash[A].off >= 0
  {
    hide GoodLog, Lines, Decode, View, Bundle, SmallTags, C.BundleLine, C.IdOf, C.Compacted, LastAt;
    Ids();
    Banned();
    EmptyLog(sum);
    var l1 := Grown([], A, "t", T.EMPTY);
    var l2 := Grown(l1, B, "t", T.EMPTY);
    GrownGood(sum, [], A, "t", T.EMPTY);
    GrownGood(sum, l1, B, "t", T.EMPTY);
    GrownGood(sum, l2, A, "t", OneTag(ACCESS, BLACKLIST));
    NoteBundle(sum, A, "t", T.EMPTY);
    NoteBundle(sum, B, "t", T.EMPTY);
    NoteBundle(sum, A, "t", OneTag(ACCESS, BLACKLIST));
    var lines := Lines(LogOfThree());
    assert |lines| == 3;
    assert Tag(Note(A, "t", OneTag(ACCESS, BLACKLIST)), ACCESS) == BLACKLIST;
    C.CleanKeepsIndex(sum, lines, A);
  }

  // ---------------------------------------------------------------- a colon in an index field

  /** The text of the record, one field more than was meant. */
  lemma ColonSplits(a: seq<Str>, b: seq<Str>)
    requires |a| >= 1 && |b| >= 1 && AllFree(a, COLON) && AllFree(b, COLON)
    ensures Split(Join(a + ["a:b"] + b, COLON), COLON) == a + ["a", "b"] + b
  {
    hide Split;
    var one: seq<Str>, two: seq<Str> := ["a:b"], ["a", "b"];
    assert two[1..] == ["b"];
    assert Join(two, COLON) == "a:b" == Join(one, COLON);
    assert AllFree(two, COLON);
    hide Join;
    JoinConcat(a, one, COLON);
    JoinConcat(a + one, b, COLON);
    JoinConcat(a, two, COLON);
    JoinConcat(a + two, b, COLON);
    SplitJoin(a + two + b, COLON);
  }

  lemma ColonNote()
    ensures Survives(Note(A, "a:b", T.EMPTY))
  {
    hide T.Canonical, T.Print, Twenty;
    Ids();
    EmptyPrint();
  }

  /** A message to "a:b" is decoded as such, and its index record says it is to "a" and from "b". */
  lemma ColonMovesFields(sum: Str -> Str)
    ensures var m := Note(A, "a:b", T.EMPTY);
            Decode(sum, Bundle(m)) == Ok(m)
            && ParseRecord(Record(m, 0)) == Some(Info(0, A, ECHO, "a", 0, "f", "b"))
  {
    hide Bundle, Split, ScanInt, Itoa, Decode, Join, Survives, Twenty;
    var m := Note(A, "a:b", T.EMPTY);
    ColonNote();
    MessageRoundTrip(sum, m);
    ScanItoa(0);
    ItoaFree(0, COLON);
    Ids();
    var a: seq<Str>, b: seq<Str> := [A, ECHO, Itoa(0)], ["f", []];
    assert AllFree(a, COLON) && AllFree(b, COLON);
    ColonSplits(a, b);
    assert Fields(m, 0) == a + ["a:b"] + b;
    assert a + ["a", "b"] + b == [A, ECHO, Itoa(0), "a", "b", "f", []];
  }

  // ---------------------------------------------------------------- limits

  /** Three messages on the remote, the first one known. A fetch of the last message makes a hole;
      the next fetch, of two, reads the last id, finds it known and asks for nothing, though its
      window reaches the known part. */
  lemma HoleStays()
    ensures var l, known := [A, B, M], {A};
            S.AllIds(l) && T.NoDups(l)
            && F.ToFetch(known, l, 1, false, true) == [M]
            && var next := F.Fetched(known, [M]);
               next == {A, M} && F.WindowCovers(next, l, 2) && !F.Prefix(next, l)
               && F.ToFetch(next, l, 2, false, true) == []
               && F.ToFetch(next, l, 2, true, true) == [B]
               && !F.AllKnown(F.Fetched(next, []), l)
  {
    Ids();
    var l: seq<Str>, m: seq<Str>, bm: seq<Str> := [A, B, M], [M], [B, M];
    assert l[2..] == m && l[1..] == bm && m[..0] == [] && bm[..1] == [B];
    assert [B][..0] == [];
    assert S.Slice(l, -1, 1) == m && S.Slice(l, -2, 2) == bm;
    assert F.Missing({A}, m) == [M];
    assert F.Missing({A, M}, [B]) == [B];
    assert F.Missing({A, M}, bm) == [B] + [] == [B];
    assert F.Fetched({A}, m) == {A, M};
    assert l[1] == B;
  }

  /** Without the u/e feature a fetch of one message asks for the whole list. */
  lemma NoFeatureIsFull()
    ensures var l, known := [A, B, M], {};
            !F.WindowCovers(known, l, 1)
            && F.AllKnown(F.Fetched(known, F.ToFetch(known, l, 1, false, false)), l)
  {
    Ids();
    var l: seq<Str> := [A, B, M];
    assert l[0] == A;
    F.MissingIs({}, l);
  }

  // ---------------------------------------------------------------- names a path cannot carry

  /** "a/b.c" is a valid echo name; asking for its list gives the list of the echo "b.c". */
  lemma SlashedEchoReadsAnother(ix: Index)
    requires Sound(ix) && S.AllIds(ix.list)
    ensures var e: Str, g: Str := "a/b.c", "b.c";
            IsEcho(e) && S.Listed(ix, e) == Some(S.Public(ix, g))
  {
    hide Sound, Arrive, Split, S.Public, S.AllIds, S.ScanSlice, S.Answer, S.Payload;
    var e: Str, g: Str := "a/b.c", "b.c";
    var parts: seq<Str> := ["a", g];
    assert parts[1..] == [g];
    assert Join([g], SLASH) == g;
    assert Join(parts, SLASH) == e;
    ElementsArrive(parts);
    S.EchoIsNoSlice(g);
    S.OneBlock(ix, g, 0, 0);
    assert S.Slice(S.Public(ix, g), 0, 0) == S.Public(ix, g);
    var a: seq<Str>, b: seq<Str> := ["a"], [g];
    assert a[..0] == [] && b[..0] == [] && parts[..1] == a;
    assert S.Blocks(ix, parts, [], 0, 0) == [] + [] + ([g] + S.Answer(ix, g, [], 0, 0));
    assert S.Blocks(ix, b, [], 0, 0) == [] + ([g] + S.Answer(ix, g, [], 0, 0));
  }

  lemma SlashedOk()
    ensures IsMsgId(SLASHED) && Small(SLASHED) && !UrlPlain(SLASHED) && PlainPath(SLASHED)
  {
    assert SLASHED[9] == SLASH;
  }

  /** A remote whose one public message has a slash in its id, and an empty local node. */
  function OneNote(sum: Str -> Str): R.Config {
    R.Config(sum, World(Files(Grown([], SLASHED, "t", T.EMPTY), None), map[]), 0, 0, [ECHO], 0, 6, false, true)
  }

  lemma OneListed(sum: Str -> Str)
    requires GoodSum(sum)
    ensures R.Ready(OneNote(sum)) && R.ListOf(OneNote(sum), ECHO) == [SLASHED]
  {
    hide GoodLog, Lines, Decode, View, Bundle, Survives, SmallTags, SignedOff, UrlPlain, S.Public, Sound, Insert;
    var c := OneNote(sum);
    SlashedOk();
    EmptyLog(sum);
    Banned();
    GrownGood(sum, [], SLASHED, "t", T.EMPTY);
    StartConsistent(sum, c.remote.files.log);
    EchoPlain();
    R.NodeReady(c);
    OnePublic(R.Table(c), Note(SLASHED, "t", T.EMPTY));
  }

  lemma EchoPlain()
    ensures UrlPlain(ECHO) && IsEcho(ECHO) && !IsPrivate(ECHO)
  {
  }

  /** The list of a table of one note. */
  lemma OnePublic(ix: Index, m: Msg)
    requires Sound(ix) && m.echo == ECHO && ix == Insert(EMPTY, Meant(m, SignedOff(m, 0)))
    ensures S.Public(ix, ECHO) == [m.id]
  {
    hide SignedOff, Tag;
    ZeroOff(m);
    EchoPlain();
    var x := Meant(m, 0);
    assert ix == Index([m.id], map[m.id := x]);
    var r, f := Q.Records(ix), Q.Listing(ECHO, [], false);
    assert r == [x] && r[..0] == [];
    assert Q.Pass(f, x);
    assert Q.Passing(f, []) == [];
    assert Q.Passing(f, r) == [] + [x];
  }

  lemma ZeroOff(m: Msg)
    ensures SignedOff(m, 0) == 0
  {
  }

  /** Of every run to the end without network errors, on that remote: the one fetcher has met no
      error, nothing was stored, and the message is missing. */
  lemma SlashedRun(sum: Str -> Str, evs: seq<R.Event>)
    requires GoodSum(sum) && Consistent(sum, NothingYet()) && R.Ready(OneNote(sum))
    requires R.ListOf(OneNote(sum), ECHO) == [SLASHED]
    requires R.Exec(OneNote(sum), NothingYet(), evs).Some? && R.Final(R.Exec(OneNote(sum), NothingYet(), evs).value)
    requires R.Calm(evs)
    ensures var c := OneNote(sum);
            var s := R.Exec(c, NothingYet(), evs).value;
            |s.workers| == 1 && !s.workers[0].cut && s.workers[0].echo == ECHO
            && SLASHED !in D.Held(c, s.local) && !F.AllKnown(D.Held(c, s.local), R.ListOf(c, ECHO))
  {
    hide GoodLog, Lines, View, UrlPlain, R.Exec, R.Ready, R.ListOf, IsEcho, PlainPath, R.ControlOk, GoodSum, Consistent,
         Grown, R.Calm;
    var c := OneNote(sum);
    SlashedOk();
    EchoPlain();
    EmptyLog(sum);
    D.CalmRun(c, NothingYet(), evs);
    D.NothingStored(c, NothingYet(), evs);
    R.RunControl(c, NothingYet(), evs);
    OneValid(c);
    var s := R.Exec(c, NothingYet(), evs).value;
    assert R.Echoes(s.workers) == [ECHO];
    assert R.Echoes(s.workers)[0] == s.workers[0].echo;
    assert D.CalmOk(s.workers[0]);
    assert R.ListOf(c, ECHO)[0] == SLASHED;
  }

  function NothingYet(): World { World(Files([], None), map[]) }

  /** Fetching from that remote can run to its end without any error, and leaves the message
      missing. */
  lemma SlashedIdIsNeverFetched(sum: Str -> Str) returns (evs: seq<R.Event>)
    requires GoodSum(sum)
    ensures var c, local := OneNote(sum), NothingYet();
            R.Ready(c) && Consistent(sum, local) && R.ListOf(c, ECHO) == [SLASHED]
            && R.Exec(c, local, evs).Some? && R.Final(R.Exec(c, local, evs).value) && R.Calm(evs)
            && var s := R.Exec(c, local, evs).value;
               |s.workers| == 1 && !s.workers[0].cut && s.workers[0].echo == ECHO
               && SLASHED !in D.Held(c, s.local) && !F.AllKnown(D.Held(c, s.local), R.ListOf(c, ECHO))
  {
    hide GoodLog, Lines, View, R.Exec, R.Ready, R.ListOf, GoodSum, Consistent, Grown, R.Calm, D.Held, F.AllKnown, R.Final;
    var c, local := OneNote(sum), NothingYet();
    OneListed(sum);
    EmptyLog(sum);
    StartConsistent(sum, []);
    StartExec(c, local);
    evs := R.CanFinish(c, local, []);
    assert [] + evs == evs;
    SlashedRun(sum, evs);
  }

  lemma StartExec(c: R.Config, local: World)
    ensures R.Exec(c, local, []).Some?
  {
  }

  lemma OneValid(c: R.Config)
    requires c.echoes == [ECHO]
    ensures R.Valid(c.echoes) == [ECHO]
  {
    var one: seq<Str> := [ECHO];
    assert one[..0] == [];
  }

  // ---------------------------------------------------------------- removing the last user

  /** One user in the file, marked for removal with a new secret: see RemovingTheLastUser. */
  lemma StaleSecretStays()
    ensures var u := U.User(1, "bob", [], "x", T.EMPTY);
            var file, c := U.UserLine(u) + [NL], U.Alter("bob", [], "y", OneTag(U.STATUS, U.REMOVE));
            var b := U.AfterAll(U.Opened(file, []), [c]);
            U.FileOk(file) && U.GoodCall(c) && U.RoomLeft(U.Opened(file, []), [c])
            && U.Load(b) == (b, true) && !U.SecretsOk(b.mem)
  {
    hide U.UserLine, U.AfterAll, U.FileOk, U.RoomLeft, U.Load, U.SecretsOk, T.Canonical, T.Print, U.Entries, U.MemOf;
    var u := U.User(1, "bob", [], "x", T.EMPTY);
    EmptyPrint();
    assert SmallTag(U.STATUS, U.REMOVE);
    OneTagPrint(U.STATUS, U.REMOVE);
    U.RemovingTheLastUser(u, [], "y", OneTag(U.STATUS, U.REMOVE));
  }

  // ---------------------------------------------------------------- a reply cycle

  function CycleLog(): Str {
    Grown(Grown(Grown([], A, "t", OneTag(REPTO, B)), B, "t", OneTag(REPTO, A)), M, "t", OneTag(REPTO, A))
  }

  lemma ReplyTags(id: Str)
    requires IsMsgId(id) && Small(id) && Free(id, SLASH) && id[|id| - 1] != T.SPACE
    ensures SmallTags(OneTag(REPTO, id)) && OneTag(REPTO, id).hash == map[REPTO := id]
  {
    assert SmallTag(REPTO, id);
  }

  function NoteInfo(n: nat, id: Str, off: int, repto: Str): Info { Info(n, id, ECHO, "t", off, repto, "f") }

  lemma CycleTable(sum: Str -> Str) returns (o2: nat, o3: nat)
    requires GoodSum(sum)
    ensures var a, b, m := NoteInfo(0, A, 0, B), NoteInfo(1, B, o2, A), NoteInfo(2, M, o3, A);
            GoodLog(CycleLog())
            && View(sum, Lines(CycleLog())) == Index([A, B, M], map[A := a, B := b, M := m])
  {
    hide GoodLog, Lines, Decode, View, Bundle, SmallTags, Survives, Twenty, OneTag;
    Ids();
    ReplyTags(A);
    ReplyTags(B);
    EmptyLog(sum);
    var l1 := Grown([], A, "t", OneTag(REPTO, B));
    var l2 := Grown(l1, B, "t", OneTag(REPTO, A));
    GrownGood(sum, [], A, "t", OneTag(REPTO, B));
    GrownGood(sum, l1, B, "t", OneTag(REPTO, A));
    GrownGood(sum, l2, M, "t", OneTag(REPTO, A));
    o2, o3 := |l1|, |l2|;
    assert ACCESS != REPTO;
  }

  /** Two messages replying to each other and a third replying to one of them, all from decodable
      lines of one log: the first two can be grouped, and so can the third alone, but a call on the
      listing of the echo, all three in order, never returns. */
  lemma CycleNeverReturns(sum: Str -> Str)
    requires GoodSum(sum)
    ensures var ix := View(sum, Lines(CycleLog()));
            GoodLog(CycleLog()) && Sound(ix) && ix.list == [A, B, M]
            && var mi := Q.Records(ix);
               Tp.Returns(ix, mi[..2], map[]) && Tp.Returns(ix, mi[2..], map[]) && !Tp.Returns(ix, mi, map[])
  {
    hide GoodLog, Lines, View, Tp.Returns, Twenty, CycleLog, Sound, NoteInfo;
    var o2, o3 := CycleTable(sum);
    var ix := View(sum, Lines(CycleLog()));
    ViewSound(sum, Lines(CycleLog()));
    CycleRecords(ix, o2, o3);
  }

  lemma CycleRecords(ix: Index, o2: nat, o3: nat)
    requires var a, b, m := NoteInfo(0, A, 0, B), NoteInfo(1, B, o2, A), NoteInfo(2, M, o3, A);
             Sound(ix) && ix == Index([A, B, M], map[A := a, B := b, M := m])
    ensures var mi := Q.Records(ix);
            |mi| == 3
            && Tp.Returns(ix, mi[..2], map[]) && Tp.Returns(ix, mi[2..], map[]) && !Tp.Returns(ix, mi, map[])
  {
    hide Sound, Tp.Returns, Twenty;
    Ids();
    var a, b, m := NoteInfo(0, A, 0, B), NoteInfo(1, B, o2, A), NoteInfo(2, M, o3, A);
    CycleGraph(ix, a, b, m);
    var mi := Q.Records(ix);
    assert mi == [a, b, m];
    assert mi[..2] == [a, b] && mi[2..] == [m];
  }

  lemma {:induction false} AtCycle(ix: Index, a: Info, b: Info, n: nat)
    requires Cy.Up(ix, a) == Some(b) && Cy.Up(ix, b) == Some(a)
    ensures Cy.At(ix, a, n) == Some(if n % 2 == 0 then a else b)
    decreases n
  {
    if n > 0 { AtCycle(ix, b, a, n - 1); }
  }

  lemma AtThird(ix: Index, a: Info, b: Info, m: Info, n: nat)
    requires Cy.Up(ix, a) == Some(b) && Cy.Up(ix, b) == Some(a) && Cy.Up(ix, m) == Some(a)
    ensures Cy.At(ix, m, n) == Some(if n == 0 then m else if n % 2 == 1 then a else b)
  {
    if n > 0 { AtCycle(ix, a, b, n - 1); }
  }

  ghost predicate Pair(ix: Index, a: Info, b: Info) {
    Cy.Up(ix, a) == Some(b) && Cy.Up(ix, b) == Some(a) && a.id != b.id && a.echo == b.echo
    && !Tp.Self(a) && !Tp.Self(b)
  }

  /** The first of two is a fresh cycle, the second is reached from it. */
  lemma PairHandled(ix: Index, a: Info, b: Info)
    requires Pair(ix, a, b)
    ensures Cy.CanHandle(ix, [], a) && Cy.CanHandle(ix, [a], b)
  {
    AtCycle(ix, a, b, 0);
    AtCycle(ix, a, b, 1);
    AtCycle(ix, a, b, 2);
    assert Cy.FreshCycle(ix, [], a, 0, 2);
    assert Cy.Met(ix, a, 1, b.id);
    assert Cy.OnChain(ix, [a][0], b.id);
  }

  lemma ThirdAlone(ix: Index, a: Info, b: Info, m: Info)
    requires Pair(ix, a, b) && Cy.Up(ix, m) == Some(a) && m.echo == a.echo
    ensures Cy.CanHandle(ix, [], m)
  {
    AtThird(ix, a, b, m, 1);
    AtThird(ix, a, b, m, 3);
    assert Cy.FreshCycle(ix, [], m, 1, 3);
  }

  /** After the two, the walk from the third meets neither an end nor a fresh message. */
  lemma ThirdStuck(ix: Index, a: Info, b: Info, m: Info)
    requires Pair(ix, a, b) && Cy.Up(ix, m) == Some(a) && m.id != a.id && m.id != b.id
    ensures !Cy.CanHandle(ix, [a, b], m)
  {
    hide Cy.Up, Cy.At, Tp.Self;
    var before := [a, b];
    forall x | x == a || x == b ensures Cy.Reached(ix, before, x.id) && !Cy.OnChain(ix, x, m.id) {
      Cy.OwnChain(ix, x);
      assert Cy.OnChain(ix, before[if x == a then 0 else 1], x.id);
      var y := if x == a then b else a;
      forall n: nat ensures !Cy.Met(ix, x, n, m.id) { AtCycle(ix, x, y, n); }
    }
    assert !Cy.Reached(ix, before, m.id);
    if Tp.Ends(ix, m) {
      var n: nat :| Tp.EndsIn(ix, m, n);
      Cy.EndsIsAt(ix, m, n);
      AtThird(ix, a, b, m, n + 1);
      assert false;
    }
    forall i: nat, j: nat ensures !Cy.FreshCycle(ix, before, m, i, j) {
      AtThird(ix, a, b, m, i);
      AtThird(ix, a, b, m, j);
    }
  }

  lemma CycleGraph(ix: Index, a: Info, b: Info, m: Info)
    requires Sound(ix) && ix == Index([a.id, b.id, m.id], map[a.id := a, b.id := b, m.id := m])
    requires a.id != b.id && a.id != m.id && b.id != m.id && |a.id| == |b.id| == |m.id| == 20
    requires a.repto == b.id && b.repto == a.id && m.repto == a.id
    requires a.off >= 0 && b.off >= 0 && a.echo == b.echo == m.echo
    ensures Tp.Returns(ix, [a, b], map[]) && Tp.Returns(ix, [m], map[]) && !Tp.Returns(ix, [a, b, m], map[])
  {
    hide Sound, Tp.Returns, Cy.CanHandle, Tp.PlainIds, Pair, Cy.Up, Tp.Listed, Cy.CachedBy, Cy.NoMarks, Cy.BookOk;
    CycleIs(ix, a, b, m);
    PairHandled(ix, a, b);
    ThirdAlone(ix, a, b, m);
    ThirdStuck(ix, a, b, m);
    Cy.NothingCached(ix);
    TwoHandled(ix, [a, b]);
    OneHandled(ix, [m]);
    ThirdUnhandled(ix, [a, b, m]);
  }

  lemma CycleIs(ix: Index, a: Info, b: Info, m: Info)
    requires Sound(ix) && ix == Index([a.id, b.id, m.id], map[a.id := a, b.id := b, m.id := m])
    requires a.id != b.id && a.id != m.id && b.id != m.id && |a.id| == |b.id| == |m.id| == 20
    requires a.repto == b.id && b.repto == a.id && m.repto == a.id
    requires a.off >= 0 && b.off >= 0 && a.echo == b.echo == m.echo
    ensures Pair(ix, a, b) && Cy.Up(ix, m) == Some(a) && Tp.PlainIds(ix) && Tp.AllListed(ix, [a, b, m])
    ensures Tp.AllListed(ix, [a, b]) && Tp.AllListed(ix, [m]) && Tp.AllListed(ix, [])
  {
    hide Sound;
  }

  lemma TwoHandled(ix: Index, mi: seq<Info>)
    requires Sound(ix) && Tp.PlainIds(ix) && Tp.AllListed(ix, mi) && Tp.AllListed(ix, []) && |mi| == 2
    requires Cy.NoMarks(map[]) && Cy.CachedBy(ix, map[], [])
    requires Cy.CanHandle(ix, [], mi[0]) && Cy.CanHandle(ix, [mi[0]], mi[1])
    ensures Tp.Returns(ix, mi, map[])
  {
    hide Sound, Tp.Returns, Cy.CanHandle, Tp.PlainIds, Tp.Listed, Cy.CachedBy, Cy.NoMarks, Cy.BookOk;
    var none: seq<Info> := [];
    assert none + mi[..0] == none && none + mi[..1] == [mi[0]];
    Cy.CallReturnsIff(ix, none, mi, map[]);
  }

  lemma OneHandled(ix: Index, mi: seq<Info>)
    requires Sound(ix) && Tp.PlainIds(ix) && Tp.AllListed(ix, mi) && Tp.AllListed(ix, []) && |mi| == 1
    requires Cy.NoMarks(map[]) && Cy.CachedBy(ix, map[], []) && Cy.CanHandle(ix, [], mi[0])
    ensures Tp.Returns(ix, mi, map[])
  {
    hide Sound, Tp.Returns, Cy.CanHandle, Tp.PlainIds, Tp.Listed, Cy.CachedBy, Cy.NoMarks, Cy.BookOk;
    var none: seq<Info> := [];
    assert none + mi[..0] == none;
    Cy.CallReturnsIff(ix, none, mi, map[]);
  }

  lemma ThirdUnhandled(ix: Index, mi: seq<Info>)
    requires Sound(ix) && Tp.PlainIds(ix) && Tp.AllListed(ix, mi) && Tp.AllListed(ix, []) && |mi| == 3
    requires Cy.NoMarks(map[]) && Cy.CachedBy(ix, map[], []) && !Cy.CanHandle(ix, [mi[0], mi[1]], mi[2])
    ensures !Tp.Returns(ix, mi, map[])
  {
    hide Sound, Tp.Returns, Cy.CanHandle, Tp.PlainIds, Tp.Listed, Cy.CachedBy, Cy.NoMarks, Cy.BookOk;
    var none: seq<Info> := [];
    assert none + mi[..2] == [mi[0], mi[1]];
    Cy.CallReturnsIff(ix, none, mi, map[]);
  }

  // ---------------------------------------------------------------- carriage returns

  /** A two-line post as a browser sends it. */
  function WebPost(): Msg { Note(A, "t", T.EMPTY).(text := "x\r\ny") }

  /** It can be stored, and comes back without its carriage return. */
  lemma PostLosesReturn(sum: Str -> Str, now: int)
    ensures Storable(sum, WebPost(), now)
    ensures Decode(sum, Bundle(WebPost())) == Ok(WebPost().(text := "x\ny")) != Ok(WebPost())
  {
    hide Survives, Stripped, Twenty, Decode, Bundle, TextOf;
    Ids();
    var m := WebPost();
    TextStripped();
    PostStripped();
    BundleStripsIff(sum, m);
    assert Filled(sum, m, now) == m;
  }

  lemma TextStripped()
    ensures Without("x\r\ny", CR) == "x\ny" != "x\r\ny"
  {
    var a: Str, b: Str := "x\r", "\ny";
    assert "x\r\ny" == a + b;
    WithoutAppend(a, b, CR);
    WithoutSame(b, CR);
    WithoutAppend("x", [CR], CR);
    WithoutSame("x", CR);
    assert Without([CR], CR) == [];
    assert |"x\ny"| == 3 && |"x\r\ny"| == 4;
  }

  /** Stripping a note touches its To and its text only. */
  lemma NoteStrips(to: Str, text: Str)
    ensures Stripped(Note(A, to, T.EMPTY).(text := text))
            == Note(A, Without(to, CR), T.EMPTY).(text := Without(text, CR))
  {
    hide Twenty, Without;
    WithoutSame(ECHO, CR);
    WithoutSame("f", CR);
    WithoutSame("s", CR);
    WithoutNone(CR);
  }

  lemma NoteSurvives(to: Str, text: Str)
    requires Small(to) && Free(text, CR)
    ensures Survives(Note(A, to, T.EMPTY).(text := text))
  {
    hide Twenty, Small, IsMsgId, IsEcho, T.Canonical, T.Print;
    Ids();
    Banned();
    NoteFits(A, to, T.EMPTY);
  }

  lemma PostStripped()
    ensures Stripped(WebPost()) == Note(A, "t", T.EMPTY).(text := "x\ny") && Survives(Stripped(WebPost()))
  {
    hide Twenty, Without, Survives, Stripped;
    NoteStrips("t", "x\r\ny");
    WithoutSame("t", CR);
    TextStripped();
    NoteSurvives("t", "x\ny");
  }

  /** One sum of ids among others: it tells texts with a carriage return from those without. */
  function TwoSums(s: Str): Str { if CR in s then A else B }

  /** The same post without an id, as every post comes in: it is stored under one id, and its body on its
      own, as a bundle may be passed on, has another. */
  lemma PostChangesId(now: int)
    ensures var m := WebPost().(id := []); var full := Filled(TwoSums, m, now);
            GoodSum(TwoSums) && Storable(TwoSums, m, now) && full == m.(id := A)
            && Decode(TwoSums, Base64.Encode(TextOf(full))) == Ok(WebPost().(id := B, text := "x\ny"))
  {
    hide Decode, TextOf, Stripped, Survives, Twenty;
    var m := WebPost().(id := []);
    Ids();
    SumsAreIds();
    TextReturns(m);
    assert Filled(TwoSums, m, now) == WebPost();
    PostLosesReturn(TwoSums, now);
    PostStripped();
    TextReturns(WebPost());
    BodyAlone(TwoSums, WebPost());
    assert Storable(TwoSums, m, now) by { assert Filled(TwoSums, WebPost(), now) == WebPost(); }
  }

  lemma SumsAreIds()
    ensures GoodSum(TwoSums)
  {
    hide Twenty;
    Ids();
    assert Free(A, COLON) && Free(A, NL) && Free(B, COLON) && Free(B, NL);
  }

  lemma TextReturns(m: Msg)
    requires m == WebPost().(id := m.id)
    ensures CR in TextOf(m) && CR !in TextOf(Stripped(m))
  {
    hide Join;
    var t: Str := "x\r\ny";
    assert t[1] == CR;
    JoinConcat(Header(m), [t], NL);
    assert Join([t], NL) == t by { JoinOne(t); }
    var h := Join(Header(m), NL);
    assert TextOf(m) == h + [NL] + t;
    assert (h + [NL] + t)[|h| + 2] == CR;
    NoTags();
    StrippedText(m);
    WithoutFree(TextOf(m), CR);
  }

  lemma JoinOne(t: Str)
    ensures Join([t], NL) == t
  {
  }

  lemma NoTags()
    ensures Free(T.Print(T.EMPTY), CR)
  {
  }

  /** A carriage return inside To: the record that is appended is not what a rebuild prints. */
  lemma ReturnInTo(sum: Str -> Str, log: Str)
    requires GoodLog(log) && |log| <= 100_000
    ensures var m := Note(A, "a\rb", T.EMPTY);
            Decode(sum, Bundle(m)) == Ok(Note(A, "ab", T.EMPTY))
            && IndexText(sum, log + (Bundle(m) + [NL]))
               != IndexText(sum, log) + (Record(m, SignedOff(m, |log|)) + [NL])
  {
    hide Decode, Bundle, IndexText, Record, GoodLog, Survives, TextOf;
    var m := Note(A, "a\rb", T.EMPTY);
    ToStripped();
    Ids();
    BundleStripsIff(sum, m);
    ToShort();
    AppendLineIff(sum, log, m);
    assert m.to[1] == CR;
  }

  lemma ToStripped()
    ensures Stripped(Note(A, "a\rb", T.EMPTY)) == Note(A, "ab", T.EMPTY) && Survives(Note(A, "ab", T.EMPTY))
  {
    hide Twenty, Without, Survives, Stripped;
    NoteStrips("a\rb", "x");
    WithoutSame("x", CR);
    ReturnDropped();
    NoteSurvives("ab", "x");
  }

  lemma ReturnDropped()
    ensures Without("a\rb", CR) == "ab"
  {
    var a, b: Str := "a", "\rb";
    assert "a\rb" == a + b;
    WithoutAppend(a, b, CR);
    WithoutSame(a, CR);
    assert b == [CR] + "b" && Without([CR], CR) == [];
    WithoutAppend([CR], "b", CR);
    WithoutSame("b", CR);
  }

  lemma ToShort()
    ensures |Bundle(Note(A, "a\rb", T.EMPTY))| <= 4000
  {
    hide T.Print, TextOf;
    Ids();
    EmptyPrint();
    TextShort(Note(A, "a\rb", T.EMPTY));
    EncodeShort(TextOf(Note(A, "a\rb", T.EMPTY)));
  }

  // ---------------------------------------------------------------- tags

  /** A value that ends in a blank is lost when tags are printed and parsed. */
  lemma BlankIsTrimmed()
    ensures var t := T.Added(T.EMPTY, "a/b ");
            t == T.Tags(["a"], map["a" := "b "]) && T.Parse(T.Print(t)) != Some(t)
  {
    hide Split, T.Print, T.Parse;
    BlankParts();
    OnePair(T.EMPTY, ["a", "b "]);
    var t := T.Added(T.EMPTY, "a/b ");
    OneTagFlat("a", "b ");
    T.TagsRoundTrip(t);
    assert t.hash[t.list[0]] == "b ";
  }

  lemma BlankParts()
    ensures Split("a/b ", SLASH) == ["a", "b "]
  {
    hide Split;
    SplitFree("a", SLASH);
    SplitFree("b ", SLASH);
    SplitConcat("a", "b ", SLASH);
    assert "a" + [SLASH] + "b " == "a/b ";
  }

  // ---------------------------------------------------------------- cleaning a log in use

  /** A log that gains a message between the two passes: the command stops without a result. */
  lemma CleaningStops(sum: Str -> Str)
    requires GoodSum(sum)
    ensures var a, b := Bundle(Note(A, "t", T.EMPTY)), Bundle(Note(B, "t", T.EMPTY));
            var seen := [a, a];
            C.BundleLines(sum, seen + [b]) && C.Repeats(seen) > 0
            && C.Count(seen + [b], B) > C.Count(seen, B) && !C.SameCounts(seen, seen + [b])
  {
    hide Bundle, C.IdOf, C.BundleLine;
    Ids();
    Banned();
    NoteBundle(sum, A, "t", T.EMPTY);
    NoteBundle(sum, B, "t", T.EMPTY);
    var a, b := Bundle(Note(A, "t", T.EMPTY)), Bundle(Note(B, "t", T.EMPTY));
    var none: seq<Str>, one, seen := [], [a], [a, a];
    assert seen[..1] == one && one[..0] == none && (seen + [b])[..2] == seen;
    assert C.Count(none, A) == C.Count(none, B) == 0;
    assert C.Count(one, A) == 1 && C.Count(one, B) == 0;
    assert C.Count(seen, B) == 0;
    assert C.Count(seen + [b], B) == 1;
  }

  // ---------------------------------------------------------------- the last id

  /** What the maps read from such a file say about the next id. */
  lemma UsersOf(file: Str, us: seq<U.User>)
    requires U.FileOk(file) && U.Entries(Lines(file)) == us && us != [] && us[0].id == U.MAX_INT32 && |file| > 0
    requires forall i :: 0 <= i < |us| ==> U.UserOk(us[i])
    ensures var m := U.MemOf(us);
            U.Mirrors(m, us) && U.MaxId(m.names) == U.MAX_INT32
            && (forall n :: n in m.names <==> exists i :: 0 <= i < |us| && us[i].name == n)
            && (U.Fits(m.names) <==> forall i :: 0 <= i < |us| ==> us[i].id != U.MIN_INT32)
  {
    hide U.Entries, Lines, U.MemOf, U.UserOk, U.SecretsOk, U.MaxId, U.Mirrors, U.Fits;
    var m := U.MemOf(us);
    NoEdits(us);
    U.HoldsMirrors(m, us, map[]);
    NamesOf(us);
    LargestId(m, us);
    FitsOf(m, us);
  }

  lemma NoEdits(us: seq<U.User>)
    ensures U.Holds(U.MemOf(us), us, map[]) && U.Keeping(us, map[])
  {
    hide U.MemOf;
    var m := U.MemOf(us);
    assert m.names + map[] == m.names;
  }

  lemma NamesOf(us: seq<U.User>)
    requires U.DistinctUsers(us)
    ensures var m := U.MemOf(us);
            (forall n :: n in m.names <==> exists i :: 0 <= i < |us| && us[i].name == n)
            && (forall i :: 0 <= i < |us| ==> us[i].name in m.names && m.names[us[i].name] == us[i])
            && (forall n :: n in m.names ==> exists i :: 0 <= i < |us| && us[i] == m.names[n])
  {
    hide U.MemOf, U.DistinctUsers, U.SecretsOk, U.NamesListed;
    var m := U.MemOf(us);
    U.MapsAgree(us);
    forall i | 0 <= i < |us| ensures us[i].name in m.names && m.names[us[i].name] == us[i] { assert U.UserIn(m, us[i]); }
    forall n | n in m.names ensures exists i :: 0 <= i < |us| && us[i].name == n && us[i] == m.names[n] { U.NameAt(us, n); }
  }

  lemma LargestId(m: U.Mem, us: seq<U.User>)
    requires forall i :: 0 <= i < |us| ==> U.UserOk(us[i])
    requires us != [] && us[0].id == U.MAX_INT32 && us[0].name in m.names && m.names[us[0].name] == us[0]
    requires forall n :: n in m.names ==> exists i :: 0 <= i < |us| && us[i] == m.names[n]
    ensures U.MaxId(m.names) == U.MAX_INT32
  {
    hide U.MaxId, U.UserOk;
    forall n | n in m.names ensures m.names[n].id <= U.MAX_INT32 {
      var i :| 0 <= i < |us| && us[i] == m.names[n];
      U.MaxIs32(us[i]);
    }
    U.MaxIsOne(m.names, U.MAX_INT32, U.MaxId(m.names));
  }

  lemma FitsOf(m: U.Mem, us: seq<U.User>)
    requires U.MaxId(m.names) == U.MAX_INT32
    requires forall i :: 0 <= i < |us| ==> us[i].name in m.names && m.names[us[i].name] == us[i]
    requires forall n :: n in m.names ==> exists i :: 0 <= i < |us| && us[i] == m.names[n]
    ensures U.Fits(m.names) <==> forall i :: 0 <= i < |us| ==> us[i].id != U.MIN_INT32
  {
    hide U.MaxId;
  }

  /** The largest id is taken: the next user gets the smallest one there is, and the one after that
      the same again. */
  lemma IdsRunOut(u: U.User, v: U.User, w: U.User)
    requires U.UserOk(u) && U.UserOk(v) && U.UserOk(w) && u.name != v.name && u.name != w.name && v.name != w.name
    requires u.id == U.MAX_INT32 && v.id == w.id == U.Inc32(U.MAX_INT32)
    ensures var f0 := U.UserLine(u) + [NL];
            var f1 := f0 + (U.UserLine(v) + [NL]);
            var f2 := f1 + (U.UserLine(w) + [NL]);
            U.FileOk(f0) && U.FileOk(f1) && !U.FileOk(f2)
            && U.MaxId(U.MemOf(U.Entries(Lines(f0))).names) == U.MaxId(U.MemOf(U.Entries(Lines(f1))).names) == u.id
  {
    hide U.Entries, Lines, U.MemOf, U.UserLine, U.MaxId, U.Mirrors, U.FileOk, U.Fits, T.Canonical, T.Print;
    var f0 := U.UserLine(u) + [NL];
    var f1 := f0 + (U.UserLine(v) + [NL]);
    U.OneUserFile(u);
    UsersOf(f0, [u]);
    assert [u][0].name == u.name;
    U.AddKeepsFile(f0, U.MemOf([u]), v);
    var us := [u] + [v];
    assert us[1] == v;
    UsersOf(f1, us);
    U.AddKeepsFile(f1, U.MemOf(us), w);
  }

  // ---------------------------------------------------------------- overlapping requests

  /** The register form sent twice: both requests load before either registers. */
  function TwoSignUps(): seq<O.Step> {
    [O.Begin(0), O.Begin(1), O.SignUp(0, "bob", "m", true, "p", "x", []), O.SignUp(1, "bob", "m", true, "p", "x", [])]
  }

  lemma RunFour(s: O.Server, a: O.Step, b: O.Step, c: O.Step, d: O.Step)
    ensures O.Run(s, [a, b, c, d])
            == if O.Run(s, [a, b, c]).Some? && O.Enabled(O.Run(s, [a, b, c]).value, d)
               then Some(O.Next(O.Run(s, [a, b, c]).value, d)) else None
  {
    hide O.Next, O.Enabled;
    assert [a, b, c, d][..3] == [a, b, c];
  }

  /** On an empty file both are accepted, under the same name and the same id. */
  lemma SignedUpTwice()
    ensures var r := O.Run(O.Start([], []), TwoSignUps());
            var u := U.User(1, "bob", "m", "x", T.EMPTY);
            O.Healthy([]) && r.Some? && U.Entries(Lines(r.value.base.file)) == [u, u] && !U.FileOk(r.value.base.file)
  {
    hide U.UserLine, Lines, U.Entries, U.UserOk, O.Run, T.Parse, T.Canonical, T.Print;
    var s, u := O.Start([], []), U.User(1, "bob", "m", "x", T.EMPTY);
    EmptyFile();
    var steps := TwoSignUps();
    O.RunOne(s, steps[0]);
    O.RunTwo(s, steps[0], steps[1]);
    O.RunThree(s, steps[0], steps[1], steps[2]);
    RunFour(s, steps[0], steps[1], steps[2], steps[3]);
    NobodyIsOne();
    BobOk();
    var b0 := U.Opened([], []);
    assert U.Load(b0) == (b0, true);
    assert U.Accepts(b0, "bob", true, "p");
    var b1 := U.Added(b0, u);
    assert U.NewUser(b0, "bob", "m", "x", []) == u;
    assert U.Accepts(b1, "bob", true, "p");
    U.AppendUser([], u);
    U.AppendUser(b1.file, u);
    var us := [u] + [u];
    assert us == [u, u] && us[0].id == us[1].id;
  }

  lemma EmptyFile()
    ensures U.FileOk([]) && U.Entries(Lines([])) == [] && O.Healthy([])
  {
    U.NoEntries();
  }

  lemma NobodyIsOne()
    ensures U.MaxId(map[]) == 0 && U.NewTags([]) == T.EMPTY
  {
    U.MaxIsOne(map[], 0, U.MaxId(map[]));
  }

  lemma BobOk()
    ensures U.UserOk(U.User(1, "bob", "m", "x", T.EMPTY)) && U.IsUsername("bob")
  {
    EmptyPrint();
  }

  /** The first request of a server loads, reads a record and registers bob; then it edits the record. */
  function LateEdit(u: U.User): seq<O.Step> {
    [O.Begin(0), O.Look(0, u.name), O.SignUp(0, "bob", "m", true, "p", "x", []), O.Change(0, u.mail, u.secret, u.tags)]
  }

  /** No load lies between the registration and the edit, which changes nothing: bob is left with id
      0, without mail and secret. */
  lemma EditForgetsBob(u: U.User) returns (zero: U.User)
    requires U.UserOk(u) && 0 < u.id < U.MAX_INT32 && u.name != "bob"
    ensures var file := U.UserLine(u) + [NL]; var r := O.Run(O.Start(file, []), LateEdit(u));
            O.Healthy(file) && r.Some? && zero.id == 0 && zero in U.Entries(Lines(r.value.base.file))
  {
    hide U.UserOk, U.UserLine, Lines, U.Entries, O.Run, U.Load, U.NewUser, U.MemOf, O.Quiet, O.MemOk, O.Healthy, O.BaseOk,
         U.Kept, U.Accepts, O.Waiting, Unlines;
    var file := U.UserLine(u) + [NL];
    var b1 := RootLoaded(u);
    var b2 := BobWaits(u, b1);
    zero := O.WaitingText(b2, u);
    var s0, steps := O.Start(file, []), LateEdit(u);
    O.RunOne(s0, steps[0]);
    O.RunTwo(s0, steps[0], steps[1]);
    O.RunThree(s0, steps[0], steps[1], steps[2]);
    RunFour(s0, steps[0], steps[1], steps[2], steps[3]);
    var s2 := O.Next(O.Next(s0, steps[0]), steps[1]);
    assert s2 == O.Server(b1, map[0 := Some(u)]);
    var s3 := O.Next(s2, steps[2]);
    assert s3 == O.Server(b2, map[0 := Some(u)]);
    assert O.Altered(s3, steps[3]) == u;
  }

  lemma RootLoaded(u: U.User) returns (b: U.Base)
    requires U.UserOk(u) && u.id != 0
    ensures var file := U.UserLine(u) + [NL];
            O.Healthy(file) && b == U.Load(U.Opened(file, [])).0 && O.BaseOk(b, map[]) && O.Quiet(b.mem)
            && b.mem.names == map[u.name := u] && b.file == file && !b.locked && U.Entries(Lines(b.file)) == [u]
  {
    hide U.UserOk, U.UserLine, Lines, U.Entries, U.MemOf, O.BaseOk, U.LoadLines, U.HasLock, U.NoPanic;
    var file := U.UserLine(u) + [NL];
    b := U.Load(U.Opened(file, [])).0;
    U.OneUserFile(u);
    U.OneUserMem(u);
    FileUnlocked(u);
    U.LoadIsMem(Lines(file), U.LimitAt([], 0));
    U.LockedIff(Lines(file), U.LimitAt([], 0));
    O.LoadOk(U.Opened(file, []), map[]);
  }

  lemma BobWaits(u: U.User, b: U.Base) returns (c: U.Base)
    requires U.UserOk(u) && 0 < u.id < U.MAX_INT32 && u.name != "bob"
    requires O.BaseOk(b, map[]) && O.Quiet(b.mem) && b.mem.names == map[u.name := u] && !b.locked
    requires U.Entries(Lines(b.file)) == [u]
    ensures U.Accepts(b, "bob", true, "p") && c == U.Added(b, U.NewUser(b, "bob", "m", "x", []))
    ensures O.MemOk(c.mem) && O.Waiting(c) && O.GoodUser(u) && c.mem.names == b.mem.names
  {
    hide U.UserOk, U.UserLine, Lines, U.Entries, O.MemOk, O.Quiet, O.Healthy, O.BaseOk, O.Waiting, O.IdTaken, U.NewUser,
         U.IsUsername, U.FieldOk, U.MaxId, U.IsNew, U.NewTags;
    LoginsFit();
    MarkedNew(U.User(0, [], [], [], U.NewTags("status/new")));
    NextFree(u, b);
    O.SignUpIff(b, map[], "bob", "m", true, "p", "x", []);
    c := U.Added(b, U.NewUser(b, "bob", "m", "x", []));
    O.NewGood(b, "bob", "m", "x", []);
    assert c.mem.list[|b.mem.list|] == "bob";
    assert O.BaseOk(c, map[]);
    StillWaiting(c, "bob");
  }

  lemma NextFree(u: U.User, b: U.Base)
    requires 0 < u.id < U.MAX_INT32 && b.mem.names == map[u.name := u] && U.Entries(Lines(b.file)) == [u]
    requires O.BaseOk(b, map[])
    ensures !O.IdTaken(b, U.Inc32(U.MaxId(b.mem.names))) && O.MemOk(b.mem) && U.FieldOk([])
  {
    hide U.UserOk, Lines, U.Entries, O.MemOk, O.Quiet, O.Healthy, O.Waiting, U.MaxId, U.Holds;
    assert b.mem.names[u.name] == u;
    U.MaxIsOne(b.mem.names, u.id, U.MaxId(b.mem.names));
  }

  lemma StillWaiting(c: U.Base, name: Str)
    requires O.BaseOk(c, map[]) && name in c.mem.list && name !in c.mem.names
    ensures O.MemOk(c.mem) && O.Waiting(c)
  {
    hide U.Entries, Lines, O.MemOk, O.Healthy, O.Waiting, U.Holds;
  }

  // ---------------------------------------------------------------- the limit on new users

  function Joining(name: Str): U.Call { U.Register(name, "m", true, "p", "x", "status/new") }

  /** A file of users without a lock line that a load will read anew. */
  ghost predicate Unlocked(b: U.Base, us: seq<U.User>) {
    b.size != |b.file| && Terminated(b.file) && U.NoPanic(Lines(b.file)) && !U.HasLock(Lines(b.file))
    && U.Entries(Lines(b.file)) == us && forall i :: 0 <= i < |us| ==> U.UserOk(us[i])
  }

  lemma OneLogin(b: U.Base, us: seq<U.User>, name: Str) returns (v: U.User)
    requires Unlocked(b, us) && U.IsUsername(name) && U.FieldOk(name) && forall i :: 0 <= i < |us| ==> us[i].name != name
    requires !U.Full(U.LimitAt(b.policy, b.polSize), us)
    ensures var r := U.Load(b).0; var c := U.After(b, Joining(name));
            U.Accepts(r, name, true, "p") && v.name == name && U.IsNew(v)
            && Unlocked(c, us + [v]) && c.policy == b.policy && c.polSize == |b.policy|
  {
    hide U.Entries, Lines, U.MemOf, U.UserOk, U.IsUsername, U.FieldOk, U.LoadLines, U.HasLock, U.NoPanic, U.MaxId, U.NewTags,
         U.UserLine, U.IsNew, U.LimitAt;
    var limit := U.LimitAt(b.policy, b.polSize);
    U.LoadIsMem(Lines(b.file), limit);
    U.LockedIff(Lines(b.file), limit);
    FullIs(limit, us);
    var r := U.Load(b).0;
    if name in r.mem.names { U.NameAt(us, name); }
    forall n | n in r.mem.names ensures r.mem.names[n].id <= U.MAX_INT32 { LoadedFits(us, n); }
    v := U.NewUser(r, name, "m", "x", "status/new");
    MarkedNew(v);
    U.NewUserOk(r, name, "m", "x", "status/new");
    U.AppendUser(b.file, v);
    U.LineParses(v);
    LinesSnoc(b.file, U.UserLine(v));
    UserNoLock(Lines(b.file), v);
    assert |b.file + (U.UserLine(v) + [NL])| > |b.file|;
  }

  lemma LoadedFits(us: seq<U.User>, n: Str)
    requires n in U.MemOf(us).names && forall i :: 0 <= i < |us| ==> U.UserOk(us[i])
    ensures U.MemOf(us).names[n].id <= U.MAX_INT32
  {
    hide U.MemOf, U.UserOk;
    U.NameAt(us, n);
    U.MaxIs32(U.MemOf(us).names[n]);
  }

  lemma FullIs(limit: int, us: seq<U.User>)
    ensures U.Full(limit, us) <==> us != [] && 0 <= limit <= U.NewCount(us)
  {
  }

  lemma MarkedNew(v: U.User)
    requires v.tags == U.NewTags("status/new")
    ensures U.FieldOk("m") && U.FieldOk("x") && U.FieldOk("status/new") && U.IsNew(v)
  {
    hide Split;
    var parts: seq<Str> := [U.STATUS] + [U.NEW];
    SplitFree(U.STATUS, SLASH);
    SplitFree(U.NEW, SLASH);
    SplitConcat(U.STATUS, U.NEW, SLASH);
    assert "status/new" == U.STATUS + [SLASH] + U.NEW;
  }

  lemma UserNoLock(lines: seq<Str>, v: U.User)
    requires !U.HasLock(lines)
    ensures !U.HasLock(lines + [U.UserLine(v)])
  {
    hide U.UserLine;
    U.NoLock(v);
    var all := lines + [U.UserLine(v)];
    forall i | 0 <= i < |all| ensures !(U.LOCK <= all[i]) {
      assert all[i] == if i < |lines| then lines[i] else U.UserLine(v);
    }
  }

  lemma OneAllowed()
    ensures U.LimitIn(Lines("1\n")) == 1
  {
    hide Split, Lines;
    var one: Str := "1";
    LinesOne(one);
    assert one + [NL] == "1\n";
    SplitFree(one, COLON);
    assert [one][..0] == [] && one[..0] == [] && Number(one[..0]) == 0 && Number(one) == 1;
  }

  /** The policy allows one new user. The file has one user, not a new one; two more register, and
      both are let in. */
  lemma LimitForgotten(u: U.User) returns (v: U.User, w: U.User)
    requires U.UserOk(u) && !U.IsNew(u) && u.name != "bob" && u.name != "eve"
    ensures var file, policy := U.UserLine(u) + [NL], "1\n";
            var cs := [Joining("bob"), Joining("eve")];
            var b := U.AfterAll(U.Opened(file, policy), cs);
            U.FileOk(file) && U.LimitIn(Lines(policy)) == 1
            && U.Entries(Lines(b.file)) == [u, v, w] && U.NewCount([u, v, w]) == 2
  {
    hide U.Entries, Lines, U.UserOk, U.UserLine, U.After, U.Load, U.IsNew, U.IsUsername, U.FieldOk, U.LimitIn, U.HasLock,
         U.NewCount, U.NoPanic, U.DistinctUsers;
    var file, policy := U.UserLine(u) + [NL], "1\n";
    U.OneUserFile(u);
    OneAllowed();
    LoginsFit();
    FileUnlocked(u);
    var b0 := U.Opened(file, policy);
    var none: seq<U.User> := [];
    U.NewSnoc(none, u);
    assert none + [u] == [u] && U.NewCount([u]) == 0;
    v := OneLogin(b0, [u], "bob");
    var b1 := U.After(b0, Joining("bob"));
    U.NewSnoc([u], v);
    assert [u] + [v] == [u, v] && U.NewCount([u, v]) == 1;
    w := OneLogin(b1, [u, v], "eve");
    U.NewSnoc([u, v], w);
    assert [u, v] + [w] == [u, v, w];
    var cs := [Joining("bob"), Joining("eve")];
    assert cs[..1] == [Joining("bob")];
    U.OneCall(b0, Joining("bob"));
  }

  lemma LoginsFit()
    ensures U.IsUsername("bob") && U.IsUsername("eve") && U.FieldOk("bob") && U.FieldOk("eve")
  {
  }

  lemma FileUnlocked(u: U.User)
    requires U.UserOk(u)
    ensures var file := U.UserLine(u) + [NL]; Unlocked(U.Opened(file, "1\n"), [u])
  {
    hide U.Entries, Lines, U.UserOk, U.UserLine, U.HasLock, U.NoPanic, U.DistinctUsers;
    U.OneUserFile(u);
    U.LineParses(u);
    LinesOne(U.UserLine(u));
    U.NoLockLine(1);
    UserNoLock([], u);
    assert [] + [U.UserLine(u)] == [U.UserLine(u)];
  }

  // ---------------------------------------------------------------- the posting limit

  /** A message to "x:y" is charged to "y", whoever sends it. */
  lemma ChargedToAnother(sum: Str -> Str, now: int)
    ensures var m := Note(A, "x:y", T.EMPTY);
            Storable(sum, m, now) && m.from == "f" && P.ChargedTo(m) == "y"
  {
    hide Split, T.Canonical, T.Print, Twenty, TextOf, P.ChargedTo, Stripped;
    var m := Note(A, "x:y", T.EMPTY);
    Ids();
    EmptyPrint();
    assert Survives(m);
    StrippedSame(m);
    assert Filled(sum, m, now) == m;
    assert m.to[1] == COLON;
    P.ColonCharges(m);
    ColonParts();
  }

  lemma ColonParts()
    ensures Split("x:y", COLON) == ["x", "y"]
  {
    hide Split;
    SplitFree("x", COLON);
    SplitFree("y", COLON);
    SplitConcat("x", "y", COLON);
    assert "x" + [COLON] + "y" == "x:y";
  }

  /** A user who may post once, and two calls of that user at once: both are scanned before either
      is stored. */
  const ONCE := P.Poster("f", P.NEW, "1")

  function NoteCall(id: Str, now: int): P.Call { P.Call(ONCE, Note(id, "t", T.EMPTY), now, false) }

  function TwoPosts(now: int): seq<P.Step> {
    [P.Check(0, NoteCall(A, now)), P.Check(1, NoteCall(B, now)), P.Keep(0), P.Keep(1)]
  }

  lemma OnceLimit()
    ensures P.Limited(ONCE) && P.Limit(ONCE) == 1
  {
    var one: Str := "1";
    assert one[..0] == [] && Number(one[..0]) == 0 && Number(one) == 1;
  }

  lemma ToSmall()
    ensures Small("t")
  {
  }

  lemma NoteCallGood(sum: Str -> Str, id: Str, now: int)
    requires id == A || id == B
    ensures P.GoodCall(sum, NoteCall(id, now), ONCE) && P.Signed(NoteCall(id, now)) == Note(id, "t", T.EMPTY)
  {
    hide Twenty, Small, SmallTags, IsMsgId, Fit, Filled, P.ChargedTo, Split;
    Ids();
    Banned();
    ToSmall();
    NoteFits(id, "t", T.EMPTY);
    FilledNote(sum, id, "t", T.EMPTY, now);
    P.ChargedIff(Note(id, "t", T.EMPTY));
  }

  /** A new note is one more post. */
  lemma OneMorePost(sum: Str -> Str, log: Str, id: Str)
    requires GoodLog(log) && |log| <= 10_000 && (id == A || id == B) && id !in View(sum, Lines(log)).hash
    ensures var log' := Grown(log, id, "t", T.EMPTY);
            GoodLog(log') && |log'| <= |log| + 4001
            && Sound(View(sum, Lines(log))) && Sound(View(sum, Lines(log')))
            && View(sum, Lines(log')).hash.Keys == View(sum, Lines(log)).hash.Keys + {id}
            && P.Posts("f", Q.Records(View(sum, Lines(log')))) == P.Posts("f", Q.Records(View(sum, Lines(log)))) + 1
  {
    hide GoodLog, Lines, Decode, View, Bundle, SmallTags, Twenty, Small, IsMsgId, Sound, Q.Passing, Grown;
    Ids();
    Banned();
    ToSmall();
    GrownGood(sum, log, id, "t", T.EMPTY);
    ViewSound(sum, Lines(log));
    var ix, mi := View(sum, Lines(log)), Meant(Note(id, "t", T.EMPTY), |log|);
    assert SignedOff(Note(id, "t", T.EMPTY), |log|) == |log|;
    P.InsertRecords(ix, mi);
    Q.SnocPassing(P.ByName("f", 0), Q.Records(ix), mi.(num := |Q.Records(ix)|));
  }

  /** A check that passes: the call is open, and the log is what it was. */
  lemma CheckPasses(sum: Str -> Str, s: P.Server, n: nat, id: Str, now: int)
    requires GoodSum(sum) && Consistent(sum, s.w) && n !in s.open && P.PostsIn(sum, s.w, "f") == 0
    ensures var t := P.Next(sum, 0, s, P.Check(n, NoteCall(id, now)));
            t.open == s.open[n := NoteCall(id, now)] && Consistent(sum, t.w)
            && P.PostsIn(sum, t.w, "f") == 0 && t.w.files.log == s.w.files.log
  {
    hide Consistent, Do, View, Lines, Sound, Q.Records, Q.Passing, Q.Selection, P.Limit, P.Limited, P.PostsIn, P.Allows;
    OnceLimit();
    P.LoadPosts(sum, s.w, 0, "f");
    P.PolicyCounts(ONCE, Q.Records(View(sum, Lines(s.w.files.log))));
    P.PostsAre(sum, s.w, "f");
    LoadLog(sum, s.w);
  }

  lemma LoadLog(sum: Str -> Str, w: World)
    ensures Do(sum, w, Load(0)).files.log == w.files.log
  {
    hide Refresh;
    RefreshKeepsLog(sum, w.files, HandleOf(w, 0));
  }

  lemma KeepNote(sum: Str -> Str, s: P.Server, n: nat, id: Str, now: int)
    requires GoodSum(sum) && Consistent(sum, s.w) && |s.w.files.log| <= 10_000 && (id == A || id == B)
    requires n in s.open && s.open[n] == NoteCall(id, now) && id !in View(sum, Lines(s.w.files.log)).hash
    ensures var t := P.Next(sum, 0, s, P.Keep(n));
            Consistent(sum, t.w) && t.open == s.open - {n} && t.w.files.log == Grown(s.w.files.log, id, "t", T.EMPTY)
  {
    hide GoodLog, Lines, View, Bundle, Record, IndexText, Snapshot, Twenty, Small, SmallTags, IsMsgId, Filled, Fit;
    NoteCallGood(sum, id, now);
    Ids();
    Banned();
    ToSmall();
    NoteFits(id, "t", T.EMPTY);
    FilledNote(sum, id, "t", T.EMPTY, now);
    HandleSnapshotOf(sum, s.w, 0);
    RefreshGood(sum, s.w.files, HandleOf(s.w, 0));
    DoKeeps(sum, s.w, Save(0, Note(id, "t", T.EMPTY), now, false));
  }

  /** One post allowed, two made. */
  lemma TwoPostsAtOnce(sum: Str -> Str, now: int)
    requires GoodSum(sum)
    ensures var w := World(Files([], None), map[]);
            var r := P.After(sum, 0, w, TwoPosts(now));
            P.Limited(ONCE) && P.Limit(ONCE) == 1 && Consistent(sum, w) && P.GoodSteps(sum, TwoPosts(now), ONCE)
            && P.PostsIn(sum, w, "f") == 0 && r.Some? && P.PostsIn(sum, r.value.w, "f") == 2
  {
    hide Consistent, View, Lines, GoodLog, P.Next, P.GoodCall, P.Posts, P.Limit, P.Limited, Twenty, Grown, Sound, Q.Records;
    var w := World(Files([], None), map[]);
    OnceLimit();
    EmptyLog(sum);
    StartConsistent(sum, []);
    Ids();
    NoteCallGood(sum, A, now);
    NoteCallGood(sum, B, now);
    NoPosts(sum, w);
    var s0 := P.Server(w, map[]);
    var ca, cb := NoteCall(A, now), NoteCall(B, now);
    CheckPasses(sum, s0, 0, A, now);
    var s1 := P.Next(sum, 0, s0, P.Check(0, ca));
    CheckPasses(sum, s1, 1, B, now);
    var s2 := P.Next(sum, 0, s1, P.Check(1, cb));
    KeepNote(sum, s2, 0, A, now);
    OneMorePost(sum, [], A);
    var s3 := P.Next(sum, 0, s2, P.Keep(0));
    KeepNote(sum, s3, 1, B, now);
    OneMorePost(sum, s3.w.files.log, B);
    var s4 := P.Next(sum, 0, s3, P.Keep(1));
    P.PostsAre(sum, w, "f");
    P.PostsAre(sum, s4.w, "f");
    FourSteps(sum, w, TwoPosts(now), s1, s2, s3, s4);
  }

  lemma NoPosts(sum: Str -> Str, w: World)
    requires Lines(w.files.log) == []
    ensures P.PostsIn(sum, w, "f") == 0 && View(sum, Lines(w.files.log)).hash == map[]
  {
  }

  lemma FourSteps(sum: Str -> Str, w: World, steps: seq<P.Step>, s1: P.Server, s2: P.Server, s3: P.Server, s4: P.Server)
    requires |steps| == 4
    requires var s0 := P.Server(w, map[]);
             P.Enabled(s0, steps[0]) && P.Next(sum, 0, s0, steps[0]) == s1
             && P.Enabled(s1, steps[1]) && P.Next(sum, 0, s1, steps[1]) == s2
             && P.Enabled(s2, steps[2]) && P.Next(sum, 0, s2, steps[2]) == s3
             && P.Enabled(s3, steps[3]) && P.Next(sum, 0, s3, steps[3]) == s4
    ensures P.After(sum, 0, w, steps) == Some(s4)
  {
    hide P.Next, P.Enabled;
    var a, b, c := steps[..1], steps[..2], steps[..3];
    assert c[..2] == b && b[..1] == a && a[..0] == [];
    assert P.After(sum, 0, w, a[..0]) == Some(P.Server(w, map[]));
    assert P.After(sum, 0, w, a) == Some(s1);
    assert P.After(sum, 0, w, b) == Some(s2);
    assert P.After(sum, 0, w, c) == Some(s3);
  }
}
