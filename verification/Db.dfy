/** The database object: fields and files updated in place, each method proved against the
    functions of Log, Store, Query and Topics. */
module Db {
  import opened Bytes
  import opened Codec
  import opened Log
  import opened Store
  import L = EchoList
  import Q = Query
  import T = Tags
  import O = TopicOrder
  import Tp = Topics

  /** The log file and the index file, shared by any number of DB objects. */
  class Disk {
    var log: Str
    var idx: Option<Str>

    ghost function Value(): Files reads this { Files(log, idx) }

    constructor (log: Str)
      ensures Value() == Files(log, None)
    {
      this.log, this.idx := log, None;
    }
  }

  class DB {
    const disk: Disk
    const sum: Str -> Str
    var loaded: bool
    var list: seq<Str>
    var hash: map<Str, Info>
    var fileSize: nat
    var topic: Tp.Cache

    ghost function Table(): Index reads this { Index(list, hash) }

    ghost function Value(): Handle reads this { if loaded then Open(Table(), fileSize) else Closed }

    /** Topics cached in the entries are those of the plain walk. */
    ghost predicate Valid() reads this {
      Tp.WellFormed(Table()) ==> Tp.CacheOk(Table(), topic)
    }

    constructor (disk: Disk, sum: Str -> Str)
      ensures this.disk == disk
      ensures this.sum == sum
      ensures Value() == Closed
      ensures Valid()
    {
      this.disk, this.sum := disk, sum;
      loaded, list, hash, fileSize, topic := false, [], map[], 0, map[];
      new;
      hide Tp.WellFormed, Tp.CacheOk;
      EmptyCacheOk();
    }

    /** _CreateIndex: every decodable log line is printed with its offset; the old file is
        written over without being truncated. */
    method CreateIndex()
      modifies disk`idx
      ensures disk.Value() == Reindexed(sum, old(disk.Value()))
    {
      hide SignedOff, Record, Decode;
      var text: Str, off := [], 0;
      var lines := Lines(disk.log);
      for i := 0 to |lines|
        invariant text == PrintIndex(sum, lines[..i])
        invariant off == |Unlines(lines[..i])|
        invariant unchanged(disk)
      {
        NextLine(sum, lines, i);
        var msg := DecodeBundle(sum, lines[i]);
        if msg.Ok? {
          var m := msg.value;
          var ioff := if Tag(m, ACCESS) == BLACKLIST then -(off as int) else off;
          SignedOffIs(m, off);
          text := text + (Record(m, ioff) + [NL]);
        }
        off := off + |lines[i]| + 1;
      }
      assert lines[..|lines|] == lines;
      disk.idx := Some(Overwrite(disk.idx, text));
    }

    /** LoadIndex: created when missing, read whole the first time, by its tail afterwards. */
    method LoadIndex() returns (status: Status)
      requires Valid()
      modifies this`loaded, this`list, this`hash, this`fileSize, this`topic, disk`idx
      ensures Valid()
      ensures var r := Refresh(sum, old(disk.Value()), old(Value()));
              disk.Value() == r.files && Value() == r.handle && status == r.status
      ensures topic == old(topic) || topic == map[]
      ensures status == Good && loaded ==> topic == CacheAfter(old(disk.Value()), old(Value()), old(topic))
    {
      hide LoadLines, Lines, ParseRecord, Reindexed, Tp.WellFormed, Tp.CacheOk;
      EmptyCacheOk();
      if disk.idx.None? {
        loaded, list, hash, fileSize, topic := false, [], map[], 0, map[];
        CreateIndex();
        ReindexedSome(sum, Files(disk.log, None));
      }
      var text := disk.idx.value;
      var from: nat, ls: seq<Str>, hs: map<Str, Info> := 0, [], map[];
      if loaded {
        if |text| > fileSize {
          from, ls, hs := fileSize, list, hash;
          topic := map[];
        } else if |text| < fileSize {
          ReindexedSome(sum, Files(disk.log, disk.idx));
          CreateIndex();
          var again := Lines(disk.idx.value);
          if again == [] {
            loaded, list, hash, fileSize, topic := false, [], map[], |text|, map[];
            return Good;
          }
          return if ParseRecord(again[0]).None? then BadLine else Crash;
        } else {
          return Good;
        }
      }
      var ok: bool;
      ls, hs, ok := ReadLines(Lines(text[from..]), ls, hs);
      assert text[0..] == text;
      if !ok {
        if loaded {
          // The map is shared with the live index, so its new entries stay; the list does not.
          hash := hs;
        }
        return BadLine;
      }
      loaded, list, hash, fileSize, topic := true, ls, hs, |text|, map[];
      return Good;
    }

    /** _Lookup with `idx` set. */
    method Lookup(id: Str, bl: bool) returns (info: Option<Info>)
      requires Valid()
      modifies this`loaded, this`list, this`hash, this`fileSize, this`topic, disk`idx
      ensures Valid()
      ensures var r := Refresh(sum, old(disk.Value()), old(Value()));
              disk.Value() == r.files && Value() == r.handle
              && info == (var k := Known(r.handle, id);
                          if r.status != Good || k.None? || (!bl && k.value.off < 0) then None else k)
      ensures var r := Refresh(sum, old(disk.Value()), old(Value()));
              r.status == Good && r.handle.Open? ==> topic == CacheAfter(old(disk.Value()), old(Value()), old(topic))
    {
      hide Refresh, Valid, CacheAfter;
      var status := LoadIndex();
      if status != Good { return None; }
      if !loaded || id !in hash || (!bl && hash[id].off < 0) { return None; }
      return Some(hash[id]);
    }

    /** LookupIDS: each id looked up with a refresh of its own; the hidden and unknown drop out. */
    method LookupIDS(ids: seq<Str>) returns (infos: seq<Info>)
      requires Valid()
      modifies this`loaded, this`list, this`hash, this`fileSize, this`topic, disk`idx
      ensures Valid()
      ensures var r := Refresh(sum, old(disk.Value()), old(Value()));
              r.status == Good && r.handle.Open? ==>
                infos == Visible(r.handle, ids)
                && (if ids == []
                    then disk.Value() == old(disk.Value()) && Value() == old(Value()) && topic == old(topic)
                    else disk.Value() == r.files && Value() == r.handle
                         && topic == CacheAfter(old(disk.Value()), old(Value()), old(topic)))
    {
      hide Refresh, Valid, Known, CacheAfter;
      ghost var f, h, c := disk.Value(), Value(), topic;
      ghost var r := Refresh(sum, f, h);
      RefreshTwice(sum, f, h);
      infos := [];
      for i := 0 to |ids|
        invariant Valid()
        invariant i == 0 ==> disk.Value() == f && Value() == h && topic == c
        invariant r.status == Good && r.handle.Open? ==>
                    infos == Visible(r.handle, ids[..i])
                    && (i > 0 ==> disk.Value() == r.files && Value() == r.handle && topic == CacheAfter(f, h, c))
      {
        CacheStays(sum, f, h, topic);
        assert ids[..i + 1][..i] == ids[..i];
        var info := Lookup(ids[i], false);
        if info.Some? {
          infos := infos + [info.value];
        } else {
          assert infos + [] == infos;
        }
      }
      assert ids[..|ids|] == ids;
    }

    /** _GetBundle with `idx` set: seek to the offset, sign dropped, and read one line. */
    method GetBundle(id: Str, bl: bool) returns (bundle: Str, info: Option<Info>)
      requires Valid()
      modifies this`loaded, this`list, this`hash, this`fileSize, this`topic, disk`idx
      ensures Valid()
      ensures var r := Refresh(sum, old(disk.Value()), old(Value()));
              disk.Value() == r.files && Value() == r.handle
              && bundle == (if r.status == Good then BundleOf(r.files, r.handle, id, bl) else [])
              && info == (var k := Known(r.handle, id);
                          if r.status != Good || k.None? || (!bl && k.value.off < 0) then None else k)
    {
      hide Refresh, Valid;
      info := Lookup(id, bl);
      if info.None? { return [], None; }
      var off := info.value.off;
      if off < 0 { off := -off; }
      bundle := ReadAt(disk.log, off);
    }

    /** The handler of /u/m/: the bundle of every visible public message asked for. */
    method ServeMessages(ids: seq<Str>) returns (lines: seq<Str>)
      requires Valid()
      modifies this`loaded, this`list, this`hash, this`fileSize, this`topic, disk`idx
      ensures Valid()
      ensures var r := Refresh(sum, old(disk.Value()), old(Value()));
              r.status == Good && r.handle.Open? ==> lines == MLines(r.files, r.handle, ids)
    {
      hide Refresh, Valid, Known, BundleOf;
      ghost var f, h := disk.Value(), Value();
      ghost var r := Refresh(sum, f, h);
      RefreshTwice(sum, f, h);
      lines := [];
      for i := 0 to |ids|
        invariant Valid()
        invariant i == 0 ==> disk.Value() == f && Value() == h
        invariant r.status == Good && r.handle.Open? ==>
                    lines == MLines(r.files, r.handle, ids[..i])
                    && (i > 0 ==> disk.Value() == r.files && Value() == r.handle)
      {
        ServeStep(r.files, r.handle, ids, i);
        var m, info := GetBundle(ids[i], false);
        if m != [] && info.Some? && !IsPrivate(info.value.echo) {
          lines := lines + [m];
        } else {
          assert lines + [] == lines;
        }
      }
      assert ids[..|ids|] == ids;
    }

    /** _Store: one line appended to each file. `full` is the message with what Encode filled in. */
    method Save(m: Msg, now: int, edit: bool) returns (outcome: Outcome, full: Msg)
      requires Valid()
      modifies this`loaded, this`list, this`hash, this`fileSize, this`topic, disk
      ensures Valid()
      ensures var p := StoreMsg(sum, old(disk.Value()), old(Value()), m, now, edit);
              disk.Value() == p.files && Value() == p.handle && outcome == p.outcome
      ensures full == if outcome == Stored then Filled(sum, m, now) else m
    {
      hide Refresh, Valid, Record, Bundle, Filled, Join, Itoa, Split;
      full := m;
      var repto := Tag(m, REPTO);
      var status := LoadIndex();
      RefreshHasIndex(sum, old(disk.Value()), old(Value()));
      if status != Good { return NotLoaded(status), m; }
      if loaded && m.id in hash && !edit { return AlreadyExists, m; }
      var off: int := |disk.log|;
      if Tag(m, ACCESS) == BLACKLIST { off := -off; }
      full := Filled(sum, m, now);
      FilledTags(sum, m, now);
      disk.log := disk.log + (Bundle(full) + [NL]);
      RecordFields(full, off);
      var rec := Join([full.id, full.echo, Itoa(off), full.to, full.from, repto], COLON);
      disk.idx := Some(disk.idx.value + (rec + [NL]));
      outcome := Stored;
    }

    /** Blacklist: one more tag, then an edit. */
    method Blacklist(m: Msg, now: int) returns (outcome: Outcome)
      requires Valid()
      modifies this`loaded, this`list, this`hash, this`fileSize, this`topic, disk
      ensures Valid()
      ensures var p := StoreMsg(sum, old(disk.Value()), old(Value()), Blacklisted(m), now, true);
              disk.Value() == p.files && Value() == p.handle && outcome == p.outcome
    {
      var tags := new T.TagSet(m.tags);
      var added := tags.Add(ACCESS + [SLASH] + BLACKLIST);
      var tagged := m.(tags := T.Tags(tags.list, tags.hash));
      outcome, tagged := Save(tagged, now, true);
    }

    /** SelectIDS: the refresh, then the scan. */
    method SelectIDS(q: Q.Query) returns (resp: seq<Str>)
      requires Valid() && SoundAfter(sum, disk.Value(), Value())
      modifies this`loaded, this`list, this`hash, this`fileSize, this`topic, disk`idx, q
      ensures Valid()
      ensures var r := Refresh(sum, old(disk.Value()), old(Value()));
              disk.Value() == r.files && Value() == r.handle
              && (r.status != Good || r.handle.Closed? ==> resp == [])
              && (r.status == Good && r.handle.Open? ==>
                    Sound(r.handle.ix)
                    && resp == Q.Ids(Q.Selection(q.f, old(q.Left()), Q.Records(r.handle.ix)))
                    && topic == CacheAfter(old(disk.Value()), old(Value()), old(topic)))
    {
      hide Refresh, Valid, Sound, Q.Selection, Q.Records, Q.Ids, CacheAfter;
      var status := LoadIndex();
      if status != Good || !loaded { return []; }
      resp := Q.SelectIDS(Index(list, hash), q);
    }

    /** GetFast: the entry as loaded, without a refresh. */
    method GetFast(id: Str) returns (m: Option<Msg>)
      ensures m == L.Fast(sum, disk.Value(), Value(), id)
    {
      hide Decode, ReadAt;
      if !loaded || id !in hash || hash[id].off < 0 { return None; }
      var bundle := ReadAt(disk.log, Abs(hash[id].off));
      if bundle == [] { return None; }
      var d := DecodeBundle(sum, bundle);
      return if d.Ok? then Some(d.value) else None;
    }

    /** Echoes: the refresh and the counting loop; then the echoes asked for, or all of them in the
        arbitrary order that Go gives the keys of a map, each with its last message, newest first. */
    method Echoes(q: Q.Query, names: Option<seq<Str>>)
      returns (rows: seq<L.Row>, ghost stats: map<Str, Q.Stat>, ghost order: seq<Str>)
      requires Valid() && SoundAfter(sum, disk.Value(), Value())
      modifies this`loaded, this`list, this`hash, this`fileSize, this`topic, disk`idx, q
      ensures Valid()
      ensures var r := Refresh(sum, old(disk.Value()), old(Value()));
              disk.Value() == r.files && Value() == r.handle
              && (r.status != Good || r.handle.Closed? ==> rows == [])
              && (r.status == Good && r.handle.Open? ==>
                    Sound(r.handle.ix)
                    && (var h := Q.Hits(q.f, old(q.Left()), Q.Shown(Q.Records(r.handle.ix)));
                        forall e :: if names.None? || e in names.value then Q.StatOf(stats, h, e)
                                    else e !in stats)
                    && (if names.Some? then order == names.value
                        else T.NoDups(order) && forall e :: e in order <==> e in stats)
                    && rows == L.ByDate(L.Filled(sum, r.files, r.handle, L.Found(order, stats)))
                    && (q.f == Q.Listing([], q.f.user, false) && old(q.Left()) == Q.FULL ==>
                          L.Newest(rows) && L.AllTell(sum, r.files.log, r.handle.ix, q.f.user, rows)))
    {
      hide Refresh, Valid, Sound, Q.Hits, Q.Shown, Q.Records, Q.StatOf, L.Fast, L.ByDate, L.Found, L.AllTell, L.Newest;
      var status := LoadIndex();
      if status != Good || !loaded { return [], map[], []; }
      var filter := if names.None? then None else Some(set n | n in names.value);
      var hash' := Q.Echoes(Index(list, hash), q, filter);
      stats := hash';
      rows, order := L.Listed(hash', names);
      ghost var f, h, found := disk.Value(), Value(), rows;
      for i := 0 to |rows|
        invariant Valid() && disk.Value() == f && Value() == h && |rows| == |found|
        invariant forall k :: 0 <= k < i ==> rows[k] == L.Filled(sum, disk.Value(), Value(), found)[k]
        invariant forall k :: i <= k < |rows| ==> rows[k] == found[k]
      {
        var m := GetFast(rows[i].stat.last.id);
        rows := rows[i := rows[i].(msg := if m.Some? then m.value else L.BLANK)];
      }
      assert rows == L.Filled(sum, disk.Value(), Value(), found);
      rows := L.ByDate(rows);
      if q.f == Q.Listing([], q.f.user, false) && old(q.Left()) == Q.FULL {
        L.RowsTell(sum, f, h, q.f.user, order, stats);
      }
    }

    /** GetTopics: the refresh, then the grouping, with topics cached in the entries, on any input
        for which it returns. Without reply cycles, and whatever sequence of calls and refreshes
        went before, each listed message ends with the topic of the plain walk. */
    method GetTopics(mi: seq<Info>) returns (topics: Tp.Groups)
      requires Valid()
      requires var r := Refresh(sum, disk.Value(), Value());
               r.status == Good && r.handle.Open? && Tp.AllListed(r.handle.ix, mi)
               && Tp.Returns(r.handle.ix, mi, CacheAfter(disk.Value(), Value(), topic))
      modifies this`loaded, this`list, this`hash, this`fileSize, this`topic, disk`idx
      ensures Valid()
      ensures var r := Refresh(sum, old(disk.Value()), old(Value()));
              disk.Value() == r.files && Value() == r.handle
              && var b := Tp.HandleAll(r.handle.ix, mi,
                                       Tp.Blank(CacheAfter(old(disk.Value()), old(Value()), old(topic)))).value;
                 topics == b.topics && topic == b.c
      ensures var ix := Refresh(sum, old(disk.Value()), old(Value())).handle.ix;
              Tp.WellFormed(ix) ==>
                Tp.Grouped(ix, topics) && Tp.AllFiled(ix, mi, topics, topic) && Tp.AllDue(ix, mi, topics)
      ensures var ix := Refresh(sum, old(disk.Value()), old(Value())).handle.ix;
              |mi| == 1 && Sound(ix) && Tp.PlainIds(ix) && CacheAfter(old(disk.Value()), old(Value()), old(topic)) == map[] ==>
                O.OneTopic(ix, mi[0], topics)
      ensures var ix := Refresh(sum, old(disk.Value()), old(Value())).handle.ix;
              Tp.WellFormed(ix) && O.RepliesFollow(ix) && O.ByNumber(mi) && Tp.AncestorClosed(ix, mi) ==>
                forall t :: t in topics ==> O.Ascending(ix, topics[t])
    {
      hide Refresh, Tp.WellFormed, Tp.CacheOk, Tp.Grouped, Tp.AllFiled, Tp.AllDue, Tp.AllListed, Tp.HandleAll,
           CacheAfter, Sound, Tp.PlainIds, O.OneTopic, O.RepliesFollow, O.ByNumber, O.Ascending, Tp.AncestorClosed, Tp.Listed;
      var status := LoadIndex();
      ghost var ix := Refresh(sum, old(disk.Value()), old(Value())).handle.ix;
      assert Table() == ix;
      if Tp.WellFormed(ix) { Tp.GroupsComplete(ix, mi, topic); }
      if |mi| == 1 && Sound(ix) && Tp.PlainIds(ix) && topic == map[] {
        OnlyOne(ix, mi);
        O.OneMessage(ix, mi[0]);
      }
      if Tp.WellFormed(ix) && O.RepliesFollow(ix) && O.ByNumber(mi) && Tp.AncestorClosed(ix, mi) {
        O.OldestFirst(ix, mi, topic);
      }
      topics, topic := Tp.GroupTopics(Index(list, hash), mi, topic);
    }
  }

  lemma OnlyOne(ix: Index, mi: seq<Info>)
    requires |mi| == 1 && Tp.AllListed(ix, mi)
    ensures mi == [mi[0]] && Tp.Listed(ix, mi[0])
  {
  }

  /** Cached topics outlive a refresh that finds nothing to read, and no other. */
  function CacheAfter(f: Files, h: Handle, c: Tp.Cache): Tp.Cache {
    if f.idx.Some? && h.Open? && |f.idx.value| == h.size then c else map[]
  }

  /** A refresh right after a good one keeps what is cached. */
  lemma CacheStays(sum: Str -> Str, f: Files, h: Handle, c: Tp.Cache)
    ensures var r := Refresh(sum, f, h);
            r.status == Good && r.handle.Open? ==> CacheAfter(r.files, r.handle, c) == c
  {
    hide LoadLines, IndexText, Lines;
  }

  /** Without reply cycles every call of GetTopics returns. */
  lemma AcyclicReturns(sum: Str -> Str, f: Files, h: Handle, c: Tp.Cache, mi: seq<Info>)
    requires h.Open? && Tp.WellFormed(h.ix) ==> Tp.CacheOk(h.ix, c)
    requires var r := Refresh(sum, f, h);
             r.status == Good && r.handle.Open? && Tp.WellFormed(r.handle.ix) && Tp.AllListed(r.handle.ix, mi)
    ensures Tp.Returns(Refresh(sum, f, h).handle.ix, mi, CacheAfter(f, h, c))
  {
    hide LoadLines, IndexText, Lines, Tp.WellFormed, Tp.CacheOk, Tp.AllListed, Tp.Returns;
    EmptyCacheOk();
    Tp.GroupsComplete(Refresh(sum, f, h).handle.ix, mi, CacheAfter(f, h, c));
  }

  /** What /u/m/ writes: one line for each id that is visible and not private. */
  function MLines(f: Files, h: Handle, ids: seq<Str>): seq<Str> {
    if ids == [] then []
    else
      var id := ids[|ids| - 1];
      var bundle, info := BundleOf(f, h, id, false), Known(h, id);
      MLines(f, h, ids[..|ids| - 1])
      + if bundle != [] && info.Some? && !IsPrivate(info.value.echo) then [bundle] else []
  }

  lemma ServeStep(f: Files, h: Handle, ids: seq<Str>, i: nat)
    requires i < |ids|
    ensures var bundle, info := BundleOf(f, h, ids[i], false), Known(h, ids[i]);
            MLines(f, h, ids[..i + 1])
            == MLines(f, h, ids[..i])
               + (if bundle != [] && info.Some? && !IsPrivate(info.value.echo) then [bundle] else [])
            && (info.Some? && info.value.off < 0 ==> bundle == [])
  {
    hide ReadAt, Known;
    assert ids[..i + 1][..i] == ids[..i];
  }

  /** The visible records of a list of ids. */
  function Visible(h: Handle, ids: seq<Str>): seq<Info> {
    if ids == [] then []
    else
      var k := Known(h, ids[|ids| - 1]);
      Visible(h, ids[..|ids| - 1]) + if k.None? || k.value.off < 0 then [] else [k.value]
  }

  /** A second refresh right after a good one finds nothing to do. */
  lemma RefreshTwice(sum: Str -> Str, f: Files, h: Handle)
    ensures var r := Refresh(sum, f, h);
            r.status == Good && r.handle.Open? ==> Refresh(sum, r.files, r.handle) == r
  {
    hide LoadLines, IndexText, Lines;
  }

  /** The line loop of LoadIndex. */
  method ReadLines(lines: seq<Str>, list0: seq<Str>, hash0: map<Str, Info>)
    returns (list: seq<Str>, hash: map<Str, Info>, ok: bool)
    ensures LoadLines(Index(list0, hash0), lines) == Loaded(Index(list, hash), ok)
  {
    list, hash, ok := list0, hash0, true;
    var nr := |list|;
    ghost var ix := Index(list0, hash0);
    for i := 0 to |lines|
      invariant nr == |list| && ok
      invariant LoadLines(ix, lines[..i]) == Loaded(Index(list, hash), true)
    {
      assert lines[..i + 1][..i] == lines[..i];
      var info := ParseRecord(lines[i]);
      if info.None? {
        LoadStops(ix, lines, i);
        return list, hash, false;
      }
      var mi := info.value.(num := nr);
      if mi.id !in hash {
        list := list + [mi.id];
        nr := nr + 1;
      } else {
        mi := mi.(num := hash[mi.id].num);
      }
      hash := hash[mi.id := mi];
    }
    assert lines[..|lines|] == lines;
  }

  lemma {:induction false} LoadStops(ix: Index, lines: seq<Str>, i: nat)
    requires i < |lines| && LoadLines(ix, lines[..i]).ok && ParseRecord(lines[i]).None?
    ensures LoadLines(ix, lines) == Loaded(LoadLines(ix, lines[..i]).ix, false)
  {
    hide ParseRecord;
    var n := |lines| - 1;
    if i < n {
      assert lines[..n][..i] == lines[..i];
      LoadStops(ix, lines[..n], i);
    }
  }

  lemma NextLine(sum: Str -> Str, lines: seq<Str>, i: nat)
    requires i < |lines|
    ensures PrintIndex(sum, lines[..i + 1])
            == PrintIndex(sum, lines[..i]) + Entry(sum, lines[i], |Unlines(lines[..i])|)
    ensures |Unlines(lines[..i + 1])| == |Unlines(lines[..i])| + |lines[i]| + 1
  {
    hide Entry;
    assert lines[..i + 1] == lines[..i] + [lines[i]];
    PrintSnoc(sum, lines[..i], lines[i]);
    UnlinesAppend(lines[..i], [lines[i]]);
  }

  lemma SignedOffIs(m: Msg, off: nat)
    ensures SignedOff(m, off) == if Tag(m, ACCESS) == BLACKLIST then -(off as int) else off
  {
  }

  lemma RecordFields(m: Msg, off: int)
    ensures Record(m, off) == Join([m.id, m.echo, Itoa(off), m.to, m.from, Tag(m, REPTO)], COLON)
  {
  }

  lemma ReindexedSome(sum: Str -> Str, f: Files)
    ensures Reindexed(sum, f).idx.Some? && Reindexed(sum, f).log == f.log
  {
  }

  lemma RefreshHasIndex(sum: Str -> Str, f: Files, h: Handle)
    ensures Refresh(sum, f, h).files.idx.Some?
  {
    hide LoadLines, IndexText, Lines;
  }

  lemma EmptyCacheOk()
    ensures forall ix :: Tp.WellFormed(ix) ==> Tp.CacheOk(ix, map[])
  {
    hide Tp.WellFormed, Tp.TopicAt;
  }

  /** The table a refresh leaves is an ordered map with positions as numbers. */
  ghost predicate SoundAfter(sum: Str -> Str, f: Files, h: Handle) {
    var r := Refresh(sum, f, h);
    r.status == Good && r.handle.Open? ==> Sound(r.handle.ix)
  }

  /** Whatever the index file holds, a successful refresh of a sound or closed handle is sound. */
  lemma RefreshSound(sum: Str -> Str, f: Files, h: Handle)
    requires h.Open? ==> Sound(h.ix)
    ensures SoundAfter(sum, f, h)
  {
    hide LoadLines, IndexText, Lines, Sound;
    EmptySound();
    var g := if f.idx.None? then Reindexed(sum, f) else f;
    var text := g.idx.value;
    LoadSound(EMPTY, Lines(text));
    if h.Open? && f.idx.Some? && |text| > h.size {
      LoadSound(h.ix, Lines(text[h.size..]));
    }
  }

  lemma EmptySound()
    ensures Sound(EMPTY)
  {
  }

  // ---------------------------------------------------------------- tables of real logs

  /** Ids that come from a log are twenty bytes long, so neither empty nor the walk's mark. */
  lemma {:induction false} ViewPlainIds(sum: Str -> Str, lines: seq<Str>)
    requires GoodSum(sum) && AllFree(lines, NL)
    ensures forall id :: id in View(sum, lines).hash ==> IsMsgId(id)
    ensures Tp.PlainIds(View(sum, lines))
  {
    hide Decode, SignedOff, IsMsgId;
    if lines != [] {
      var n := |lines| - 1;
      assert lines == lines[..n] + [lines[n]];
      ViewPlainIds(sum, lines[..n]);
      if Decode(sum, lines[n]).Ok? {
        LineId(sum, lines[n]);
      }
    }
    NotMsgIds();
  }

  lemma LineId(sum: Str -> Str, line: Str)
    requires GoodSum(sum) && Free(line, NL) && Decode(sum, line).Ok?
    ensures IsMsgId(Decode(sum, line).value.id)
  {
    hide Decode;
    DecodedSurvives(sum, line);
  }

  lemma NotMsgIds()
    ensures !IsMsgId([]) && !IsMsgId(Tp.VISITED)
  {
  }

  /** `-i -b select e`: after any run, the ids answered are those of every other echo, in list
      order, and the bundle printed for each is the last log line that carries it. */
  lemma RemovalKeepsLatest(sum: Str -> Str, w: World, h: nat, e: Str, i: nat)
    requires GoodSum(sum) && Consistent(sum, w) && e != []
    requires i < |Q.Outside(Records(sum, w), e)|
    ensures Q.Selection(Q.Removal(e), Q.FULL, Records(sum, w)) == Q.Outside(Records(sum, w), e)
    ensures var id := Q.Outside(Records(sum, w), e)[i].id;
            var r := Refresh(sum, w.files, HandleOf(w, h));
            var lines := Lines(w.files.log);
            var k := LastAt(sum, lines, id);
            k < |lines| && BundleOf(r.files, r.handle, id, true) == lines[k]
            && Decode(sum, lines[k]).Ok? && Decode(sum, lines[k]).value.echo != e
  {
    hide Decode, View, Lines, Refresh, LastAt, BundleOf, Consistent, HandleOf, Sound, Records, InfoOf,
         Q.Selection, Q.Outside;
    var infos := Records(sum, w);
    Q.RemovalIsOutside(infos, e);
    var x := Q.Outside(infos, e)[i];
    OutsideIs(infos, e, x);
    RecordsAre(sum, w, x);
    GetReadsLast(sum, w, h, x.id);
    ViewLast(sum, Lines(w.files.log), x.id);
    var k := LastAt(sum, Lines(w.files.log), x.id);
    EchoOf(Decode(sum, Lines(w.files.log)[k]).value, x.off, x);
  }

  lemma EchoOf(m: Msg, off: int, x: Info)
    ensures forall o :: x.(num := 0) == InfoOf(m, o) ==> m.echo == x.echo
  {
  }

  function Records(sum: Str -> Str, w: World): seq<Info> {
    ViewSound(sum, Lines(w.files.log));
    Q.Records(View(sum, Lines(w.files.log)))
  }

  lemma RecordsAre(sum: Str -> Str, w: World, x: Info)
    requires x in Records(sum, w)
    ensures var v := View(sum, Lines(w.files.log)); x.id in v.hash && v.hash[x.id] == x
  {
    ViewSound(sum, Lines(w.files.log));
    hide View, Lines;
  }

  lemma {:induction false} OutsideIs(infos: seq<Info>, e: Str, x: Info)
    requires x in Q.Outside(infos, e)
    ensures x in infos && x.echo != e
  {
    if infos != [] && x in Q.Outside(infos[..|infos| - 1], e) {
      OutsideIs(infos[..|infos| - 1], e, x);
    }
  }
}
