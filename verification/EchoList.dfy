/** The list that DB.Echoes makes of its counts: the echoes asked for, each with the message its last
    entry stands for, newest first. */
module EchoList {
  import opened Bytes
  import opened Codec
  import opened Log
  import opened Store
  import Q = Query
  import T = Tags

  /** An Echo: its name, its statistics and its last message. */
  datatype Row = Row(name: Str, stat: Q.Stat, msg: Msg)

  const BLANK := Msg([], T.EMPTY, [], 0, [], [], [], [], [])

  /** GetFast: no refresh; nothing for a line that does not decode. */
  function Fast(sum: Str -> Str, f: Files, h: Handle, id: Str): Option<Msg> {
    var b := BundleOf(f, h, id, false);
    if b == [] then None
    else
      var m := Decode(sum, b);
      if m.Ok? then Some(m.value) else None
  }

  function LastMsg(sum: Str -> Str, f: Files, h: Handle, id: Str): Msg {
    var m := Fast(sum, f, h, id);
    if m.Some? then m.value else BLANK
  }

  /** The echoes of `names` that were counted, in the order of `names`. */
  function Found(names: seq<Str>, stats: map<Str, Q.Stat>): seq<Row> {
    if names == [] then []
    else
      var e := names[|names| - 1];
      Found(names[..|names| - 1], stats) + if e in stats then [Row(e, stats[e], BLANK)] else []
  }

  /** The list before it is sorted: the echoes asked for, or all of them in the arbitrary order that Go
      gives the keys of a map. */
  method Listed(stats: map<Str, Q.Stat>, names: Option<seq<Str>>) returns (rows: seq<Row>, ghost order: seq<Str>)
    ensures rows == Found(order, stats)
    ensures if names.Some? then order == names.value
            else T.NoDups(order) && forall e :: e in order <==> e in stats
  {
    rows, order := [], [];
    if names.Some? {
      for i := 0 to |names.value|
        invariant rows == Found(names.value[..i], stats)
      {
        assert names.value[..i + 1][..i] == names.value[..i];
        var v := names.value[i];
        if v in stats {
          rows := rows + [Row(v, stats[v], BLANK)];
        } else {
          assert rows + [] == rows;
        }
      }
      order := names.value;
      assert names.value[..|names.value|] == names.value;
    } else {
      var rest := stats.Keys;
      while rest != {}
        invariant rest <= stats.Keys && T.NoDups(order)
        invariant forall e :: e in order <==> e in stats && e !in rest
        invariant rows == Found(order, stats)
        decreases rest
      {
        var v :| v in rest;
        assert (order + [v])[..|order|] == order;
        rows, order, rest := rows + [Row(v, stats[v], BLANK)], order + [v], rest - {v};
      }
    }
  }

  function Filled(sum: Str -> Str, f: Files, h: Handle, rows: seq<Row>): (r: seq<Row>)
    ensures |r| == |rows|
  {
    seq(|rows|, i requires 0 <= i < |rows| => rows[i].(msg := LastMsg(sum, f, h, rows[i].stat.last.id)))
  }

  /** sort.SliceStable by date, newest first. */
  function Insert(s: seq<Row>, x: Row): seq<Row> {
    if s == [] || s[|s| - 1].msg.date >= x.msg.date then s + [x]
    else Insert(s[..|s| - 1], x) + [s[|s| - 1]]
  }

  function ByDate(s: seq<Row>): seq<Row> {
    if s == [] then [] else Insert(ByDate(s[..|s| - 1]), s[|s| - 1])
  }

  // ---------------------------------------------------------------- the sort

  ghost predicate Newest(s: seq<Row>) { forall i, j :: 0 <= i < j < |s| ==> s[i].msg.date >= s[j].msg.date }

  /** The rows of one date, in order. */
  function OfDate(s: seq<Row>, d: int): seq<Row> {
    if s == [] then []
    else OfDate(s[..|s| - 1], d) + if s[|s| - 1].msg.date == d then [s[|s| - 1]] else []
  }

  lemma OfDateSnoc(s: seq<Row>, x: Row, d: int)
    ensures OfDate(s + [x], d) == OfDate(s, d) + if x.msg.date == d then [x] else []
  {
    assert (s + [x])[..|s|] == s;
  }

  lemma {:induction false} InsertSorts(s: seq<Row>, x: Row)
    requires Newest(s)
    ensures Newest(Insert(s, x)) && |Insert(s, x)| == |s| + 1
    ensures s != [] ==> var l := Insert(s, x)[|s|]; l == x || l == s[|s| - 1]
    ensures forall i :: 0 <= i <= |s| ==> Insert(s, x)[i] == x || Insert(s, x)[i] in s
  {
    if s != [] && s[|s| - 1].msg.date < x.msg.date {
      var n := |s| - 1;
      InsertSorts(s[..n], x);
      forall i | 0 <= i <= n ensures Insert(s[..n], x)[i].msg.date >= s[n].msg.date {
        assert Insert(s[..n], x)[i] == x || Insert(s[..n], x)[i] in s[..n];
      }
    }
  }

  lemma {:induction false} InsertStable(s: seq<Row>, x: Row, d: int)
    ensures OfDate(Insert(s, x), d) == OfDate(s, d) + if x.msg.date == d then [x] else []
    ensures multiset(Insert(s, x)) == multiset(s) + multiset{x}
  {
    hide OfDate;
    OfDateSnoc(s, x, d);
    if s != [] && s[|s| - 1].msg.date < x.msg.date {
      var n := |s| - 1;
      InsertStable(s[..n], x, d);
      assert s == s[..n] + [s[n]];
      OfDateSnoc(s[..n], s[n], d);
      OfDateSnoc(Insert(s[..n], x), s[n], d);
      OneDateAtMost(OfDate(s[..n], d), s[n], x, d);
    }
  }

  lemma OneDateAtMost(o: seq<Row>, a: Row, x: Row, d: int)
    requires a.msg.date != x.msg.date
    ensures (o + if x.msg.date == d then [x] else []) + (if a.msg.date == d then [a] else [])
            == (o + if a.msg.date == d then [a] else []) + (if x.msg.date == d then [x] else [])
  {
  }

  /** The list is sorted, and rows of the same date keep their order. */
  lemma {:induction false} SortsStably(s: seq<Row>, d: int)
    ensures Newest(ByDate(s)) && multiset(ByDate(s)) == multiset(s) && OfDate(ByDate(s), d) == OfDate(s, d)
  {
    hide Newest, OfDate, Insert;
    if s == [] {
      NothingSorted(d);
    } else {
      var n := |s| - 1;
      OfDateSnoc(s[..n], s[n], d);
      SortsStably(s[..n], d);
      InsertSorts(ByDate(s[..n]), s[n]);
      InsertStable(ByDate(s[..n]), s[n], d);
      assert s == s[..n] + [s[n]];
    }
  }

  lemma NothingSorted(d: int)
    ensures Newest([]) && OfDate([], d) == []
  {
  }

  lemma {:induction false} OfDateLast(s: seq<Row>, d: int)
    requires OfDate(s, d) != []
    ensures exists i :: 0 <= i < |s| && s[i].msg.date == d
    ensures s != [] && (s[|s| - 1].msg.date == d ==> OfDate(s, d)[|OfDate(s, d)| - 1] == s[|s| - 1])
  {
    var n := |s| - 1;
    if s[n].msg.date != d {
      OfDateLast(s[..n], d);
      var i :| 0 <= i < n && s[..n][i].msg.date == d;
      assert s[i].msg.date == d;
    }
  }

  lemma OfOwnDate(s: seq<Row>)
    requires s != []
    ensures OfDate(s, s[|s| - 1].msg.date) != []
  {
  }

  /** Nothing else is: two such lists with the same rows of each date, in the same order, are equal. */
  lemma {:induction false} SortedIsOne(s: seq<Row>, t: seq<Row>)
    requires Newest(s) && Newest(t) && forall d :: OfDate(s, d) == OfDate(t, d)
    ensures s == t
    decreases |s|
  {
    hide OfDate;
    if s == [] {
      NothingSorted(0);
      if t != [] {
        OfOwnDate(t);
        NothingSorted(t[|t| - 1].msg.date);
      }
    } else {
      var n, k := |s| - 1, |t| - 1;
      LastIsOne(s, t);
      forall e ensures OfDate(s[..n], e) == OfDate(t[..k], e) {
        OfDateSnoc(s[..n], s[n], e);
        OfDateSnoc(t[..k], t[k], e);
        assert s == s[..n] + [s[n]] && t == t[..k] + [t[k]];
        SameInits(OfDate(s[..n], e), OfDate(t[..k], e), if s[n].msg.date == e then [s[n]] else []);
      }
      SortedIsOne(s[..n], t[..k]);
      assert s == s[..n] + [s[n]] && t == t[..k] + [t[k]];
    }
  }

  lemma SameInits(a: seq<Row>, b: seq<Row>, c: seq<Row>)
    requires a + c == b + c
    ensures a == b
  {
    assert |a| == |b| && a == (a + c)[..|a|] && b == (b + c)[..|b|];
  }

  lemma NewestLast(s: seq<Row>, d: int)
    requires Newest(s) && OfDate(s, d) != []
    ensures s != [] && s[|s| - 1].msg.date <= d
    ensures s[|s| - 1].msg.date == d ==> OfDate(s, d)[|OfDate(s, d)| - 1] == s[|s| - 1]
  {
    hide OfDate;
    OfDateLast(s, d);
    var i :| 0 <= i < |s| && s[i].msg.date == d;
    assert i < |s| - 1 ==> s[i].msg.date >= s[|s| - 1].msg.date;
  }

  lemma LastIsOne(s: seq<Row>, t: seq<Row>)
    requires Newest(s) && Newest(t) && s != [] && forall d :: OfDate(s, d) == OfDate(t, d)
    ensures t != [] && t[|t| - 1] == s[|s| - 1]
  {
    hide OfDate, Newest;
    var d := s[|s| - 1].msg.date;
    OfOwnDate(s);
    assert OfDate(s, d) == OfDate(t, d);
    NewestLast(t, d);
    var e := t[|t| - 1].msg.date;
    OfOwnDate(t);
    assert OfDate(s, e) == OfDate(t, e);
    NewestLast(s, e);
    NewestLast(s, d);
  }

  // ---------------------------------------------------------------- which echoes are listed

  function Named(s: seq<Row>, e: Str): nat {
    if s == [] then 0 else Named(s[..|s| - 1], e) + if s[|s| - 1].name == e then 1 else 0
  }

  lemma NamedSnoc(s: seq<Row>, x: Row, e: Str)
    ensures Named(s + [x], e) == Named(s, e) + if x.name == e then 1 else 0
  {
    assert (s + [x])[..|s|] == s;
  }

  lemma {:induction false} InsertNamed(s: seq<Row>, x: Row, e: Str)
    ensures Named(Insert(s, x), e) == Named(s, e) + if x.name == e then 1 else 0
  {
    NamedSnoc(s, x, e);
    if s != [] && s[|s| - 1].msg.date < x.msg.date {
      var n := |s| - 1;
      InsertNamed(s[..n], x, e);
      NamedSnoc(Insert(s[..n], x), s[n], e);
    }
  }

  lemma {:induction false} ByDateNamed(s: seq<Row>, e: Str)
    ensures Named(ByDate(s), e) == Named(s, e)
  {
    if s != [] {
      ByDateNamed(s[..|s| - 1], e);
      InsertNamed(ByDate(s[..|s| - 1]), s[|s| - 1], e);
    }
  }

  lemma {:induction false} FilledNamed(sum: Str -> Str, f: Files, h: Handle, s: seq<Row>, e: Str)
    ensures Named(Filled(sum, f, h, s), e) == Named(s, e)
  {
    hide LastMsg;
    if s != [] {
      var n := |s| - 1;
      FilledNamed(sum, f, h, s[..n], e);
      assert Filled(sum, f, h, s)[..n] == Filled(sum, f, h, s[..n]);
    }
  }

  lemma {:induction false} FoundNamed(names: seq<Str>, stats: map<Str, Q.Stat>, e: Str)
    ensures Named(Found(names, stats), e) == if e in stats then multiset(names)[e] else 0
  {
    if names != [] {
      var n := |names| - 1;
      FoundNamed(names[..n], stats, e);
      assert names == names[..n] + [names[n]];
      var r := Found(names[..n], stats);
      assert r + [] == r;
      if names[n] in stats { NamedSnoc(r, Row(names[n], stats[names[n]], BLANK), e); }
    }
  }

  /** An echo with messages is listed as often as it was asked for, others never. */
  lemma ListedAsAsked(sum: Str -> Str, f: Files, h: Handle, names: seq<Str>, stats: map<Str, Q.Stat>, e: Str)
    ensures Named(ByDate(Filled(sum, f, h, Found(names, stats))), e) == if e in stats then multiset(names)[e] else 0
  {
    FoundNamed(names, stats, e);
    FilledNamed(sum, f, h, Found(names, stats), e);
    ByDateNamed(Filled(sum, f, h, Found(names, stats)), e);
  }

  lemma {:induction false} OnceEach(names: seq<Str>, e: Str)
    requires T.NoDups(names)
    ensures multiset(names)[e] == if e in names then 1 else 0
  {
    if names != [] {
      var n := |names| - 1;
      OnceEach(names[..n], e);
      assert names == names[..n] + [names[n]];
      assert names[n] !in names[..n];
    }
  }

  // ---------------------------------------------------------------- the last message

  /** In a run, the message loaded for a shown entry is the one its last line carries: none is missing. */
  lemma LastIsRead(sum: Str -> Str, w: World, h: nat, id: Str)
    requires GoodSum(sum) && Consistent(sum, w)
    requires id in View(sum, Lines(w.files.log)).hash && View(sum, Lines(w.files.log)).hash[id].off >= 0
    ensures var r := Refresh(sum, w.files, HandleOf(w, h));
            var lines := Lines(w.files.log); var k := LastAt(sum, lines, id);
            k < |lines| && Decode(sum, lines[k]).Ok? && Decode(sum, lines[k]).value.id == id
            && LastMsg(sum, r.files, r.handle, id) == Decode(sum, lines[k]).value
  {
    hide View, Lines, Refresh, LastAt, Decode, ReadAt, HandleOf, Snapshot, GoodFiles, IndexText;
    var lines := Lines(w.files.log);
    HandleSnapshotOf(sum, w, h);
    RefreshGood(sum, w.files, HandleOf(w, h));
    GetReadsLast(sum, w, h, id);
    ViewLast(sum, lines, id);
    LastAtIsLast(sum, lines, id);
    NotEmptyLine(sum, lines[LastAt(sum, lines, id)]);
  }

  // ---------------------------------------------------------------- what a row says

  /** A row of an echo, for a user: how many messages of it SelectIDS lists for that user, how many of
      them reply to nothing, the record of the last one, and the message on the line at its offset. */
  ghost predicate Tells(sum: Str -> Str, log: Str, ix: Index, user: Str, row: Row)
    requires Sound(ix)
  {
    var all := Q.Ids(Q.Selection(Q.Listing(row.name, user, false), Q.FULL, Q.Records(ix)));
    var heads := Q.Ids(Q.Selection(Q.Listing(row.name, user, true), Q.FULL, Q.Records(ix)));
    all != [] && row.stat.count == |all| && row.stat.topics == |heads|
    && all[|all| - 1] in ix.hash && row.stat.last == ix.hash[all[|all| - 1]]
    && row.stat.last.off >= 0
    && (match Decode(sum, ReadAt(log, row.stat.last.off))
        case Ok(m) => row.msg == m
        case Err(_) => row.msg == BLANK)
  }

  ghost predicate AllTell(sum: Str -> Str, log: Str, ix: Index, user: Str, rows: seq<Row>)
    requires Sound(ix)
  {
    forall i :: 0 <= i < |rows| && rows[i].name != [] ==> Tells(sum, log, ix, user, rows[i])
  }

  lemma {:induction false} FoundFrom(names: seq<Str>, stats: map<Str, Q.Stat>)
    ensures forall row :: row in Found(names, stats) ==> row.name in stats && row.stat == stats[row.name]
  {
    if names != [] {
      FoundFrom(names[..|names| - 1], stats);
    }
  }

  lemma FilledTells(sum: Str -> Str, f: Files, h: Handle, user: Str, row: Row)
    requires h.Open? && Sound(h.ix) && row.name != []
    requires var all := Q.Selection(Q.Listing(row.name, user, false), Q.FULL, Q.Records(h.ix));
             var heads := Q.Selection(Q.Listing(row.name, user, true), Q.FULL, Q.Records(h.ix));
             all != [] && row.stat == Q.Stat(|all|, |heads|, all[|all| - 1])
    ensures Tells(sum, f.log, h.ix, user, row.(msg := LastMsg(sum, f, h, row.stat.last.id)))
  {
    hide Q.Selection, Q.Records, ReadAt, Decode, Sound;
    var all := Q.Selection(Q.Listing(row.name, user, false), Q.FULL, Q.Records(h.ix));
    var x := all[|all| - 1];
    assert x.id == Q.Ids(all)[|all| - 1];
    Q.SelectedIff(h.ix, Q.Listing(row.name, user, false), x.id);
    InSelection(h.ix, Q.Listing(row.name, user, false), x);
    if ReadAt(f.log, x.off) == [] && Decode(sum, []).Ok? { NotEmptyLine(sum, []); }
  }

  lemma InSelection(ix: Index, f: Q.Filter, x: Info)
    requires Sound(ix) && f.start == 0 && f.lim == 0 && !f.invert
    requires x in Q.Selection(f, Q.FULL, Q.Records(ix))
    ensures x.id in ix.hash && ix.hash[x.id] == x
  {
    hide Q.Selection, Q.Passing, Sound;
    Q.PlainSelection(f, Q.Records(ix));
    Q.PassingIs(f, Q.Records(ix), x);
    Q.RecordIs(ix, x);
  }

  /** The rows of a listing of echoes, sorted as they are: newest first, each telling its echo. */
  lemma RowsTell(sum: Str -> Str, f: Files, h: Handle, user: Str, order: seq<Str>, stats: map<Str, Q.Stat>)
    requires h.Open? && Sound(h.ix)
    requires forall e :: e in stats ==> Q.StatOf(stats, Q.Hits(Q.Listing([], user, false), Q.FULL, Q.Shown(Q.Records(h.ix))), e)
    ensures var rows := ByDate(Filled(sum, f, h, Found(order, stats)));
            Newest(rows) && AllTell(sum, f.log, h.ix, user, rows)
  {
    hide Q.StatOf, Q.Selection, Q.Records, Q.Hits, Q.Shown, Tells, Sound, Found, ByDate, Newest, LastMsg;
    var found := Found(order, stats);
    var filled := Filled(sum, f, h, found);
    var rows := ByDate(filled);
    SortsStably(filled, 0);
    FoundFrom(order, stats);
    forall i | 0 <= i < |rows| && rows[i].name != [] ensures Tells(sum, f.log, h.ix, user, rows[i]) {
      assert rows[i] in multiset(rows);
      var k :| 0 <= k < |filled| && filled[k] == rows[i];
      var row := found[k];
      assert row in found;
      Q.CountsAgree(h.ix, user, row.name, stats);
      FilledTells(sum, f, h, user, row);
    }
  }

  /** In a run, the line at that offset is the last one of the id, and decodes. */
  lemma TellsInRun(sum: Str -> Str, w: World, user: Str, row: Row)
    requires GoodSum(sum) && Consistent(sum, w) && Sound(View(sum, Lines(w.files.log)))
    requires Tells(sum, w.files.log, View(sum, Lines(w.files.log)), user, row)
    ensures var lines := Lines(w.files.log); var k := LastAt(sum, lines, row.stat.last.id);
            k < |lines| && Decode(sum, lines[k]) == Ok(row.msg) && row.msg.id == row.stat.last.id
  {
    hide View, Lines, LastAt, Decode, ReadAt, Q.Selection, Q.Records, Sound;
    var lines := Lines(w.files.log);
    var id := row.stat.last.id;
    var all := Q.Ids(Q.Selection(Q.Listing(row.name, user, false), Q.FULL, Q.Records(View(sum, lines))));
    Q.HashId(View(sum, lines), all[|all| - 1]);
    LogEnds(sum, w);
    OffsetReadsLast(sum, w.files.log, id);
    LastAtIsLast(sum, lines, id);
  }

  lemma LogEnds(sum: Str -> Str, w: World)
    requires Consistent(sum, w)
    ensures Terminated(w.files.log)
  {
  }
}
