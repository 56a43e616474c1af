/** The serving side of the fetch protocol, and what a client makes of its answers. */
module Serve {
  import opened Bytes
  import opened Codec
  import opened Log
  import opened Store
  import opened Url
  import Q = Query
  import T = Tags

  // ---------------------------------------------------------------- slices as text

  /** The "start:lim" suffix of a u/e request. */
  function PrintSlice(start: int, lim: int): Str { Itoa(start) + [COLON] + Itoa(lim) }

  /** Sscanf(slice, "%d:%d"). */
  function ScanSlice(s: Str): Option<(int, int)> {
    var a := ScanNumber(s);
    if a.None? || a.value.1 == [] || a.value.1[0] != COLON then None
    else
      var b := ScanNumber(a.value.1[1..]);
      if b.None? then None else Some((a.value.0, b.value.0))
  }

  lemma SliceRoundTrip(start: int, lim: int)
    requires MIN_INT64 <= start <= MAX_INT64 && MIN_INT64 <= lim <= MAX_INT64
    ensures ScanSlice(PrintSlice(start, lim)) == Some((start, lim))
  {
    hide ScanNumber, Itoa;
    var rest := [COLON] + Itoa(lim);
    assert PrintSlice(start, lim) == Itoa(start) + rest;
    ScanItoaThen(start, rest);
    assert rest[1..] == Itoa(lim) + [];
    ScanItoaThen(lim, []);
  }

  lemma {:induction false} SkipBlanksFree(s: Str, c: Byte)
    requires Free(s, c)
    ensures Free(SkipBlanks(s), c)
  {
    if s != [] && IsBlank(s[0]) {
      SkipBlanksFree(s[1..], c);
    }
  }

  /** An echo name has no colon, so it is never taken for a slice. */
  lemma EchoIsNoSlice(e: Str)
    requires Free(e, COLON)
    ensures ScanSlice(e) == None
  {
    SkipBlanksFree(e, COLON);
    var a := ScanNumber(e);
    if a.Some? && a.value.1 != [] {
      var t := SkipBlanks(e);
      assert a.value.1[0] in t;
    }
  }

  // ---------------------------------------------------------------- u/e

  function Ask(e: Str, user: Str, start: int, lim: int): Q.Filter {
    Q.Listing(e, user, false).(start := start, lim := lim)
  }

  function Answer(ix: Index, e: Str, user: Str, start: int, lim: int): seq<Str>
    requires Sound(ix)
  {
    Q.Ids(Q.Selection(Ask(e, user, start, lim), Q.FULL, Q.Records(ix)))
  }

  /** One block per valid echo: its name, then the ids. */
  function Blocks(ix: Index, echoes: seq<Str>, user: Str, start: int, lim: int): seq<Str>
    requires Sound(ix)
  {
    if echoes == [] then []
    else
      var e := echoes[|echoes| - 1];
      Blocks(ix, echoes[..|echoes| - 1], user, start, lim)
      + if IsEcho(e) then [e] + Answer(ix, e, user, start, lim) else []
  }

  function UeLines(ix: Index, path: seq<Str>, user: Str): seq<Str>
    requires Sound(ix)
  {
    if path == [] then []
    else
      var slice := ScanSlice(path[|path| - 1]);
      if slice.Some? then Blocks(ix, path[..|path| - 1], user, slice.value.0, slice.value.1)
      else Blocks(ix, path, user, 0, 0)
  }

  /** get_ue: the lines written for the path elements of a u/e request. */
  method GetUe(ix: Index, path: seq<Str>, user: Str) returns (lines: seq<Str>)
    requires Sound(ix)
    ensures lines == UeLines(ix, path, user)
  {
    hide Sound, ScanSlice, Q.Selection, Q.Records, Q.Ids, IsEcho;
    if path == [] { return []; }
    var echoes, idx, lim := path, 0, 0;
    var slice := ScanSlice(path[|path| - 1]);
    if slice.Some? {
      echoes, idx, lim := path[..|path| - 1], slice.value.0, slice.value.1;
    }
    lines := [];
    for i := 0 to |echoes|
      invariant lines == Blocks(ix, echoes[..i], user, idx, lim)
    {
      assert echoes[..i + 1][..i] == echoes[..i];
      if !IsEcho(echoes[i]) {
        assert lines + [] == lines;
        continue;
      }
      var q := new Q.Query(Ask(echoes[i], user, idx, lim), 0, 0);
      var ids := Q.SelectIDS(ix, q);
      lines := lines + ([echoes[i]] + ids);
    }
    assert echoes[..|echoes|] == echoes;
  }

  // ---------------------------------------------------------------- the client's reading

  /** Lines with a dot are echo names and are passed over. */
  function Payload(lines: seq<Str>): seq<Str> {
    if lines == [] then []
    else
      Payload(lines[..|lines| - 1]) + if DOT in lines[|lines| - 1] then [] else [lines[|lines| - 1]]
  }

  function Concat(lines: seq<Str>): Str {
    if lines == [] then [] else Concat(lines[..|lines| - 1]) + lines[|lines| - 1]
  }

  /** http_get_id: the dot-free lines glued together. */
  method GetId(lines: seq<Str>) returns (res: Str)
    ensures res == Concat(Payload(lines))
  {
    res := [];
    for i := 0 to |lines|
      invariant res == Concat(Payload(lines[..i]))
    {
      assert lines[..i + 1][..i] == lines[..i];
      if DOT in lines[i] {
        assert Payload(lines[..i]) + [] == Payload(lines[..i]);
        continue;
      }
      var p := Payload(lines[..i]);
      assert (p + [lines[i]])[..|p|] == p;
      res := res + lines[i];
    }
    assert lines[..|lines|] == lines;
  }

  ghost predicate AllIds(ids: seq<Str>) { forall i :: 0 <= i < |ids| ==> IsMsgId(ids[i]) }

  lemma {:induction false} PayloadOfBlock(e: Str, ids: seq<Str>)
    requires IsEcho(e) && AllIds(ids)
    ensures Payload([e] + ids) == ids
  {
    hide IsEcho;
    if ids == [] {
      assert [e] + ids == [e];
      assert DOT in e by { EchoHasDot(e); }
      assert [e][..0] == [];
    } else {
      var n := |ids| - 1;
      assert ([e] + ids)[..n + 1] == [e] + ids[..n];
      PayloadOfBlock(e, ids[..n]);
      assert IsMsgId(ids[n]);
    }
  }

  lemma EchoHasDot(e: Str)
    requires IsEcho(e)
    ensures DOT in e && Free(e, COLON)
  {
  }

  /** L[start..][..lim] for start >= 0, else the last -start cut to the first lim. */
  function Slice(l: seq<Str>, start: int, lim: int): seq<Str> {
    var n := |l|;
    var from := if start < 0 then Q.Max(0, n + start) else Q.Min(start, n);
    if lim > 0 then l[from..Q.Min(from + lim, n)] else l[from..]
  }

  /** The public messages of an echo, oldest first: what the node lists for it. */
  function Public(ix: Index, e: Str): seq<Str>
    requires Sound(ix)
  {
    Q.Ids(Q.Passing(Q.Listing(e, [], false), Q.Records(ix)))
  }

  /** Who is on an echo's list: the ids of its shown messages, unless the echo is private, in ascending
      number. */
  lemma PublicIff(ix: Index, e: Str, id: Str)
    requires Sound(ix) && e != []
    ensures id in Public(ix, e) <==> id in ix.hash && ix.hash[id].off >= 0 && ix.hash[id].echo == e && e[0] != '.'
    ensures var l := Public(ix, e);
            (forall i :: 0 <= i < |l| ==> l[i] in ix.hash)
            && forall i, j :: 0 <= i < j < |l| ==> ix.hash[l[i]].num < ix.hash[l[j]].num
  {
    hide Sound, Q.Passing, Q.Selection, Q.Records;
    var f := Q.Listing(e, [], false);
    Q.PlainSelection(f, Q.Records(ix));
    Q.SelectedIff(ix, f, id);
  }

  lemma AnswerIsSlice(ix: Index, e: Str, start: int, lim: int)
    requires Sound(ix)
    ensures Answer(ix, e, [], start, lim) == Slice(Public(ix, e), start, lim)
  {
    hide Sound, Q.Selection, Q.Passing, Q.Pass, Q.Records;
    var f := Ask(e, [], start, lim);
    Q.SelectionIsSlice(f, Q.FULL, Q.Records(ix));
    Q.SamePassing(f, Q.Listing(e, [], false), Q.Records(ix));
  }

  /** What a client reads when it asks for u/e/path: the dot-free lines, or nothing at all when the
      request cannot be made. */
  function Listed(ix: Index, path: Str): Option<seq<Str>>
    requires Sound(ix)
  {
    match Arrive(path)
    case None => None
    case Some(p) => Some(Payload(UeLines(ix, Split(p, SLASH), [])))
  }

  function SlicePath(e: Str, start: int, lim: int): Str { e + [SLASH] + PrintSlice(start, lim) }

  lemma ItoaPlain(n: int)
    ensures UrlPlain(Itoa(n))
  {
    hide Itoa;
    var s := Itoa(n);
    forall i | 0 <= i < |s| ensures Carriable(s[i]) {
      if !Carriable(s[i]) { ItoaFree(n, s[i]); }
    }
  }

  lemma SliceArrives(e: Str, start: int, lim: int)
    requires UrlPlain(e)
    ensures Arrive(SlicePath(e, start, lim)) == Some(SlicePath(e, start, lim))
    ensures Split(SlicePath(e, start, lim), SLASH) == [e, PrintSlice(start, lim)]
    ensures Arrive(e) == Some(e) && Split(e, SLASH) == [e]
  {
    hide Arrive, Split, Itoa;
    ItoaPlain(start);
    ItoaPlain(lim);
    var s := PrintSlice(start, lim);
    assert [e, s][1..] == [s];
    assert Join([e, s], SLASH) == SlicePath(e, start, lim);
    ElementsArrive([e, s]);
    ElementsArrive([e]);
  }

  /** A request for a slice of one echo, from its text to what the client makes of the answer:
      pasted together, parsed as a URL, split, the slice scanned, selected, written as lines and
      filtered, it yields exactly that slice of the echo's public messages; a request without a
      slice yields them all. */
  lemma RequestAnswered(ix: Index, e: Str, start: int, lim: int)
    requires Sound(ix) && IsEcho(e) && UrlPlain(e) && AllIds(ix.list)
    requires MIN_INT64 <= start <= MAX_INT64 && MIN_INT64 <= lim <= MAX_INT64
    ensures Listed(ix, SlicePath(e, start, lim)) == Some(Slice(Public(ix, e), start, lim))
    ensures Listed(ix, e) == Some(Public(ix, e))
  {
    hide Sound, ScanSlice, PrintSlice, Answer, IsEcho, Public, Arrive, Split;
    SliceArrives(e, start, lim);
    SliceRoundTrip(start, lim);
    EchoHasDot(e);
    EchoIsNoSlice(e);
    OneBlock(ix, e, start, lim);
    OneBlock(ix, e, 0, 0);
    assert [e, PrintSlice(start, lim)][..1] == [e];
    assert Slice(Public(ix, e), 0, 0) == Public(ix, e);
  }

  lemma {:induction false} PayloadAppend(a: seq<Str>, b: seq<Str>)
    ensures Payload(a + b) == Payload(a) + Payload(b)
  {
    if b == [] {
      assert a + b == a;
    } else {
      assert (a + b)[..|a + b| - 1] == a + b[..|b| - 1];
      PayloadAppend(a, b[..|b| - 1]);
    }
  }

  /** Whatever the path, the ids read are public ones of the echoes among its elements. */
  lemma {:induction false} BlocksFrom(ix: Index, echoes: seq<Str>, start: int, lim: int, x: Str)
    requires Sound(ix) && AllIds(ix.list) && x in Payload(Blocks(ix, echoes, [], start, lim))
    ensures exists g :: g in echoes && IsEcho(g) && x in Public(ix, g)
  {
    hide Sound, Answer, IsEcho, Slice, Public;
    if echoes != [] {
      var n := |echoes| - 1;
      var g := echoes[n];
      var before := Blocks(ix, echoes[..n], [], start, lim);
      var block := if IsEcho(g) then [g] + Answer(ix, g, [], start, lim) else [];
      PayloadAppend(before, block);
      if x in Payload(before) {
        BlocksFrom(ix, echoes[..n], start, lim, x);
      } else {
        var one: seq<Str> := [g];
        assert one[..0] == [];
        assert Blocks(ix, one, [], start, lim) == [] + block == block;
        OneBlock(ix, g, start, lim);
        SliceFrom(Public(ix, g), start, lim, x);
      }
    }
  }

  lemma SliceFrom(l: seq<Str>, start: int, lim: int, x: Str)
    requires x in Slice(l, start, lim)
    ensures x in l
  {
  }

  /** An echo is listed under its own name exactly when the name is plain: one that holds a slash,
      an escape, '?', '#' or a control byte is never looked up, and none of its messages is in
      the answer. */
  lemma EchoListedIff(ix: Index, e: Str)
    requires Sound(ix) && IsEcho(e) && AllIds(ix.list) && Public(ix, e) != []
    ensures Listed(ix, e) == Some(Public(ix, e)) <==> UrlPlain(e)
    ensures !UrlPlain(e) && Listed(ix, e).Some? ==>
              forall x :: x in Listed(ix, e).value ==> x !in Public(ix, e)
  {
    hide Sound, ScanSlice, Answer, IsEcho, Public, Arrive, Split, UrlPlain, Blocks, Payload;
    if UrlPlain(e) {
      RequestAnswered(ix, e, 0, 0);
    } else if Arrive(e).Some? {
      forall x | x in Listed(ix, e).value ensures x !in Public(ix, e) {
        NotListed(ix, e, x);
      }
      assert Public(ix, e)[0] in Public(ix, e);
    }
  }

  lemma NotListed(ix: Index, e: Str, x: Str)
    requires Sound(ix) && IsEcho(e) && AllIds(ix.list) && !UrlPlain(e)
    requires Listed(ix, e).Some? && x in Listed(ix, e).value
    ensures x !in Public(ix, e)
  {
    hide Sound, ScanSlice, Answer, Public, Arrive, Split, UrlPlain, Blocks, Payload;
    var path := Split(Arrive(e).value, SLASH);
    var slice := ScanSlice(path[|path| - 1]);
    var echoes := if slice.Some? then path[..|path| - 1] else path;
    var start, lim := if slice.Some? then slice.value.0 else 0, if slice.Some? then slice.value.1 else 0;
    BlocksFrom(ix, echoes, start, lim, x);
    var g :| g in echoes && IsEcho(g) && x in Public(ix, g);
    assert Join([e], SLASH) == e;
    if g == e {
      ArrivedElement([e], g);
    }
    PublicDistinct(ix, g, e);
  }

  lemma OneBlock(ix: Index, e: Str, start: int, lim: int)
    requires Sound(ix) && IsEcho(e) && AllIds(ix.list)
    ensures Payload(Blocks(ix, [e], [], start, lim)) == Slice(Public(ix, e), start, lim)
  {
    hide Sound, Answer, IsEcho, Slice, Public;
    AnswerIsSlice(ix, e, start, lim);
    PublicIds(ix, e);
    SliceIds(Public(ix, e), start, lim);
    var ids := Answer(ix, e, [], start, lim);
    assert [e][..0] == [];
    assert Blocks(ix, [e], [], start, lim) == [] + ([e] + ids) == [e] + ids;
    PayloadOfBlock(e, ids);
  }

  lemma BlocksSnoc(ix: Index, es: seq<Str>, e: Str, user: Str, start: int, lim: int)
    requires Sound(ix)
    ensures Blocks(ix, [], user, start, lim) == []
    ensures Blocks(ix, [e], user, start, lim) == if IsEcho(e) then [e] + Answer(ix, e, user, start, lim) else []
    ensures Blocks(ix, es + [e], user, start, lim)
            == Blocks(ix, es, user, start, lim) + Blocks(ix, [e], user, start, lim)
  {
    hide Sound, Answer, IsEcho;
    assert (es + [e])[..|es|] == es && [e][..0] == [];
    var none: seq<Str> := [];
    assert forall b: seq<Str> :: none + b == b;
  }

  lemma UeSnoc(ix: Index, es: seq<Str>, x: Str, user: Str)
    requires Sound(ix)
    ensures UeLines(ix, es + [x], user)
            == match ScanSlice(x)
               case None => Blocks(ix, es + [x], user, 0, 0)
               case Some(s) => Blocks(ix, es, user, s.0, s.1)
    ensures UeLines(ix, [], user) == []
  {
    hide Sound, ScanSlice, Blocks;
    assert (es + [x])[..|es|] == es;
  }

  /** The lines for one echo asked for whole: its name, then the ids of its messages the user may see, in
      ascending number; those of a private echo only if written by the user, to the user or to "All". A
      name that is no echo name is passed over. */
  lemma UeTells(ix: Index, e: Str, user: Str, id: Str)
    requires Sound(ix) && ':' !in e
    ensures var r := UeLines(ix, [e], user);
            if !('.' in e && 3 <= |e| <= 120) then r == []
            else r != [] && r[0] == e
                 && (id in r[1..] <==> id in ix.hash && ix.hash[id].off >= 0 && ix.hash[id].echo == e
                                       && (e[0] != '.' || (user != "" && (ix.hash[id].from == user || ix.hash[id].to == user
                                                                          || ix.hash[id].to == "All"))))
                 && (forall i :: 1 <= i < |r| ==> r[i] in ix.hash)
                 && forall i, j :: 1 <= i < j < |r| ==> ix.hash[r[i]].num < ix.hash[r[j]].num
  {
    hide Sound, ScanSlice, Q.Selection, Q.Records, UeLines, Blocks, Q.Ids;
    EchoIsNoSlice(e);
    var none: seq<Str> := [];
    UeSnoc(ix, none, e, user);
    BlocksSnoc(ix, none, e, user, 0, 0);
    assert none + [e] == [e];
    var f := Q.Listing(e, user, false);
    var l := Answer(ix, e, user, 0, 0);
    assert Ask(e, user, 0, 0) == f;
    Q.SelectedIff(ix, f, id);
    var r := UeLines(ix, [e], user);
    if IsEcho(e) {
      assert r == [e] + l;
      assert r[1..] == l;
      forall i | 1 <= i < |r| ensures r[i] == l[i - 1] {}
    }
  }

  /** Several echoes are answered one after the other; a last element that is a slice goes for all. */
  lemma UeAppends(ix: Index, es: seq<Str>, e: Str, user: Str, start: int, lim: int)
    requires Sound(ix) && ':' !in e && (es != [] ==> ':' !in es[|es| - 1])
    requires MIN_INT64 <= start <= MAX_INT64 && MIN_INT64 <= lim <= MAX_INT64
    ensures UeLines(ix, es + [e], user) == UeLines(ix, es, user) + UeLines(ix, [e], user)
    ensures var s := PrintSlice(start, lim);
            UeLines(ix, es + [e] + [s], user) == UeLines(ix, es + [s], user) + UeLines(ix, [e] + [s], user)
  {
    hide Sound, ScanSlice, Blocks, UeLines, PrintSlice;
    EchoIsNoSlice(e);
    var s := PrintSlice(start, lim);
    SliceRoundTrip(start, lim);
    var none: seq<Str> := [];
    assert none + [e] == [e];
    UeSnoc(ix, es, e, user);
    UeSnoc(ix, none, e, user);
    BlocksSnoc(ix, es, e, user, 0, 0);
    UeSnoc(ix, es + [e], s, user);
    UeSnoc(ix, es, s, user);
    UeSnoc(ix, [e], s, user);
    BlocksSnoc(ix, es, e, user, start, lim);
    if es == [] {
      assert es + [e] == [e];
    } else {
      var n := |es| - 1;
      EchoIsNoSlice(es[n]);
      assert es == es[..n] + [es[n]];
      UeSnoc(ix, es[..n], es[n], user);
    }
  }

  lemma SliceIds(l: seq<Str>, start: int, lim: int)
    requires AllIds(l)
    ensures AllIds(Slice(l, start, lim))
  {
    hide IsMsgId;
  }

  lemma {:induction false} PassingFrom(f: Q.Filter, infos: seq<Info>)
    ensures forall x :: x in Q.Passing(f, infos) ==> x in infos && Q.Pass(f, x)
  {
    hide Q.Pass;
    if infos != [] {
      PassingFrom(f, infos[..|infos| - 1]);
    }
  }

  lemma PublicIds(ix: Index, e: Str)
    requires Sound(ix) && AllIds(ix.list)
    ensures AllIds(Public(ix, e))
  {
    hide IsMsgId, Q.Pass, Q.Passing;
    var r, f := Q.Records(ix), Q.Listing(e, [], false);
    PassingFrom(f, r);
    var p := Q.Passing(f, r);
    forall i | 0 <= i < |p| ensures IsMsgId(p[i].id) {
      assert p[i] in p;
      var j :| 0 <= j < |r| && r[j] == p[i];
      assert ix.list[j] in ix.hash;
    }
  }

  /** The lists of different echoes are disjoint, and none repeats an id. */
  lemma PublicDistinct(ix: Index, e: Str, g: Str)
    requires Sound(ix) && e != [] && g != []
    ensures T.NoDups(Public(ix, e))
    ensures e != g ==> forall id :: !(id in Public(ix, e) && id in Public(ix, g))
  {
    hide Q.Passing, Sound, Public;
    Q.RecordsDistinct(ix);
    PassingDistinct(Q.Listing(e, [], false), Q.Records(ix));
    PublicIsPassing(ix, e);
    forall id ensures id in Public(ix, e) ==> id in ix.hash && ix.hash[id].echo == e {
      if id in Public(ix, e) { PublicEcho(ix, e, id); }
    }
    forall id ensures id in Public(ix, g) ==> id in ix.hash && ix.hash[id].echo == g {
      if id in Public(ix, g) { PublicEcho(ix, g, id); }
    }
  }

  lemma PublicIsPassing(ix: Index, e: Str)
    requires Sound(ix) && Q.Distinct(Q.Passing(Q.Listing(e, [], false), Q.Records(ix)))
    ensures T.NoDups(Public(ix, e))
  {
    hide Q.Passing, Sound;
  }

  lemma PublicEcho(ix: Index, e: Str, id: Str)
    requires Sound(ix) && e != [] && id in Public(ix, e)
    ensures id in ix.hash && ix.hash[id].echo == e && ix.hash[id].off >= 0 && !IsPrivate(e)
  {
    hide Q.Passing;
    var r, f := Q.Records(ix), Q.Listing(e, [], false);
    PassingFrom(f, r);
    var p := Q.Passing(f, r);
    var i :| 0 <= i < |p| && p[i].id == id;
    assert p[i] in p;
    var j :| 0 <= j < |r| && r[j] == p[i];
  }

  lemma {:induction false} PassingDistinct(f: Q.Filter, infos: seq<Info>)
    requires Q.Distinct(infos)
    ensures Q.Distinct(Q.Passing(f, infos))
  {
    hide Q.Pass;
    if infos != [] {
      var n := |infos| - 1;
      PassingDistinct(f, infos[..n]);
      PassingFrom(f, infos[..n]);
      var p := Q.Passing(f, infos[..n]);
      forall i | 0 <= i < |p| ensures p[i].id != infos[n].id {
        assert p[i] in p;
        var j :| 0 <= j < n && infos[..n][j] == p[i];
      }
    }
  }
}
