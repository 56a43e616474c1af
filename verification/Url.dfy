/** What becomes of a request path that is pasted together from ids and echo names: http.Get parses
    it (section 3 of RFC 3986, as Go's net/url does), and the node sees the decoded path. */
module Url {
  import opened Bytes

  const HASH: Byte := '#'
  const QUESTION: Byte := '?'
  const PERCENT: Byte := '%'

  predicate IsControl(b: Byte) { b < ' ' || b as int == 127 }

  predicate HasControl(s: Str) { exists i :: 0 <= i < |s| && IsControl(s[i]) }

  predicate IsHex(b: Byte) { IsDigit(b) || 'a' <= b <= 'f' || 'A' <= b <= 'F' }

  function HexValue(b: Byte): (v: nat)
    requires IsHex(b)
    ensures v < 16
  {
    if IsDigit(b) then b as int - '0' as int
    else if b >= 'a' then b as int - 'a' as int + 10
    else b as int - 'A' as int + 10
  }

  function HexByte(a: Byte, b: Byte): Byte
    requires IsHex(a) && IsHex(b)
  {
    (16 * HexValue(a) + HexValue(b)) as char
  }

  /** Percent-decoding; None is an invalid escape. */
  function Unescape(s: Str): Option<Str> {
    if s == [] then Some([])
    else if s[0] != PERCENT then
      (match Unescape(s[1..])
       case None => None
       case Some(r) => Some([s[0]] + r))
    else if |s| < 3 || !IsHex(s[1]) || !IsHex(s[2]) then None
    else
      match Unescape(s[3..])
      case None => None
      case Some(r) => Some([HexByte(s[1], s[2])] + r)
  }

  /** The path the node sees for a request text, if the request can be made at all: the fragment cut
      off, no control bytes before it, then the query cut off, then the escapes decoded. */
  function Arrive(req: Str): Option<Str> {
    var n := Find(req, HASH);
    if HasControl(req[..n]) then None
    else if n < |req| && Unescape(req[n + 1..]).None? then None
    else Unescape(PathPart(req))
  }

  function PathPart(req: Str): (p: Str)
    ensures |p| <= |req| && p == req[..|p|]
    ensures Free(p, HASH) && Free(p, QUESTION)
  {
    var a := req[..Find(req, HASH)];
    a[..Find(a, QUESTION)]
  }

  /** Bytes that a request path carries unchanged and that do not separate its elements. */
  predicate Carriable(b: Byte) {
    b != SLASH && b != PERCENT && b != QUESTION && b != HASH && !IsControl(b)
  }

  ghost predicate UrlPlain(s: Str) { forall i :: 0 <= i < |s| ==> Carriable(s[i]) }

  ghost predicate AllUrlPlain(ss: seq<Str>) { forall i :: 0 <= i < |ss| ==> UrlPlain(ss[i]) }

  // ---------------------------------------------------------------- plain paths arrive as written

  /** A path of plain elements. */
  ghost predicate PlainPath(s: Str) { forall i :: 0 <= i < |s| ==> s[i] == SLASH || Carriable(s[i]) }

  lemma {:induction false} UnescapeSame(s: Str)
    requires Free(s, PERCENT)
    ensures Unescape(s) == Some(s)
  {
    if s != [] {
      assert s[0] in s;
      UnescapeSame(s[1..]);
      assert [s[0]] + s[1..] == s;
    }
  }

  const HEX: Str := "0123456789ABCDEF"

  /** Every byte as a percent sign and two digits. */
  function Escaped(s: Str): Str {
    if s == [] then []
    else
      var b := s[0] as int;
      assert |HEX| == 16;
      ['%', HEX[b / 16], HEX[b % 16]] + Escaped(s[1..])
  }

  /** Whatever is escaped byte by byte arrives as it was. */
  lemma {:induction false} EscapedArrives(s: Str)
    ensures Arrive(Escaped(s)) == Some(s)
  {
    hide Unescape, Find, Escaped;
    EscapedPlain(s);
    FindNone(Escaped(s), HASH);
    assert Escaped(s)[..|Escaped(s)|] == Escaped(s);
    FindNone(Escaped(s), QUESTION);
    EscapedBack(s);
  }

  lemma HexBack(b: Byte)
    ensures |HEX| == 16 && b as int / 16 < 16 && b as int % 16 < 16
    ensures var x, y := HEX[b as int / 16], HEX[b as int % 16];
            IsHex(x) && IsHex(y) && HexByte(x, y) == b && x != '#' && x != '?' && y != '#' && y != '?'
  {
    HexDigit(b as int / 16);
    HexDigit(b as int % 16);
  }

  lemma HexDigit(i: nat)
    requires i < 16
    ensures |HEX| == 16 && IsHex(HEX[i]) && HexValue(HEX[i]) == i
  {
  }

  lemma {:induction false} EscapedBack(s: Str)
    ensures Unescape(Escaped(s)) == Some(s)
  {
    hide HexByte, IsHex;
    if s != [] {
      EscapedBack(s[1..]);
      HexBack(s[0]);
      var b := s[0] as int;
      var e := ['%', HEX[b / 16], HEX[b % 16]] + Escaped(s[1..]);
      assert e[3..] == Escaped(s[1..]);
      assert [s[0]] + s[1..] == s;
    }
  }

  lemma {:induction false} EscapedPlain(s: Str)
    ensures var e := Escaped(s); Free(e, HASH) && Free(e, QUESTION) && !HasControl(e)
  {
    hide HexByte;
    if s != [] {
      EscapedPlain(s[1..]);
      HexBack(s[0]);
    }
  }

  lemma FindNone(s: Str, c: Byte)
    requires Free(s, c)
    ensures Find(s, c) == |s|
  {
  }

  lemma PlainArrives(req: Str)
    requires PlainPath(req)
    ensures Arrive(req) == Some(req)
  {
    hide Unescape, Find;
    FindNone(req, HASH);
    assert req[..|req|] == req;
    FindNone(req, QUESTION);
    UnescapeSame(req);
  }

  lemma {:induction false} JoinPlain(parts: seq<Str>)
    requires |parts| >= 1 && AllUrlPlain(parts)
    ensures PlainPath(Join(parts, SLASH))
  {
    if |parts| > 1 {
      JoinPlain(parts[1..]);
    }
  }

  /** Slashes within the parts do no harm to arriving. */
  lemma {:induction false} JoinPath(parts: seq<Str>)
    requires |parts| >= 1 && forall i :: 0 <= i < |parts| ==> PlainPath(parts[i])
    ensures PlainPath(Join(parts, SLASH))
  {
    if |parts| > 1 {
      JoinPath(parts[1..]);
    }
  }

  lemma PlainFree(parts: seq<Str>)
    requires AllUrlPlain(parts)
    ensures AllFree(parts, SLASH)
  {
    forall i | 0 <= i < |parts| ensures Free(parts[i], SLASH) { assert UrlPlain(parts[i]); }
  }

  /** A path made of plain elements arrives, and splits into those elements. */
  lemma ElementsArrive(parts: seq<Str>)
    requires |parts| >= 1 && AllUrlPlain(parts)
    ensures Arrive(Join(parts, SLASH)) == Some(Join(parts, SLASH))
    ensures Split(Join(parts, SLASH), SLASH) == parts
  {
    hide Arrive, Split, Join;
    JoinPlain(parts);
    PlainArrives(Join(parts, SLASH));
    PlainFree(parts);
    SplitJoin(parts, SLASH);
  }

  // ---------------------------------------------------------------- what else can arrive

  lemma SplitCons(b: Byte, s: Str, c: Byte)
    ensures Split([b] + s, c) == if b == c then [[]] + Split(s, c)
                                 else [[b] + Split(s, c)[0]] + Split(s, c)[1..]
  {
    var t := [b] + s;
    assert t[1..] == s;
    var i := Find(s, c);
    if b == c {
      assert t[..0] == [];
    } else {
      assert Find(t, c) == i + 1;
      assert t[..i + 1] == [b] + s[..i];
      if i < |s| { assert t[i + 2..] == s[i + 1..]; }
    }
  }

  /** x came out of the element y: y unchanged, or something shorter than y. */
  ghost predicate From(x: Str, y: Str) { |x| < |y| || (x == y && Free(x, PERCENT)) }

  /** The first element came out of the first, and every other one out of some element. */
  ghost predicate AllFrom(u: seq<Str>, v: seq<Str>)
    requires |u| >= 1 && |v| >= 1
  {
    From(u[0], v[0]) && forall i :: 0 <= i < |u| ==> exists j :: 0 <= j < |v| && From(u[i], v[j])
  }

  /** A longer first element on the right changes nothing. */
  lemma FromLonger(u: seq<Str>, v: seq<Str>, c: Byte)
    requires |u| >= 1 && |v| >= 1 && AllFrom(u, v)
    ensures AllFrom(u, [[c] + v[0]] + v[1..])
  {
    var w := [[c] + v[0]] + v[1..];
    forall i | 0 <= i < |u| ensures exists j :: 0 <= j < |w| && From(u[i], w[j]) {
      var j :| 0 <= j < |v| && From(u[i], v[j]);
      assert From(u[i], w[j]);
    }
  }

  /** The first elements may be replaced by any two that fit each other, the right one longer. */
  lemma FromFirst(u: seq<Str>, v: seq<Str>, x: Str, y: Str)
    requires |u| >= 1 && |v| >= 1 && AllFrom(u, v) && From(x, y) && |y| > |v[0]|
    ensures AllFrom([x] + u[1..], [y] + v[1..])
  {
    var t, w := [x] + u[1..], [y] + v[1..];
    forall i | 0 <= i < |t| ensures exists j :: 0 <= j < |w| && From(t[i], w[j]) {
      if i == 0 {
        assert From(t[0], w[0]);
      } else {
        assert t[i] == u[i];
        var j :| 0 <= j < |v| && From(u[i], v[j]);
        assert From(u[i], w[j]);
      }
    }
  }

  lemma FromSplit(u: seq<Str>, v: seq<Str>)
    requires |u| >= 1 && |v| >= 1 && AllFrom(u, v)
    ensures AllFrom([[]] + u, [[]] + v)
    ensures forall c: Byte :: AllFrom([[]] + u, [[c] + v[0]] + v[1..])
  {
    var t := [[]] + u;
    forall c: Byte ensures AllFrom(t, [[c] + v[0]] + v[1..]) {
      var w := [[c] + v[0]] + v[1..];
      forall i | 0 <= i < |t| ensures exists j :: 0 <= j < |w| && From(t[i], w[j]) {
        if i == 0 {
          assert From(t[0], w[0]);
        } else {
          assert t[i] == u[i - 1];
          var j :| 0 <= j < |v| && From(u[i - 1], v[j]);
          assert From(u[i - 1], w[j]);
        }
      }
    }
    var w := [[]] + v;
    forall i | 0 <= i < |t| ensures exists j :: 0 <= j < |w| && From(t[i], w[j]) {
      if i == 0 {
        assert From(t[0], w[0]);
      } else {
        assert t[i] == u[i - 1];
        var j :| 0 <= j < |v| && From(u[i - 1], v[j]);
        assert w[j + 1] == v[j];
      }
    }
  }

  /** Decoding a path never lengthens an element, and never yields one as long as it was written
      except by leaving it as it is. */
  lemma {:induction false} UnescapeFrom(s: Str)
    requires Unescape(s).Some?
    ensures AllFrom(Split(Unescape(s).value, SLASH), Split(s, SLASH))
    decreases |s|
  {
    hide Split, AllFrom;
    if s == [] {
      OneFrom();
    } else if s[0] != PERCENT {
      var rest := s[1..];
      var r := Unescape(rest).value;
      UnescapeFrom(rest);
      var u, v := Split(r, SLASH), Split(rest, SLASH);
      assert s == [s[0]] + rest;
      SplitCons(s[0], rest, SLASH);
      SplitCons(s[0], r, SLASH);
      if s[0] == SLASH {
        FromSplit(u, v);
      } else {
        FirstFrom(u, v);
        FromFirst(u, v, [s[0]] + u[0], [s[0]] + v[0]);
      }
    } else {
      EscapeFrom(s);
    }
  }

  lemma OneFrom()
    ensures AllFrom(Split([], SLASH), Split([], SLASH))
  {
    assert From([], []);
  }

  lemma FirstFrom(u: seq<Str>, v: seq<Str>)
    requires |u| >= 1 && |v| >= 1 && AllFrom(u, v)
    ensures From(u[0], v[0])
  {
  }

  /** The case of an escape in front. */
  lemma {:induction false} EscapeFrom(s: Str)
    requires |s| >= 3 && s[0] == PERCENT && IsHex(s[1]) && IsHex(s[2]) && Unescape(s).Some?
    ensures AllFrom(Split(Unescape(s).value, SLASH), Split(s, SLASH))
    decreases |s|, 0
  {
    hide Split, AllFrom, HexByte;
    var rest, b := s[3..], HexByte(s[1], s[2]);
    var r := Unescape(rest).value;
    UnescapeFrom(rest);
    var u, v := Split(r, SLASH), Split(rest, SLASH);
    SplitCons(b, r, SLASH);
    assert s == [s[0]] + ([s[1]] + ([s[2]] + rest));
    SplitCons(s[2], rest, SLASH);
    SplitCons(s[1], [s[2]] + rest, SLASH);
    SplitCons(s[0], [s[1]] + ([s[2]] + rest), SLASH);
    assert s[1] != SLASH && s[2] != SLASH;
    var v3 := [[s[0]] + ([s[1]] + ([s[2]] + v[0]))] + v[1..];
    assert Split(s, SLASH) == v3;
    FirstFrom(u, v);
    if b == SLASH {
      FromSplit(u, v);
      FromLonger([[]] + u, [[s[2]] + v[0]] + v[1..], s[1]);
      assert [[s[1]] + ([s[2]] + v[0])] + ([[s[2]] + v[0]] + v[1..])[1..] == [[s[1]] + ([s[2]] + v[0])] + v[1..];
      FromLonger([[]] + u, [[s[1]] + ([s[2]] + v[0])] + v[1..], s[0]);
      assert ([[s[1]] + ([s[2]] + v[0])] + v[1..])[1..] == v[1..];
    } else {
      FromFirst(u, v, [b] + u[0], [s[0]] + ([s[1]] + ([s[2]] + v[0])));
    }
  }

  lemma SplitAt(s: Str, c: Byte)
    ensures var i := Find(s, c);
            Split(s, c) == if i == |s| then [s] else [s[..i]] + Split(s[i + 1..], c)
  {
    hide Find;
  }

  /** The elements of a prefix are elements, but for the last, which may be cut. */
  lemma {:induction false} PrefixElements(s: Str, k: nat, i: nat)
    requires k <= |s| && i < |Split(s[..k], SLASH)|
    ensures i < |Split(s, SLASH)| && Split(s[..k], SLASH)[i] <= Split(s, SLASH)[i]
    decreases |s|
  {
    hide Split, Find;
    var n, t := Find(s, SLASH), s[..k];
    var m := Find(t, SLASH);
    SplitAt(s, SLASH);
    SplitAt(t, SLASH);
    if m < |t| {
      assert n == m;
      assert t[..m] == s[..m];
      assert t[m + 1..] == s[m + 1..][..k - m - 1];
      if i > 0 { PrefixElements(s[m + 1..], k - m - 1, i - 1); }
    } else {
      assert k <= n;
      assert t <= s[..n];
    }
  }

  /** Every element of a joined path is an element of one of the parts. */
  lemma {:induction false} JoinElements(parts: seq<Str>, z: Str) returns (n: nat)
    requires |parts| >= 1 && z in Split(Join(parts, SLASH), SLASH)
    ensures n < |parts| && z in Split(parts[n], SLASH)
  {
    hide Split;
    if |parts| == 1 {
      n := 0;
    } else {
      SplitConcat(parts[0], Join(parts[1..], SLASH), SLASH);
      if z in Split(parts[0], SLASH) {
        n := 0;
      } else {
        n := JoinElements(parts[1..], z);
        n := n + 1;
      }
    }
  }

  /** An element as long as the whole is the whole. */
  lemma {:induction false} WholeElement(s: Str, z: Str)
    requires z in Split(s, SLASH)
    ensures |z| <= |s| && (|z| == |s| ==> z == s)
    decreases |s|
  {
    var n := Find(s, SLASH);
    if n == |s| {
      assert z in [s];
    } else {
      var rest := Split(s[n + 1..], SLASH);
      assert z == s[..n] || z in rest;
      if z in rest { WholeElement(s[n + 1..], z); }
    }
  }

  /** What arrives of a joined path: an element no shorter than any of the parts is one of them,
      and a plain one. Nothing else of that length can come out of decoding, cutting or
      splitting. */
  lemma ArrivedElement(parts: seq<Str>, x: Str)
    requires |parts| >= 1 && Arrive(Join(parts, SLASH)).Some?
    requires x in Split(Arrive(Join(parts, SLASH)).value, SLASH)
    requires forall i :: 0 <= i < |parts| ==> |parts[i]| <= |x|
    ensures x in parts && UrlPlain(x)
  {
    hide Split, Join, Unescape, PathPart, Find, UrlPlain, IsControl;
    var req := Join(parts, SLASH);
    var t := PathPart(req);
    UnescapeFrom(t);
    var u, v := Split(Arrive(req).value, SLASH), Split(t, SLASH);
    var i :| 0 <= i < |u| && u[i] == x;
    var j :| 0 <= j < |v| && From(u[i], v[j]);
    PrefixElements(req, |t|, j);
    var z := Split(req, SLASH)[j];
    var n := JoinElements(parts, z);
    WholeElement(parts[n], z);
    assert x == v[j] == z == parts[n];
    JoinSplit(t, SLASH);
    SplitKeepsFree(t, SLASH, HASH);
    SplitKeepsFree(t, SLASH, QUESTION);
    NoControls(req, t);
    ElementControls(t, x);
    IsPlain(x);
  }

  lemma NoControls(req: Str, t: Str)
    requires !HasControl(req[..Find(req, HASH)]) && t == PathPart(req)
    ensures !HasControl(t)
  {
    hide IsControl, Find;
    var a := req[..Find(req, HASH)];
    assert |t| <= |a| && forall i :: 0 <= i < |t| ==> t[i] == a[i];
  }

  lemma ElementControls(t: Str, x: Str)
    requires !HasControl(t) && x in Split(t, SLASH)
    ensures !HasControl(x)
  {
    hide IsControl, Split;
    var parts := Split(t, SLASH);
    var k :| 0 <= k < |parts| && parts[k] == x;
    forall i | 0 <= i < |x| ensures !IsControl(x[i]) {
      InOrOut(t, x[i], k);
    }
  }

  /** What stands in an element stands in the whole. */
  lemma InOrOut(t: Str, b: Byte, k: nat)
    requires k < |Split(t, SLASH)|
    ensures b in t || b !in Split(t, SLASH)[k]
  {
    hide Split;
    if b !in t {
      SplitKeepsFree(t, SLASH, b);
      NotIn(Split(t, SLASH), k, b);
    }
  }

  lemma NotIn(parts: seq<Str>, k: nat, b: Byte)
    requires k < |parts| && AllFree(parts, b)
    ensures b !in parts[k]
  {
    assert Free(parts[k], b);
  }

  lemma IsPlain(x: Str)
    requires Free(x, SLASH) && Free(x, PERCENT) && Free(x, HASH) && Free(x, QUESTION) && !HasControl(x)
    ensures UrlPlain(x)
  {
  }

  // ---------------------------------------------------------------- sizes

  lemma {:induction false} UnescapeShorter(s: Str)
    requires Unescape(s).Some?
    ensures |Unescape(s).value| <= |s|
  {
    if s != [] {
      UnescapeShorter(if s[0] != PERCENT then s[1..] else s[3..]);
    }
  }

  lemma {:induction false} SplitShort(s: Str, c: Byte)
    ensures |Split(s, c)| <= |s| + 1
    decreases |s|
  {
    var i := Find(s, c);
    if i < |s| { SplitShort(s[i + 1..], c); }
  }

  lemma ArriveShort(req: Str)
    requires Arrive(req).Some?
    ensures |Split(Arrive(req).value, SLASH)| <= |req| + 1
  {
    hide Split, PathPart, Unescape;
    UnescapeShorter(PathPart(req));
    SplitShort(Arrive(req).value, SLASH);
  }

  /** Bytes that can start a new element, as they are or as an escape. */
  function Cuts(s: Str): nat {
    if s == [] then 0 else Cuts(s[1..]) + if s[0] == SLASH || s[0] == PERCENT then 1 else 0
  }

  lemma {:induction false} CutsAppend(a: Str, b: Str)
    ensures Cuts(a + b) == Cuts(a) + Cuts(b)
  {
    if a == [] {
      assert a + b == b;
    } else {
      assert (a + b)[1..] == a[1..] + b;
      CutsAppend(a[1..], b);
    }
  }

  lemma {:induction false} CutsShort(s: Str)
    ensures Cuts(s) <= |s|
    ensures (forall i :: 0 <= i < |s| ==> s[i] != SLASH && s[i] != PERCENT) ==> Cuts(s) == 0
  {
    if s != [] { CutsShort(s[1..]); }
  }

  lemma {:induction false} UnescapeCuts(s: Str)
    requires Unescape(s).Some?
    ensures |Split(Unescape(s).value, SLASH)| <= Cuts(s) + 1
    decreases |s|
  {
    hide Split, HexByte;
    if s == [] {
      SplitShort([], SLASH);
    } else if s[0] != PERCENT {
      UnescapeCuts(s[1..]);
      SplitCons(s[0], Unescape(s[1..]).value, SLASH);
    } else {
      UnescapeCuts(s[3..]);
      SplitCons(HexByte(s[1], s[2]), Unescape(s[3..]).value, SLASH);
      assert s[1..][2..] == s[3..];
      CutsAppend(s[1..][..2], s[3..]);
      assert s[1..] == s[1..][..2] + s[3..];
    }
  }

  /** However it is escaped, a path has few elements. */
  lemma ArriveCuts(req: Str)
    requires Arrive(req).Some?
    ensures |Split(Arrive(req).value, SLASH)| <= Cuts(req) + 1
  {
    hide Split, PathPart, Unescape, Find;
    var t := PathPart(req);
    UnescapeCuts(t);
    assert req == t + req[|t|..];
    CutsAppend(t, req[|t|..]);
  }
}
