/** Base64 as Go's encoding/base64 does it: section 4 of RFC 4648 with padding; the decoder
    ignores line breaks and does not insist that unused trailing bits are zero. */
module Base64 {
  import opened Bytes

  const PAD: Byte := '='

  function Sym(i: int): (c: Byte)
    requires 0 <= i < 64
    ensures IsSym(c) && Val(c) == i
  {
    if i < 26 then ('A' as int + i) as char
    else if i < 52 then ('a' as int + i - 26) as char
    else if i < 62 then ('0' as int + i - 52) as char
    else if i == 62 then '+'
    else '/'
  }

  predicate IsSym(c: Byte) {
    'A' <= c <= 'Z' || 'a' <= c <= 'z' || '0' <= c <= '9' || c == '+' || c == '/'
  }

  function Val(c: Byte): (i: int)
    requires IsSym(c)
    ensures 0 <= i < 64
  {
    if 'A' <= c <= 'Z' then c as int - 'A' as int
    else if 'a' <= c <= 'z' then c as int - 'a' as int + 26
    else if '0' <= c <= '9' then c as int - '0' as int + 52
    else if c == '+' then 62
    else 63
  }

  function ByteOf(i: int): (c: Byte)
    requires 0 <= i < 256
    ensures c as int == i
  {
    i as char
  }

  function Quad(a: int, b: int, c: int): (q: Str)
    requires 0 <= a < 256 && 0 <= b < 256 && 0 <= c < 256
    ensures |q| == 4 && forall i :: 0 <= i < 4 ==> IsSym(q[i])
  {
    [Sym(a / 4), Sym(a % 4 * 16 + b / 16), Sym(b % 16 * 4 + c / 64), Sym(c % 64)]
  }

  /** StdEncoding.EncodeToString. */
  function Encode(s: Str): Str {
    if s == [] then []
    else if |s| == 1 then Quad(s[0] as int, 0, 0)[..2] + [PAD, PAD]
    else if |s| == 2 then Quad(s[0] as int, s[1] as int, 0)[..3] + [PAD]
    else Quad(s[0] as int, s[1] as int, s[2] as int) + Encode(s[3..])
  }

  function Triple(w: int, x: int, y: int, z: int): (t: Str)
    requires 0 <= w < 64 && 0 <= x < 64 && 0 <= y < 64 && 0 <= z < 64
    ensures |t| == 3
  {
    [ByteOf(w * 4 + x / 16), ByteOf(x % 16 * 16 + y / 4), ByteOf(y % 4 * 64 + z)]
  }

  /** The decoder after line breaks have been dropped: groups of four, padding only at the end. */
  function Groups(s: Str): Option<Str> {
    if s == [] then Some([])
    else if |s| < 4 || !IsSym(s[0]) || !IsSym(s[1]) then None
    else if |s| == 4 && s[2] == PAD && s[3] == PAD then
      Some(Triple(Val(s[0]), Val(s[1]), 0, 0)[..1])
    else if !IsSym(s[2]) then None
    else if |s| == 4 && s[3] == PAD then
      Some(Triple(Val(s[0]), Val(s[1]), Val(s[2]), 0)[..2])
    else if !IsSym(s[3]) then None
    else
      var t := Triple(Val(s[0]), Val(s[1]), Val(s[2]), Val(s[3]));
      var rest := Groups(s[4..]);
      if rest.None? then None else Some(t + rest.value)
  }

  /** StdEncoding.DecodeString; None is its error. */
  function Decode(s: Str): Option<Str> {
    Groups(Without(Without(s, CR), NL))
  }

  predicate Plain(c: Byte) { IsSym(c) || c == PAD }

  /** An encoded text is made of the alphabet and padding only. */
  lemma {:induction false} EncodePlain(s: Str)
    ensures forall i :: 0 <= i < |Encode(s)| ==> Plain(Encode(s)[i])
    decreases |s|
  {
    if |s| >= 3 {
      EncodePlain(s[3..]);
    }
  }

  lemma EncodeFree(s: Str, c: Byte)
    requires !Plain(c)
    ensures Free(Encode(s), c)
  {
    EncodePlain(s);
  }

  lemma SixBits(a: int, b: int, c: int)
    requires 0 <= a < 256 && 0 <= b < 256 && 0 <= c < 256
    ensures a / 4 * 4 + (a % 4 * 16 + b / 16) / 16 == a
    ensures (a % 4 * 16 + b / 16) % 16 * 16 + (b % 16 * 4 + c / 64) / 4 == b
    ensures (b % 16 * 4 + c / 64) % 4 * 64 + c % 64 == c
  {
  }

  lemma TripleQuad(a: Byte, b: Byte, c: Byte)
    ensures var q := Quad(a as int, b as int, c as int);
            Triple(Val(q[0]), Val(q[1]), Val(q[2]), Val(q[3])) == [a, b, c]
  {
    hide Sym, Val, IsSym;
    SixBits(a as int, b as int, c as int);
  }

  lemma GroupsOne(a: Byte)
    ensures Groups(Quad(a as int, 0, 0)[..2] + [PAD, PAD]) == Some([a])
  {
    var q := Quad(a as int, 0, 0);
    var e := q[..2] + [PAD, PAD];
    assert e == [q[0], q[1], PAD, PAD];
    TripleQuad(a, ByteOf(0), ByteOf(0));
    assert Val(q[2]) == 0 && Val(q[3]) == 0;
    assert Triple(Val(q[0]), Val(q[1]), 0, 0)[..1] == [a];
  }

  lemma GroupsTwo(a: Byte, b: Byte)
    ensures Groups(Quad(a as int, b as int, 0)[..3] + [PAD]) == Some([a, b])
  {
    var q := Quad(a as int, b as int, 0);
    var e := q[..3] + [PAD];
    assert e == [q[0], q[1], q[2], PAD];
    TripleQuad(a, b, ByteOf(0));
    assert Val(q[3]) == 0;
    assert Triple(Val(q[0]), Val(q[1]), Val(q[2]), 0)[..2] == [a, b];
  }

  lemma GroupsMore(a: Byte, b: Byte, c: Byte, e: Str, s: Str)
    requires Groups(e) == Some(s)
    ensures Groups(Quad(a as int, b as int, c as int) + e) == Some([a, b, c] + s)
  {
    var q := Quad(a as int, b as int, c as int);
    var f := q + e;
    assert f[0] == q[0] && f[1] == q[1] && f[2] == q[2] && f[3] == q[3] && f[4..] == e;
    TripleQuad(a, b, c);
    assert IsSym(q[0]) && IsSym(q[1]) && IsSym(q[2]) && IsSym(q[3]);
  }

  lemma {:induction false} GroupsEncode(s: Str)
    ensures Groups(Encode(s)) == Some(s)
    decreases |s|
  {
    hide Groups, Quad;
    if |s| == 0 {
      GroupsNone();
    } else if |s| == 1 {
      GroupsOne(s[0]);
      assert s == [s[0]];
    } else if |s| == 2 {
      GroupsTwo(s[0], s[1]);
      assert s == [s[0], s[1]];
    } else {
      GroupsEncode(s[3..]);
      GroupsMore(s[0], s[1], s[2], Encode(s[3..]), s[3..]);
      assert s == [s[0], s[1], s[2]] + s[3..];
    }
  }

  lemma GroupsNone()
    ensures Groups([]) == Some([])
  {
  }

  /** Decoding undoes encoding, for every byte string. */
  lemma DecodeEncode(s: Str)
    ensures Decode(Encode(s)) == Some(s)
  {
    EncodeFree(s, CR);
    EncodeFree(s, NL);
    WithoutSame(Encode(s), CR);
    WithoutSame(Encode(s), NL);
    GroupsEncode(s);
  }

  /** Table 1 of RFC 4648. */
  lemma SymTells(i: int)
    requires 0 <= i < 64
    ensures Sym(0) == 'A' && Sym(25) == 'Z' && Sym(26) == 'a' && Sym(51) == 'z'
    ensures Sym(52) == '0' && Sym(61) == '9' && Sym(62) == '+' && Sym(63) == '/'
    ensures i < 61 && i != 25 && i != 51 ==> Sym(i + 1) as int == Sym(i) as int + 1
  {
  }

  /** Three bytes, read as one number of 24 bits, are written as its four digits to the base 64; two
      bytes or one at the end are filled up with zero bits and padded. */
  lemma EncodeTells(s: Str)
    requires s != []
    ensures var e := Encode(s); var n, k := if |s| < 3 then |s| else 3, if |s| < 3 then |s| + 1 else 4;
            var a, b, c := s[0] as int, if n > 1 then s[1] as int else 0, if n > 2 then s[2] as int else 0;
            |e| >= 4 && (forall i :: 0 <= i < k ==> IsSym(e[i])) && (forall i :: k <= i < 4 ==> e[i] == '=')
            && e[4..] == Encode(s[n..])
            && a * 65536 + b * 256 + c
               == Val(e[0]) * 262144 + Val(e[1]) * 4096 + (if n > 1 then Val(e[2]) * 64 else 0) + if n > 2 then Val(e[3]) else 0
  {
    var n := if |s| < 3 then |s| else 3;
    var a, b, c := s[0] as int, if n > 1 then s[1] as int else 0, if n > 2 then s[2] as int else 0;
    DigitsOf(a, b, c);
    assert s[n..] == [] <==> |s| == n;
  }

  lemma DigitsOf(a: int, b: int, c: int)
    requires 0 <= a < 256 && 0 <= b < 256 && 0 <= c < 256
    ensures var q := Quad(a, b, c);
            Val(q[0]) * 262144 + Val(q[1]) * 4096 + Val(q[2]) * 64 + Val(q[3]) == a * 65536 + b * 256 + c
    ensures b == 0 && c == 0 ==> Val(Quad(a, b, c)[2]) == 0
    ensures c == 0 ==> Val(Quad(a, b, c)[3]) == 0
  {
    hide Sym, Val, IsSym;
    SixBits(a, b, c);
  }
}
