/** Go strings as byte sequences: splitting, joining, file lines and decimal numbers.
    A Go string is a sequence of bytes, so a character here stands for one byte. */
module Bytes {

  type Byte = c: char | c as int < 256 witness 'a'
  type Str = seq<Byte>

  datatype Option<+T> = None | Some(value: T)

  const NL: Byte := '\n'
  const CR: Byte := '\r'
  const COLON: Byte := ':'
  const SLASH: Byte := '/'
  const DOT: Byte := '.'

  // ---------------------------------------------------------------- splitting

  /** Position of the first `c`, or the length of `s`. */
  function Find(s: Str, c: Byte): (i: nat)
    ensures i <= |s|
    ensures i < |s| ==> s[i] == c
    ensures forall j :: 0 <= j < i ==> s[j] != c
  {
    if s == [] || s[0] == c then 0 else 1 + Find(s[1..], c)
  }

  /** strings.Split with a one-byte separator: always at least one part. */
  function Split(s: Str, c: Byte): (parts: seq<Str>)
    ensures |parts| >= 1
    decreases |s|
  {
    var i := Find(s, c);
    if i == |s| then [s] else [s[..i]] + Split(s[i + 1..], c)
  }

  /** strings.Join with a one-byte separator. */
  function Join(parts: seq<Str>, c: Byte): Str
    requires |parts| >= 1
  {
    if |parts| == 1 then parts[0] else parts[0] + [c] + Join(parts[1..], c)
  }

  ghost predicate Free(s: Str, c: Byte) { c !in s }

  ghost predicate AllFree(parts: seq<Str>, c: Byte) {
    forall i :: 0 <= i < |parts| ==> Free(parts[i], c)
  }

  lemma FindAfter(a: Str, c: Byte, b: Str)
    requires Free(a, c)
    ensures Find(a + [c] + b, c) == |a|
  {
    var s := a + [c] + b;
    assert s[|a|] == c;
    assert s[..|a|] == a;
  }

  lemma {:induction false} SplitJoin(parts: seq<Str>, c: Byte)
    requires |parts| >= 1 && AllFree(parts, c)
    ensures Split(Join(parts, c), c) == parts
  {
    if |parts| == 1 {
      assert Free(parts[0], c);
      assert parts == [parts[0]];
    } else {
      var rest := Join(parts[1..], c);
      assert Free(parts[0], c);
      FindAfter(parts[0], c, rest);
      var s := parts[0] + [c] + rest;
      assert s[..|parts[0]|] == parts[0];
      assert s[|parts[0]| + 1..] == rest;
      SplitJoin(parts[1..], c);
      assert parts == [parts[0]] + parts[1..];
    }
  }

  /** Splitting loses nothing, and no part keeps a separator or a byte that was not there. */
  lemma {:induction false} JoinSplit(s: Str, c: Byte)
    ensures Join(Split(s, c), c) == s
    ensures AllFree(Split(s, c), c)
    decreases |s|
  {
    var i := Find(s, c);
    if i < |s| {
      JoinSplit(s[i + 1..], c);
      var rest := Split(s[i + 1..], c);
      assert Split(s, c)[1..] == rest;
      assert s == s[..i] + [c] + s[i + 1..];
    }
  }

  lemma {:induction false} SplitKeepsFree(s: Str, c: Byte, d: Byte)
    requires Free(s, d)
    ensures AllFree(Split(s, c), d)
    decreases |s|
  {
    var i := Find(s, c);
    if i < |s| {
      SplitKeepsFree(s[i + 1..], c, d);
    }
  }

  lemma {:induction false} JoinKeepsFree(parts: seq<Str>, c: Byte, d: Byte)
    requires |parts| >= 1 && AllFree(parts, d) && c != d
    ensures Free(Join(parts, c), d)
  {
    assert Free(parts[0], d);
    if |parts| > 1 {
      JoinKeepsFree(parts[1..], c, d);
    }
  }

  lemma {:induction false} JoinFreeParts(parts: seq<Str>, c: Byte, d: Byte)
    requires |parts| >= 1 && Free(Join(parts, c), d)
    ensures AllFree(parts, d)
  {
    if |parts| > 1 {
      var s := Join(parts, c);
      assert s[..|parts[0]|] == parts[0];
      assert s[|parts[0]| + 1..] == Join(parts[1..], c);
      JoinFreeParts(parts[1..], c, d);
      assert parts == [parts[0]] + parts[1..];
    }
  }

  /** A tail that itself contains separators only adds parts at the end. */
  lemma {:induction false} JoinConcat(a: seq<Str>, b: seq<Str>, c: Byte)
    requires |a| >= 1 && |b| >= 1
    ensures Join(a + b, c) == Join(a, c) + [c] + Join(b, c)
  {
    if |a| == 1 {
      assert (a + b)[1..] == b;
    } else {
      assert (a + b)[1..] == a[1..] + b;
      JoinConcat(a[1..], b, c);
    }
  }

  lemma SplitFree(s: Str, c: Byte)
    requires Free(s, c)
    ensures Split(s, c) == [s]
  {
    assert Find(s, c) == |s|;
  }

  lemma SplitConcat(a: Str, b: Str, c: Byte)
    ensures Split(a + [c] + b, c) == Split(a, c) + Split(b, c)
  {
    hide Split, Join;
    JoinSplit(a, c);
    JoinSplit(b, c);
    JoinConcat(Split(a, c), Split(b, c), c);
    SplitJoin(Split(a, c) + Split(b, c), c);
  }

  // ---------------------------------------------------------------- replacing and trimming

  /** strings.Replace(s, c, "", -1) for one byte. */
  function Without(s: Str, c: Byte): Str {
    if s == [] then []
    else if s[0] == c then Without(s[1..], c)
    else [s[0]] + Without(s[1..], c)
  }

  lemma {:induction false} WithoutSame(s: Str, c: Byte)
    requires Free(s, c)
    ensures Without(s, c) == s
  {
    if s != [] {
      WithoutSame(s[1..], c);
    }
  }

  lemma {:induction false} WithoutAppend(a: Str, b: Str, c: Byte)
    ensures Without(a + b, c) == Without(a, c) + Without(b, c)
  {
    if a == [] {
      assert a + b == b;
    } else {
      assert (a + b)[1..] == a[1..] + b;
      WithoutAppend(a[1..], b, c);
    }
  }

  lemma {:induction false} WithoutKeepsFree(s: Str, c: Byte, d: Byte)
    requires Free(s, d)
    ensures Free(Without(s, c), d)
  {
    if s != [] {
      WithoutKeepsFree(s[1..], c, d);
    }
  }

  function AllWithout(parts: seq<Str>, c: Byte): (r: seq<Str>)
    ensures |r| == |parts| && forall i :: 0 <= i < |parts| ==> r[i] == Without(parts[i], c)
  {
    seq(|parts|, i requires 0 <= i < |parts| => Without(parts[i], c))
  }

  /** Dropping a byte from a joined text drops it from the parts. */
  lemma {:induction false} WithoutJoin(parts: seq<Str>, sep: Byte, c: Byte)
    requires |parts| >= 1 && sep != c
    ensures Without(Join(parts, sep), c) == Join(AllWithout(parts, c), sep)
  {
    if |parts| > 1 {
      var rest := Join(parts[1..], sep);
      WithoutJoin(parts[1..], sep, c);
      assert AllWithout(parts, c)[1..] == AllWithout(parts[1..], c);
      WithoutAppend(parts[0] + [sep], rest, c);
      WithoutAppend(parts[0], [sep], c);
      assert Without([sep], c) == [sep];
    }
  }

  lemma {:induction false} WithoutFree(s: Str, c: Byte)
    ensures Free(Without(s, c), c)
  {
    if s != [] {
      WithoutFree(s[1..], c);
    }
  }

  /** strings.Replace(s, a, b, -1) for single bytes. */
  function Swap(s: Str, a: Byte, b: Byte): Str {
    if s == [] then [] else [if s[0] == a then b else s[0]] + Swap(s[1..], a, b)
  }

  lemma {:induction false} SwapSame(s: Str, a: Byte, b: Byte)
    requires Free(s, a)
    ensures Swap(s, a, b) == s
  {
    if s != [] {
      SwapSame(s[1..], a, b);
    }
  }

  /** Swapping a byte that was not there and back again changes nothing. */
  lemma {:induction false} SwapBack(s: Str, a: Byte, b: Byte)
    requires Free(s, b)
    ensures Swap(Swap(s, a, b), b, a) == s
    ensures a != b ==> Free(Swap(s, a, b), a)
  {
    if s != [] {
      SwapBack(s[1..], a, b);
      var t := Swap(s, a, b);
      assert t[1..] == Swap(s[1..], a, b);
    }
  }

  lemma {:induction false} SwapKeepsFree(s: Str, a: Byte, b: Byte, d: Byte)
    requires Free(s, d) && b != d
    ensures Free(Swap(s, a, b), d)
  {
    if s != [] {
      SwapKeepsFree(s[1..], a, b, d);
    }
  }

  /** Two swaps of four different bytes may be done in either order. */
  lemma {:induction false} SwapCommutes(s: Str, a: Byte, b: Byte, c: Byte, d: Byte)
    requires a != c && a != d && b != c
    ensures Swap(Swap(s, a, b), c, d) == Swap(Swap(s, c, d), a, b)
  {
    if s != [] {
      SwapCommutes(s[1..], a, b, c, d);
      assert Swap(s, a, b)[1..] == Swap(s[1..], a, b);
      assert Swap(s, c, d)[1..] == Swap(s[1..], c, d);
    }
  }

  function TrimLeft(s: Str, c: Byte): Str {
    if s != [] && s[0] == c then TrimLeft(s[1..], c) else s
  }

  function TrimRight(s: Str, c: Byte): Str {
    if s != [] && s[|s| - 1] == c then TrimRight(s[..|s| - 1], c) else s
  }

  /** strings.Trim for one byte. */
  function Trim(s: Str, c: Byte): Str {
    TrimRight(TrimLeft(s, c), c)
  }

  ghost predicate Trimmed(s: Str, c: Byte) { s == [] || (s[0] != c && s[|s| - 1] != c) }

  lemma {:induction false} TrimLeftSuffix(s: Str, c: Byte) returns (k: nat)
    ensures k <= |s| && TrimLeft(s, c) == s[k..]
    ensures k < |s| ==> s[k] != c
  {
    if s != [] && s[0] == c {
      k := TrimLeftSuffix(s[1..], c);
      k := k + 1;
    } else {
      k := 0;
    }
  }

  lemma {:induction false} TrimRightPrefix(s: Str, c: Byte) returns (k: nat)
    ensures k <= |s| && TrimRight(s, c) == s[..k]
    ensures 0 < k ==> s[k - 1] != c
  {
    if s != [] && s[|s| - 1] == c {
      k := TrimRightPrefix(s[..|s| - 1], c);
    } else {
      k := |s|;
    }
  }

  lemma TrimSlice(s: Str, c: Byte) returns (i: nat, j: nat)
    ensures i <= j <= |s| && Trim(s, c) == s[i..j] && Trimmed(s[i..j], c)
  {
    i := TrimLeftSuffix(s, c);
    j := TrimRightPrefix(s[i..], c);
    j := i + j;
  }

  function TrimSuffix(s: Str, c: Byte): Str {
    if s != [] && s[|s| - 1] == c then s[..|s| - 1] else s
  }

  // ---------------------------------------------------------------- file lines

  /** f_lines: the complete lines of a file; an unterminated last line is dropped. */
  function Lines(s: Str): seq<Str>
    decreases |s|
  {
    var i := Find(s, NL);
    if i == |s| then [] else [s[..i]] + Lines(s[i + 1..])
  }

  function Unlines(ls: seq<Str>): Str {
    if ls == [] then [] else ls[0] + [NL] + Unlines(ls[1..])
  }

  /** Empty, or ending in a newline: what a file written by append_file looks like. */
  ghost predicate Terminated(s: Str) { s == [] || s[|s| - 1] == NL }

  lemma LinesCons(l: Str, rest: Str)
    requires Free(l, NL)
    ensures Lines(l + [NL] + rest) == [l] + Lines(rest)
  {
    var s := l + [NL] + rest;
    FindAfter(l, NL, rest);
    assert s[..|l|] == l;
    assert s[|l| + 1..] == rest;
  }

  /** A non-empty terminated file is its first line followed by a terminated file. */
  lemma FirstLine(a: Str) returns (l: Str, rest: Str)
    requires Terminated(a) && a != []
    ensures a == l + [NL] + rest && Free(l, NL) && Terminated(rest) && |rest| < |a|
  {
    var i := Find(a, NL);
    assert a[|a| - 1] in a;
    l, rest := a[..i], a[i + 1..];
  }

  lemma Assoc<T>(a: seq<T>, b: seq<T>, c: seq<T>)
    ensures (a + b) + c == a + (b + c)
  {
  }

  lemma ConsAppend(l: Str, rest: Str, b: Str)
    requires Free(l, NL)
    requires Lines(rest + b) == Lines(rest) + Lines(b)
    ensures Lines((l + [NL] + rest) + b) == Lines(l + [NL] + rest) + Lines(b)
  {
    LinesCons(l, rest);
    LinesCons(l, rest + b);
    Assoc(l + [NL], rest, b);
    Assoc([l], Lines(rest), Lines(b));
  }

  lemma {:induction false} LinesAppend(a: Str, b: Str)
    requires Terminated(a)
    ensures Lines(a + b) == Lines(a) + Lines(b)
    decreases |a|
  {
    if a == [] {
      assert a + b == b;
    } else {
      var l, rest := FirstLine(a);
      LinesAppend(rest, b);
      ConsAppend(l, rest, b);
    }
  }

  lemma LinesOne(l: Str)
    requires Free(l, NL)
    ensures Lines(l + [NL]) == [l]
  {
    assert l + [NL] == l + [NL] + [];
    LinesCons(l, []);
  }

  lemma LinesSnoc(s: Str, l: Str)
    requires Terminated(s) && Free(l, NL)
    ensures Lines(s + (l + [NL])) == Lines(s) + [l]
    ensures Terminated(s + (l + [NL]))
  {
    LinesAppend(s, l + [NL]);
    LinesOne(l);
  }

  lemma {:induction false} LinesFree(s: Str)
    ensures AllFree(Lines(s), NL)
    decreases |s|
  {
    var i := Find(s, NL);
    if i < |s| {
      LinesFree(s[i + 1..]);
    }
  }

  lemma {:induction false} UnlinesAppend(a: seq<Str>, b: seq<Str>)
    ensures Unlines(a + b) == Unlines(a) + Unlines(b)
  {
    if a == [] {
      assert a + b == b;
    } else {
      assert (a + b)[1..] == a[1..] + b;
      UnlinesAppend(a[1..], b);
    }
  }

  lemma {:induction false} UnlinesTerminated(ls: seq<Str>)
    ensures Terminated(Unlines(ls))
  {
    if ls != [] {
      UnlinesTerminated(ls[1..]);
    }
  }

  lemma {:induction false} LinesUnlines(ls: seq<Str>)
    requires AllFree(ls, NL)
    ensures Lines(Unlines(ls)) == ls
  {
    if ls != [] {
      assert Free(ls[0], NL);
      LinesUnlines(ls[1..]);
      LinesAppend(ls[0] + [NL], Unlines(ls[1..]));
      LinesOne(ls[0]);
    }
  }

  lemma {:induction false} UnlinesLines(s: Str)
    requires Terminated(s)
    ensures Unlines(Lines(s)) == s
    decreases |s|
  {
    if s != [] {
      var l, rest := FirstLine(s);
      LinesCons(l, rest);
      UnlinesLines(rest);
    }
  }

  /** Seek to `off` and read one line, as _GetBundle does. */
  function ReadAt(s: Str, off: nat): Str {
    if off > |s| then [] else
      var ls := Lines(s[off..]);
      if ls == [] then [] else ls[0]
  }

  lemma ReadAtLine(before: seq<Str>, l: Str, after: seq<Str>)
    requires Free(l, NL)
    ensures ReadAt(Unlines(before + [l] + after), |Unlines(before)|) == l
  {
    UnlinesAppend(before + [l], after);
    UnlinesAppend(before, [l]);
    assert Unlines([l]) == l + [NL];
    var s := Unlines(before + [l] + after);
    var off := |Unlines(before)|;
    assert s[off..] == (l + [NL]) + Unlines(after);
    LinesAppend(l + [NL], Unlines(after));
    LinesOne(l);
  }

  // ---------------------------------------------------------------- decimal numbers

  const MIN_INT64: int := -0x8000_0000_0000_0000
  const MAX_INT64: int := 0x7fff_ffff_ffff_ffff

  /** Two's complement in 64 bits. */
  function Wrap(x: int): (r: int)
    ensures MIN_INT64 <= r <= MAX_INT64
    ensures MIN_INT64 <= x <= MAX_INT64 ==> r == x
  {
    (x - MIN_INT64) % 0x1_0000_0000_0000_0000 + MIN_INT64
  }

  predicate IsDigit(c: Byte) { '0' <= c <= '9' }

  function Digit(d: int): Byte
    requires 0 <= d < 10
  {
    ('0' as int + d) as char
  }

  function DigitValue(c: Byte): int
    requires IsDigit(c)
  {
    c as int - '0' as int
  }

  function Decimal(n: nat): (s: Str)
    ensures |s| >= 1 && forall i :: 0 <= i < |s| ==> IsDigit(s[i])
  {
    if n < 10 then [Digit(n)] else Decimal(n / 10) + [Digit(n % 10)]
  }

  /** %d of a signed integer. */
  function Itoa(n: int): Str {
    if n < 0 then ['-'] + Decimal(-n) else Decimal(n)
  }

  function Number(s: Str): nat
    requires forall i :: 0 <= i < |s| ==> IsDigit(s[i])
  {
    if s == [] then 0 else Number(s[..|s| - 1]) * 10 + DigitValue(s[|s| - 1])
  }

  /** strconv.Atoi with its error dropped: 0 for what is no number, the nearest int64 for what
      does not fit. */
  function Atoi(s: Str): int {
    var signed := s != [] && (s[0] == '-' || s[0] == '+');
    var ds := if signed then s[1..] else s;
    if ds == [] || DigitRun(ds) != ds then 0
    else
      var n := if s[0] == '-' then -(Number(ds) as int) else Number(ds);
      if n < MIN_INT64 then MIN_INT64 else if n > MAX_INT64 then MAX_INT64 else n
  }

  predicate IsBlank(c: Byte) { c == ' ' || c == '\t' || c == '\r' || c as int == 11 || c as int == 12 }

  function SkipBlanks(s: Str): Str {
    if s != [] && IsBlank(s[0]) then SkipBlanks(s[1..]) else s
  }

  function DigitRun(s: Str): (r: Str)
    ensures forall i :: 0 <= i < |r| ==> IsDigit(r[i])
    ensures r <= s
    ensures (forall i :: 0 <= i < |s| ==> IsDigit(s[i])) ==> r == s
  {
    if s != [] && IsDigit(s[0]) then
      assert s == [s[0]] + s[1..];
      [s[0]] + DigitRun(s[1..])
    else []
  }

  /** One %d of fmt.Sscanf into an int64: leading blanks, an optional sign, the longest run of
      digits; the rest of the text is handed back. */
  function ScanNumber(s: Str): (r: Option<(int, Str)>)
    ensures r.Some? ==> MIN_INT64 <= r.value.0 <= MAX_INT64
  {
    var t := SkipBlanks(s);
    var neg := t != [] && t[0] == '-';
    var signed := t != [] && (t[0] == '-' || t[0] == '+');
    var u := if signed then t[1..] else t;
    var ds := DigitRun(u);
    if ds == [] then None
    else
      var v: int := if neg then -(Number(ds) as int) else Number(ds);
      if MIN_INT64 <= v <= MAX_INT64 then Some((v, u[|ds|..])) else None
  }

  /** fmt.Sscanf(s, "%d", &int64): what follows the number is not looked at. */
  function ScanInt(s: Str): (r: Option<int>)
    ensures r.Some? ==> MIN_INT64 <= r.value <= MAX_INT64
  {
    var r := ScanNumber(s);
    if r.None? then None else Some(r.value.0)
  }

  lemma {:induction false} NumberDecimal(n: nat)
    ensures Number(Decimal(n)) == n
  {
    var s := Decimal(n);
    if n < 10 {
      assert s[..|s| - 1] == [];
    } else {
      NumberDecimal(n / 10);
      assert s[..|s| - 1] == Decimal(n / 10);
    }
  }

  lemma {:induction false} DigitRunStops(ds: Str, rest: Str)
    requires forall i :: 0 <= i < |ds| ==> IsDigit(ds[i])
    requires rest == [] || !IsDigit(rest[0])
    ensures DigitRun(ds + rest) == ds
  {
    if ds != [] {
      assert (ds + rest)[1..] == ds[1..] + rest;
      DigitRunStops(ds[1..], rest);
    } else {
      assert ds + rest == rest;
    }
  }

  /** A printed number scans back to itself and leaves what follows it. */
  lemma ScanItoaThen(n: int, rest: Str)
    requires MIN_INT64 <= n <= MAX_INT64
    requires rest == [] || !IsDigit(rest[0])
    ensures ScanNumber(Itoa(n) + rest) == Some((n, rest))
  {
    hide SkipBlanks, DigitRun, Number, Decimal;
    var ds := Decimal(if n < 0 then -n else n);
    NumberDecimal(if n < 0 then -n else n);
    DigitRunStops(ds, rest);
    assert IsDigit(ds[0]);
    DropAppended(ds, rest);
    if n < 0 {
      NoBlanks(['-'] + ds + rest);
      DropAppended(['-'], ds + rest);
      Assoc(['-'], ds, rest);
    } else {
      NoBlanks(ds + rest);
    }
  }

  lemma DropAppended(a: Str, b: Str)
    ensures (a + b)[|a|..] == b
  {
  }

  lemma NoBlanks(s: Str)
    requires s != [] && !IsBlank(s[0])
    ensures SkipBlanks(s) == s
  {
  }

  lemma ScanItoa(n: int)
    requires MIN_INT64 <= n <= MAX_INT64
    ensures ScanInt(Itoa(n)) == Some(n)
  {
    ScanItoaThen(n, []);
    assert Itoa(n) + [] == Itoa(n);
  }

  /** A printed number holds digits and perhaps a minus sign, so no separator can hide in it. */
  lemma ItoaFree(n: int, c: Byte)
    requires !IsDigit(c) && c != '-'
    ensures Free(Itoa(n), c)
  {
    var ds := Decimal(if n < 0 then -n else n);
    forall i | 0 <= i < |ds| ensures ds[i] != c { assert IsDigit(ds[i]); }
  }

  // ---------------------------------------------------------------- digits

  const DIGITS: Str := "0123456789"

  /** A printed number is its decimal digits, most significant first, after a minus sign if it is
      negative. */
  lemma ItoaTells(n: int)
    ensures 0 <= n < 10 ==> |DIGITS| == 10 && Itoa(n) == [DIGITS[n]]
    ensures n >= 10 ==> Itoa(n) == Itoa(n / 10) + Itoa(n % 10)
    ensures n < 0 ==> Itoa(n) == ['-'] + Itoa(-n)
  {
  }

  /** Atoi of a printed number, signs included, is the number. */
  lemma AtoiItoa(n: int)
    requires MIN_INT64 <= n <= MAX_INT64
    ensures Atoi(Itoa(n)) == n
  {
    hide Number, DigitRun, Decimal;
    var k := if n < 0 then -n else n;
    NumberDecimal(k);
    DigitRunStops(Decimal(k), []);
    assert Decimal(k) + [] == Decimal(k);
    AtoiDigits(Decimal(k));
  }

  lemma AtoiDigits(ds: Str)
    requires ds != [] && DigitRun(ds) == ds && forall i :: 0 <= i < |ds| ==> IsDigit(ds[i])
    ensures Number(ds) <= MAX_INT64 ==> Atoi(ds) == Number(ds)
    ensures -(Number(ds) as int) >= MIN_INT64 ==> Atoi(['-'] + ds) == -(Number(ds) as int)
  {
    hide Number, DigitRun;
    assert IsDigit(ds[0]);
    assert (['-'] + ds)[1..] == ds;
  }
}
