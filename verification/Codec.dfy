/** Messages and their bundle lines: msgid:base64(text). */
module Codec {
  import opened Bytes
  import Base64
  import T = Tags

  datatype Msg = Msg(id: Str, tags: T.Tags, echo: Str, date: int,
                     from: Str, addr: Str, to: Str, subj: Str, text: Str)

  datatype Error = WrongBundle | WrongMsgId | WrongBase64 | WrongFormat | WrongTags
                 | WrongRepto | WrongEcho | WrongDate

  datatype Result<+R> = Ok(value: R) | Err(error: Error)

  const REPTO: Str := "repto"
  const DASH: Byte := '-'
  const PLUS: Byte := '+'
  const UNDERSCORE: Byte := '_'

  predicate IsMsgId(id: Str) { |id| == 20 && DOT !in id }

  predicate IsEcho(e: Str) { 3 <= |e| <= 120 && DOT in e && COLON !in e }

  predicate IsPrivate(e: Str) { e != [] && e[0] == DOT }

  /** m.Tag(n): the empty string when the tag is absent. */
  function Tag(m: Msg, n: Str): Str {
    if n in m.tags.hash then m.tags.hash[n] else []
  }

  // ---------------------------------------------------------------- encoding

  function Header(m: Msg): seq<Str> {
    [T.Print(m.tags), m.echo, Itoa(m.date), m.from, m.addr, m.to, m.subj, []]
  }

  /** Msg.String. */
  function TextOf(m: Msg): Str { Join(Header(m) + [m.text], NL) }

  /** What Encode fills in: a date when there is none, then an id made from the text.
      `sum` stands for the truncated SHA-256 of MsgId, `now` for the clock. */
  function Filled(sum: Str -> Str, m: Msg, now: int): Msg {
    if m.echo == [] then m
    else
      var d := if m.date == 0 then m.(date := now) else m;
      if d.id == [] then d.(id := sum(TextOf(d))) else d
  }

  function Bundle(m: Msg): Str {
    if m.echo == [] then [] else m.id + [COLON] + Base64.Encode(TextOf(m))
  }

  // ---------------------------------------------------------------- decoding

  function ParseText(id: Str, data: Str): Result<Msg> {
    var text := Split(data, NL);
    if |text| <= 8 then Err(WrongFormat)
    else
      var tags := T.Parse(text[0]);
      if tags.None? then Err(WrongTags)
      else
        var repto := T.Get(tags.value, REPTO);
        if repto.Some? && !IsMsgId(repto.value) then Err(WrongRepto)
        else if !IsEcho(text[1]) then Err(WrongEcho)
        else
          var date := ScanInt(text[2]);
          if date.None? then Err(WrongDate)
          else Ok(Msg(id, tags.value, text[1], date.value, text[3], text[4], text[5], text[6],
                      Join(text[8..], NL)))
  }

  function StdSpelling(body: Str): Str { Swap(Swap(body, DASH, PLUS), UNDERSCORE, SLASH) }

  function DecodeBody(sum: Str -> Str, id: Str, body: Str): Result<Msg> {
    var data := Base64.Decode(StdSpelling(body));
    if data.None? then Err(WrongBase64)
    else
      var text := Without(data.value, CR);
      ParseText(if id == [] then sum(text) else id, text)
  }

  function Decode(sum: Str -> Str, line: Str): Result<Msg> {
    if COLON in line then
      var spl := Split(line, COLON);
      if |spl| != 2 then Err(WrongBundle)
      else if !IsMsgId(spl[0]) then Err(WrongMsgId)
      else DecodeBody(sum, spl[0], spl[1])
    else DecodeBody(sum, [], line)
  }

  /** The loop of DecodeBundle that glues the body lines back together. */
  method BodyOf(text: seq<Str>) returns (out: Str)
    requires |text| > 8
    ensures out == Join(text[8..], NL)
  {
    out := [];
    for i := 8 to |text|
      invariant i == 8 ==> out == []
      invariant i > 8 ==> out == Join(text[8..i], NL) + [NL]
    {
      if i > 8 {
        JoinConcat(text[8..i], [text[i]], NL);
        assert text[8..i] + [text[i]] == text[8..i + 1];
      } else {
        assert text[8..9] == [text[8]];
      }
      out := out + (text[i] + [NL]);
    }
    assert text[8..|text|] == text[8..];
    out := TrimSuffix(out, NL);
  }

  /** DecodeBundle: same checks, same order. */
  method DecodeBundle(sum: Str -> Str, line: Str) returns (r: Result<Msg>)
    ensures r == Decode(sum, line)
  {
    var id: Str, body := [], line;
    if COLON in line {
      var spl := Split(line, COLON);
      if |spl| != 2 { return Err(WrongBundle); }
      body, id := spl[1], spl[0];
      if !IsMsgId(id) { return Err(WrongMsgId); }
    }
    var data := Base64.Decode(StdSpelling(body));
    if data.None? { return Err(WrongBase64); }
    var dataStr := Without(data.value, CR);
    if id == [] { id := sum(dataStr); }
    var text := Split(dataStr, NL);
    if |text| <= 8 { return Err(WrongFormat); }
    var tags := T.MakeTags(text[0]);
    if tags.None? { return Err(WrongTags); }
    var repto := T.Get(tags.value, REPTO);
    if repto.Some? && !IsMsgId(repto.value) { return Err(WrongRepto); }
    if !IsEcho(text[1]) { return Err(WrongEcho); }
    var date := ScanInt(text[2]);
    if date.None? { return Err(WrongDate); }
    var out := BodyOf(text);
    return Ok(Msg(id, tags.value, text[1], date.value, text[3], text[4], text[5], text[6], out));
  }

  // ---------------------------------------------------------------- round trip

  ghost predicate Clean(s: Str) { Free(s, NL) && Free(s, CR) }

  /** Exactly the messages that come back from their own bundle line. */
  ghost predicate Survives(m: Msg) {
    && IsMsgId(m.id) && Free(m.id, COLON)
    && T.Canonical(m.tags) && Clean(T.Print(m.tags))
    && (REPTO in m.tags.hash ==> IsMsgId(m.tags.hash[REPTO]))
    && IsEcho(m.echo) && Clean(m.echo)
    && MIN_INT64 <= m.date <= MAX_INT64
    && Clean(m.from) && Clean(m.addr) && Clean(m.to) && Clean(m.subj)
    && Free(m.text, CR)
  }

  /** The text splits into the eight header lines and the lines of the body. */
  lemma TextSplits(m: Msg)
    requires AllFree(Header(m), NL)
    ensures Split(TextOf(m), NL) == Header(m) + Split(m.text, NL)
  {
    var head, body := Header(m), Split(m.text, NL);
    JoinSplit(m.text, NL);
    JoinConcat(head, [m.text], NL);
    JoinConcat(head, body, NL);
    assert AllFree(head + body, NL);
    SplitJoin(head + body, NL);
  }

  lemma HeaderClean(m: Msg)
    requires Survives(m)
    ensures AllFree(Header(m), NL) && AllFree(Header(m), CR)
  {
    ItoaFree(m.date, NL);
    ItoaFree(m.date, CR);
  }

  lemma TextParses(m: Msg)
    requires Survives(m)
    ensures ParseText(m.id, TextOf(m)) == Ok(m)
  {
    HeaderClean(m);
    TextSplits(m);
    JoinSplit(m.text, NL);
    T.TagsRoundTrip(m.tags);
    ScanItoa(m.date);
    TextParsesFrom(m, Split(m.text, NL));
  }

  lemma TextParsesFrom(m: Msg, body: seq<Str>)
    requires Split(TextOf(m), NL) == Header(m) + body && |body| >= 1 && Join(body, NL) == m.text
    requires T.Parse(T.Print(m.tags)) == Some(m.tags) && ScanInt(Itoa(m.date)) == Some(m.date)
    requires IsEcho(m.echo) && (REPTO in m.tags.hash ==> IsMsgId(m.tags.hash[REPTO]))
    ensures ParseText(m.id, TextOf(m)) == Ok(m)
  {
    hide T.Parse, T.Print, ScanInt, Itoa, Split, Join, TextOf, IsEcho, IsMsgId;
    var text := Split(TextOf(m), NL);
    assert text[8..] == body;
    assert text[0] == T.Print(m.tags) && text[1] == m.echo && text[2] == Itoa(m.date);
    assert text[3] == m.from && text[4] == m.addr && text[5] == m.to && text[6] == m.subj;
  }

  lemma SpellingOfEncode(s: Str)
    ensures StdSpelling(Base64.Encode(s)) == Base64.Encode(s)
  {
    Base64.EncodeFree(s, DASH);
    SwapSame(Base64.Encode(s), DASH, PLUS);
    Base64.EncodeFree(s, UNDERSCORE);
    SwapSame(Base64.Encode(s), UNDERSCORE, SLASH);
  }

  lemma BundleSplits(m: Msg)
    requires m.echo != [] && Free(m.id, COLON)
    ensures COLON in Bundle(m) && Split(Bundle(m), COLON) == [m.id, Base64.Encode(TextOf(m))]
  {
    var b := Base64.Encode(TextOf(m));
    Base64.EncodeFree(TextOf(m), COLON);
    assert [m.id, b][1..] == [b];
    SplitJoin([m.id, b], COLON);
    assert Bundle(m)[|m.id|] == COLON;
  }

  /** The message as the decoder gives it back: without the carriage returns in its texts. */
  function Stripped(m: Msg): Msg {
    m.(echo := Without(m.echo, CR), from := Without(m.from, CR), addr := Without(m.addr, CR),
       to := Without(m.to, CR), subj := Without(m.subj, CR), text := Without(m.text, CR))
  }

  lemma StrippedText(m: Msg)
    requires Free(T.Print(m.tags), CR)
    ensures Without(TextOf(m), CR) == TextOf(Stripped(m))
  {
    hide T.Print, Itoa, Join, Without;
    ItoaFree(m.date, CR);
    WithoutSame(T.Print(m.tags), CR);
    WithoutSame(Itoa(m.date), CR);
    WithoutNone(CR);
    var parts, s := Header(m) + [m.text], Stripped(m);
    WithoutJoin(parts, NL, CR);
    assert AllWithout(parts, CR) == Header(s) + [s.text];
  }

  lemma WithoutNone(c: Byte)
    ensures Without([], c) == []
  {
  }

  lemma DecodeOfBundle(sum: Str -> Str, m: Msg)
    requires Survives(Stripped(m))
    ensures Decode(sum, Bundle(m)) == Ok(Stripped(m))
  {
    var s := Stripped(m);
    WithoutNone(CR);
    BundleSplits(m);
    SpellingOfEncode(TextOf(m));
    Base64.DecodeEncode(TextOf(m));
    StrippedText(m);
    TextParses(s);
  }

  /** Whatever the decoder accepts under a colon-free id survives a further round trip. */
  lemma ParsedSurvives(id: Str, data: Str)
    requires IsMsgId(id) && Free(id, COLON) && Free(data, CR)
    requires ParseText(id, data).Ok?
    ensures Survives(ParseText(id, data).value)
  {
    var text := Split(data, NL);
    JoinSplit(data, NL);
    SplitKeepsFree(data, NL, CR);
    assert forall i :: 0 <= i < |text| ==> Clean(text[i]);
    var m := ParseText(id, data).value;
    T.ParseCanonical(text[0]);
    T.ParseKeepsFree(text[0], NL);
    T.ParseKeepsFree(text[0], CR);
    assert AllFree(text[8..], CR);
    JoinKeepsFree(text[8..], NL, CR);
  }

  lemma DecodeSurvives(sum: Str -> Str, line: Str)
    requires Decode(sum, line).Ok? && COLON in line
    ensures Survives(Decode(sum, line).value)
  {
    var spl := Split(line, COLON);
    JoinSplit(line, COLON);
    assert Free(spl[0], COLON);
    var data := Base64.Decode(StdSpelling(spl[1])).value;
    WithoutFree(data, CR);
    ParsedSurvives(spl[0], Without(data, CR));
  }

  lemma NotEmptyLine(sum: Str -> Str, line: Str)
    requires Decode(sum, line).Ok?
    ensures line != []
  {
    assert Split([], NL) == [[]];
  }

  lemma StrippedSame(m: Msg)
    requires Survives(m)
    ensures Stripped(m) == m
  {
    hide T.Canonical, T.Print, IsEcho, IsMsgId;
    WithoutSame(m.echo, CR);
    WithoutSame(m.from, CR);
    WithoutSame(m.addr, CR);
    WithoutSame(m.to, CR);
    WithoutSame(m.subj, CR);
    WithoutSame(m.text, CR);
  }

  /** What every bundle decodes to, both ways: to its message without carriage returns if and only
      if that one meets `Survives`. */
  lemma BundleStripsIff(sum: Str -> Str, m: Msg)
    ensures Decode(sum, Bundle(m)) == Ok(Stripped(m)) <==> Survives(Stripped(m))
  {
    if Survives(Stripped(m)) {
      DecodeOfBundle(sum, m);
    } else if Decode(sum, Bundle(m)) == Ok(Stripped(m)) {
      if m.echo == [] {
        assert Bundle(m) == [];
        assert Split([], NL) == [[]];
      } else {
        assert Bundle(m)[|m.id|] == COLON;
        DecodeSurvives(sum, Bundle(m));
      }
    }
  }

  /** Message round trip, both ways: a message is restored exactly, body lines included,
      if and only if it meets `Survives`. */
  lemma MessageRoundTrip(sum: Str -> Str, m: Msg)
    ensures Decode(sum, Bundle(m)) == Ok(m) <==> Survives(m)
  {
    if Survives(m) {
      StrippedSame(m);
      DecodeOfBundle(sum, m);
    } else if Decode(sum, Bundle(m)) == Ok(m) {
      if m.echo == [] {
        assert Bundle(m) == [];
        assert Split([], NL) == [[]];
      } else {
        assert Bundle(m)[|m.id|] == COLON;
        DecodeSurvives(sum, Bundle(m));
      }
    }
  }

  /** The URL-safe alphabet of section 5 of RFC 4648 is accepted with the same result, whatever the
      body is: one respelled with '-' and '_' for '+' and '/' decodes as the one it was. */
  lemma UrlSafeAlike(sum: Str -> Str, id: Str, body: Str)
    requires Free(id, COLON) && Free(body, COLON) && Free(body, DASH) && Free(body, UNDERSCORE)
    ensures var url := Swap(Swap(body, PLUS, DASH), SLASH, UNDERSCORE);
            Decode(sum, id + [COLON] + url) == Decode(sum, id + [COLON] + body)
  {
    var mid := Swap(body, PLUS, DASH);
    var url := Swap(mid, SLASH, UNDERSCORE);
    SwapKeepsFree(body, PLUS, DASH, UNDERSCORE);
    SwapKeepsFree(body, PLUS, DASH, COLON);
    SwapKeepsFree(mid, SLASH, UNDERSCORE, COLON);
    SwapCommutes(url, DASH, PLUS, UNDERSCORE, SLASH);
    SwapBack(mid, SLASH, UNDERSCORE);
    SwapBack(body, PLUS, DASH);
    SwapSame(body, DASH, PLUS);
    SwapSame(body, UNDERSCORE, SLASH);
    assert StdSpelling(url) == body == StdSpelling(body);
    PairSplits(id, url);
    PairSplits(id, body);
  }

  lemma PairSplits(a: Str, b: Str)
    requires Free(a, COLON) && Free(b, COLON)
    ensures COLON in a + [COLON] + b && Split(a + [COLON] + b, COLON) == [a, b]
  {
    assert [a, b][1..] == [b];
    SplitJoin([a, b], COLON);
    assert (a + [COLON] + b)[|a|] == COLON;
  }

  // ---------------------------------------------------------------- the layout, field by field

  /** A bundle as bytes: the id, a colon, and the Base64 of tags, echo, date, sender, address,
      recipient and subject on a line each, an empty line, and the text. */
  lemma BundleText(m: Msg)
    requires m.echo != []
    ensures Bundle(m) == m.id + [':'] + Base64.Encode(
              T.Print(m.tags) + ['\n'] + (m.echo + ['\n'] + (Itoa(m.date) + ['\n'] + (m.from + ['\n'] + (m.addr + ['\n']
              + (m.to + ['\n'] + (m.subj + ['\n'] + ([] + ['\n'] + m.text))))))))
  {
    hide T.Print, Itoa;
    var p := Header(m) + [m.text];
    assert p[1..][1..] == p[2..] && p[2..][1..] == p[3..] && p[3..][1..] == p[4..] && p[4..][1..] == p[5..];
    assert p[5..][1..] == p[6..] && p[6..][1..] == p[7..] && p[7..][1..] == p[8..];
    assert Join(p[8..], NL) == m.text;
    assert Join(p[7..], NL) == [] + [NL] + Join(p[8..], NL);
    assert Join(p[6..], NL) == m.subj + [NL] + Join(p[7..], NL);
    assert Join(p[5..], NL) == m.to + [NL] + Join(p[6..], NL);
    assert Join(p[4..], NL) == m.addr + [NL] + Join(p[5..], NL);
    assert Join(p[3..], NL) == m.from + [NL] + Join(p[4..], NL);
    assert Join(p[2..], NL) == Itoa(m.date) + [NL] + Join(p[3..], NL);
    assert Join(p[1..], NL) == m.echo + [NL] + Join(p[2..], NL);
  }

  /** The bytes in a line's body, without carriage returns; None when the body is no Base64. */
  function BodyBytes(line: Str): Option<Str> {
    var spl := Split(line, ':');
    var data := Base64.Decode(Swap(Swap(spl[|spl| - 1], '-', '+'), '_', '/'));
    if data.None? then None else Some(Without(data.value, '\r'))
  }

  /** What makes a line one of m, read off its parts and its decoded lines. */
  ghost predicate Spells(sum: Str -> Str, line: Str, m: Msg) {
    var spl := Split(line, ':');
    |spl| <= 2
    && (|spl| == 2 ==> |spl[0]| == 20 && '.' !in spl[0])
    && BodyBytes(line).Some?
    && var text := Split(BodyBytes(line).value, '\n');
       9 <= |text|
       && T.Parse(text[0]) == Some(m.tags)
       && ("repto" in m.tags.hash ==> |m.tags.hash["repto"]| == 20 && '.' !in m.tags.hash["repto"])
       && 3 <= |text[1]| <= 120 && '.' in text[1] && ':' !in text[1]
       && ScanInt(text[2]) == Some(m.date)
       && m.id == (if |spl| == 2 then spl[0] else sum(BodyBytes(line).value))
       && m.echo == text[1] && m.from == text[3] && m.addr == text[4] && m.to == text[5] && m.subj == text[6]
       && m.text == Join(text[8..], '\n')
  }

  /** A line decodes to a message exactly when it spells it, field by field. */
  lemma DecodeIff(sum: Str -> Str, line: Str, m: Msg)
    ensures Decode(sum, line) == Ok(m) <==> Spells(sum, line, m)
  {
    hide T.Parse, ScanInt, Base64.Decode, Split, Join, Without, Swap;
    SinglePart(line, COLON);
    if COLON in line {
      var spl := Split(line, COLON);
      if |spl| == 2 && IsMsgId(spl[0]) { BodyIff(sum, spl[0], spl[1], m); }
    } else {
      BodyIff(sum, [], line, m);
    }
  }

  lemma SinglePart(s: Str, c: Byte)
    ensures |Split(s, c)| == 1 <==> c !in s
    ensures c !in s ==> Split(s, c)[0] == s
  {
    hide Split;
    JoinSplit(s, c);
    assert |Split(s, c)| == 1 ==> Free(Split(s, c)[0], c) && s == Split(s, c)[0];
    if c !in s {
      SplitFree(s, c);
    }
  }

  lemma BodyIff(sum: Str -> Str, id: Str, body: Str, m: Msg)
    ensures var data := Base64.Decode(StdSpelling(body));
            DecodeBody(sum, id, body) == Ok(m) <==>
              data.Some?
              && var d := Without(data.value, CR); var text := Split(d, NL);
                 9 <= |text| && T.Parse(text[0]) == Some(m.tags)
                 && (REPTO in m.tags.hash ==> IsMsgId(m.tags.hash[REPTO]))
                 && IsEcho(text[1]) && ScanInt(text[2]) == Some(m.date)
                 && m.id == (if id == [] then sum(d) else id)
                 && m.echo == text[1] && m.from == text[3] && m.addr == text[4] && m.to == text[5] && m.subj == text[6]
                 && m.text == Join(text[8..], NL)
  {
    hide T.Parse, ScanInt, Base64.Decode, Split, Join, Without, StdSpelling, IsEcho, IsMsgId;
  }

  // ---------------------------------------------------------------- what Encode fills in

  /** For every message with an echo: an id that was given is kept, a date of 0 becomes the time of
      storing and any other stays, and nothing else changes; without an echo nothing changes at all. */
  lemma FilledTells(sum: Str -> Str, m: Msg, now: int)
    ensures var full := Filled(sum, m, now);
            full.(id := m.id, date := m.date) == m
            && full.date == (if m.echo != [] && m.date == 0 then now else m.date)
            && (m.id != [] || m.echo == [] ==> full.id == m.id)
  {
    hide TextOf;
  }

  /** A message without an id gets the one its bundle has when it is sent without one: the body on its
      own decodes to the message as stored. */
  lemma FreshIdDecodes(sum: Str -> Str, m: Msg, now: int)
    requires m.id == [] && m.echo != [] && Survives(Filled(sum, m, now))
    ensures var full := Filled(sum, m, now);
            |Split(Bundle(full), COLON)| == 2
            && Decode(sum, Split(Bundle(full), COLON)[1]) == Ok(full)
  {
    var full := Filled(sum, m, now);
    FilledTells(sum, m, now);
    BundleSplits(full);
    StrippedSame(full);
    BodyAlone(sum, full);
    SameText(full, if m.date == 0 then m.(date := now) else m);
  }

  lemma SameText(a: Msg, b: Msg)
    requires a == b.(id := a.id)
    ensures TextOf(a) == TextOf(b)
  {
  }

  /** The body of any bundle on its own: the message without carriage returns, under the id made of
      its text without them. With carriage returns that is not the id it was stored under, unless
      `sum` takes both texts to the same. */
  lemma BodyAlone(sum: Str -> Str, full: Msg)
    requires Survives(Stripped(full))
    ensures Decode(sum, Base64.Encode(TextOf(full))) == Ok(Stripped(full).(id := sum(TextOf(Stripped(full)))))
  {
    var s, id := Stripped(full), sum(TextOf(Stripped(full)));
    Base64.EncodeFree(TextOf(full), COLON);
    SpellingOfEncode(TextOf(full));
    Base64.DecodeEncode(TextOf(full));
    StrippedText(full);
    TextParses(s);
    ParsedUnder(s.id, id, TextOf(s));
  }

  /** The id plays no part in parsing the text. */
  lemma ParsedUnder(a: Str, b: Str, data: Str)
    ensures ParseText(a, data).Ok? ==> ParseText(b, data) == Ok(ParseText(a, data).value.(id := b))
  {
    hide T.Parse, ScanInt, Split, Join, IsEcho, IsMsgId;
  }

  /** Exactly when the id a message was stored under without one is the id of its body alone. */
  lemma FreshIdIff(sum: Str -> Str, m: Msg, now: int)
    requires m.id == [] && m.echo != [] && Survives(Stripped(Filled(sum, m, now)))
    ensures var full := Filled(sum, m, now);
            Decode(sum, Base64.Encode(TextOf(full))) == Ok(Stripped(full))
            <==> sum(TextOf(full)) == sum(TextOf(Stripped(full)))
  {
    hide Survives, Decode, TextOf, Stripped;
    var full := Filled(sum, m, now);
    FilledTells(sum, m, now);
    BodyAlone(sum, full);
    SameText(full, if m.date == 0 then m.(date := now) else m);
    StrippedId(full);
  }

  lemma StrippedId(m: Msg)
    ensures Stripped(m).id == m.id
  {
  }
}
