/** Message tags: an ordered key/value list printed as key1/value1/key2/value2. */
module Tags {
  import opened Bytes

  const SPACE: Byte := ' '

  /** `list` holds the keys in order, `hash` their values. A nil Go map and an empty one behave alike. */
  datatype Tags = Tags(list: seq<Str>, hash: map<Str, Str>)

  const EMPTY := Tags([], map[])

  function Get(t: Tags, n: Str): (v: Option<Str>) {
    if n in t.hash then Some(t.hash[n]) else None
  }

  // ---------------------------------------------------------------- parsing

  /** The even parts, in order. */
  function Keys(parts: seq<Str>): seq<Str> {
    var n := |parts|;
    if n < 2 then [] else Keys(parts[..n - 2]) + [parts[n - 2]]
  }

  /** Each even part mapped to the part after its last occurrence. */
  function Pairs(parts: seq<Str>): map<Str, Str> {
    var n := |parts|;
    if n < 2 then map[] else Pairs(parts[..n - 2])[parts[n - 2] := parts[n - 1]]
  }

  function Parse(str: Str): Option<Tags> {
    var s := Trim(str, SPACE);
    if s == [] then Some(EMPTY)
    else
      var parts := Split(s, SLASH);
      if |parts| % 2 != 0 then None else Some(Tags(Keys(parts), Pairs(parts)))
  }

  /** MakeTags; None is the "Wrong tags" error. */
  method MakeTags(str: Str) returns (r: Option<Tags>)
    ensures r == Parse(str)
  {
    var s := Trim(str, SPACE);
    if s == [] {
      return Some(EMPTY);
    }
    var tags := Split(s, SLASH);
    if |tags| % 2 != 0 {
      return None;
    }
    var hash: map<Str, Str>, list: seq<Str> := map[], [];
    var i := 0;
    while i < |tags|
      invariant 0 <= i <= |tags| && i % 2 == 0
      invariant hash == Pairs(tags[..i]) && list == Keys(tags[..i])
    {
      assert tags[..i + 2][..i] == tags[..i];
      hash := hash[tags[i] := tags[i + 1]];
      list := list + [tags[i]];
      i := i + 2;
    }
    assert tags[..i] == tags;
    return Some(Tags(list, hash));
  }

  // ---------------------------------------------------------------- printing

  /** Keys and values interleaved; a listed key without a value is passed over. */
  function Flat(list: seq<Str>, hash: map<Str, Str>): seq<Str> {
    if list == [] then []
    else
      var k := list[|list| - 1];
      Flat(list[..|list| - 1], hash) + (if k in hash then [k, hash[k]] else [])
  }

  function Print(t: Tags): Str {
    var f := Flat(t.list, t.hash);
    if f == [] then [] else Join(f, SLASH)
  }

  /** Tags.String: every pair is printed with a slash after it, and the last slash is cut off. */
  method String(t: Tags) returns (text: Str)
    ensures text == Print(t)
  {
    text := [];
    ghost var f: seq<Str> := [];
    for i := 0 to |t.list|
      invariant f == Flat(t.list[..i], t.hash)
      invariant text == if f == [] then [] else Join(f, SLASH) + [SLASH]
    {
      var n := t.list[i];
      assert t.list[..i + 1][..i] == t.list[..i];
      if n in t.hash {
        assert [n, t.hash[n]][1..] == [t.hash[n]];
        assert Join([n, t.hash[n]], SLASH) == n + [SLASH] + t.hash[n];
        if f != [] {
          JoinConcat(f, [n, t.hash[n]], SLASH);
        } else {
          assert f + [n, t.hash[n]] == [n, t.hash[n]];
        }
        text := text + (n + [SLASH] + t.hash[n] + [SLASH]);
        f := f + [n, t.hash[n]];
      }
    }
    assert t.list[..|t.list|] == t.list;
    text := TrimSuffix(text, SLASH);
  }

  // ---------------------------------------------------------------- round trip

  /** Exactly the tags that survive being printed and parsed again. */
  ghost predicate Canonical(t: Tags) {
    && (forall k :: k in t.hash <==> k in t.list)
    && (forall k :: k in t.hash ==> Free(k, SLASH) && Free(t.hash[k], SLASH))
    && (t.list != [] ==>
          && (t.list[0] == [] || t.list[0][0] != SPACE)
          && var v := t.hash[t.list[|t.list| - 1]]; v == [] || v[|v| - 1] != SPACE)
  }

  lemma {:induction false} FlatLength(list: seq<Str>, hash: map<Str, Str>)
    requires forall k :: k in list ==> k in hash
    ensures |Flat(list, hash)| == 2 * |list|
    ensures list != [] ==> Flat(list, hash)[0] == list[0]
    ensures list != [] ==> Flat(list, hash)[2 * |list| - 1] == hash[list[|list| - 1]]
  {
    if list != [] {
      FlatLength(list[..|list| - 1], hash);
      assert list[|list| - 1] in list;
    }
  }

  lemma {:induction false} FlatAt(list: seq<Str>, hash: map<Str, Str>, i: nat)
    requires forall k :: k in list ==> k in hash
    requires i < |list|
    ensures 2 * i + 1 < |Flat(list, hash)| == 2 * |list|
    ensures Flat(list, hash)[2 * i] == list[i] && Flat(list, hash)[2 * i + 1] == hash[list[i]]
  {
    FlatLength(list, hash);
    var n := |list| - 1;
    FlatLength(list[..n], hash);
    assert list[n] in list;
    if i < n {
      FlatAt(list[..n], hash, i);
    }
  }

  lemma {:induction false} KeysFlat(list: seq<Str>, hash: map<Str, Str>)
    requires forall k :: k in list ==> k in hash
    ensures Keys(Flat(list, hash)) == list
    ensures Pairs(Flat(list, hash)) == map k | k in list :: hash[k]
  {
    if list != [] {
      var init, k := list[..|list| - 1], list[|list| - 1];
      KeysFlat(init, hash);
      assert k in list;
      var f := Flat(list, hash);
      assert f[..|f| - 2] == Flat(init, hash);
      assert list == init + [k];
    }
  }

  lemma JoinEnds(parts: seq<Str>, c: Byte)
    requires |parts| >= 2
    ensures var s := Join(parts, c); var l := parts[|parts| - 1];
            |s| >= 1
            && s[0] == (if parts[0] == [] then c else parts[0][0])
            && s[|s| - 1] == (if l == [] then c else l[|l| - 1])
  {
    var n := |parts|;
    assert parts == [parts[0]] + parts[1..];
    JoinConcat([parts[0]], parts[1..], c);
    assert parts == parts[..n - 1] + [parts[n - 1]];
    JoinConcat(parts[..n - 1], [parts[n - 1]], c);
  }

  lemma CanonicalFlat(t: Tags)
    requires Canonical(t) && t.list != []
    ensures var f := Flat(t.list, t.hash); var v := f[|f| - 1];
            |f| == 2 * |t.list| && AllFree(f, SLASH)
            && (f[0] == [] || f[0][0] != SPACE) && (v == [] || v[|v| - 1] != SPACE)
  {
    FlatLength(t.list, t.hash);
    FlatFree(t.list, t.hash, SLASH);
  }

  /** The printed text needs no trimming and splits back into keys and values. */
  lemma PrintSplits(t: Tags)
    requires Canonical(t) && t.list != []
    ensures var f := Flat(t.list, t.hash);
            |f| == 2 * |t.list| && Trim(Print(t), SPACE) == Print(t) != [] && Split(Print(t), SLASH) == f
  {
    hide Canonical, Flat, Split, Join, AllFree;
    var f := Flat(t.list, t.hash);
    CanonicalFlat(t);
    JoinEnds(f, SLASH);
    SplitJoin(f, SLASH);
  }

  lemma CanonicalHash(t: Tags)
    requires Canonical(t)
    ensures (map k | k in t.list :: t.hash[k]) == t.hash
  {
  }

  lemma PrintParse(t: Tags)
    requires Canonical(t)
    ensures Parse(Print(t)) == Some(t)
  {
    hide *;
    CanonicalHash(t);
    if t.list == [] {
      EmptyParses(t);
    } else {
      PrintSplits(t);
      KeysFlat(t.list, t.hash);
      CanonicalKeys(t);
      ParseSplit(Print(t), Flat(t.list, t.hash));
    }
  }

  lemma CanonicalKeys(t: Tags)
    requires Canonical(t)
    ensures forall k :: k in t.list ==> k in t.hash
  {
  }

  lemma EmptyParses(t: Tags)
    requires t.list == [] && Canonical(t)
    ensures Parse(Print(t)) == Some(t)
  {
    assert t.hash == map[];
    assert Print(t) == [];
    assert Parse([]) == Some(EMPTY);
  }

  lemma ParseSplit(s: Str, parts: seq<Str>)
    requires Trim(s, SPACE) == s != [] && Split(s, SLASH) == parts && |parts| % 2 == 0
    ensures Parse(s) == Some(Tags(Keys(parts), Pairs(parts)))
  {
    hide Keys, Pairs, Split, Trim;
  }

  lemma {:induction false} PairsKeys(parts: seq<Str>)
    requires |parts| % 2 == 0 && AllFree(parts, SLASH)
    ensures |Keys(parts)| == |parts| / 2
    ensures forall k :: k in Pairs(parts) <==> k in Keys(parts)
    ensures forall k :: k in Pairs(parts) ==> Free(k, SLASH) && Free(Pairs(parts)[k], SLASH)
    ensures |parts| > 0 ==> Keys(parts)[0] == parts[0]
    ensures |parts| > 0 ==> Keys(parts)[|parts| / 2 - 1] in Pairs(parts)
                            && Pairs(parts)[Keys(parts)[|parts| / 2 - 1]] == parts[|parts| - 1]
  {
    var n := |parts|;
    if n >= 2 {
      PairsKeys(parts[..n - 2]);
      assert Free(parts[n - 2], SLASH) && Free(parts[n - 1], SLASH);
      assert Keys(parts) == Keys(parts[..n - 2]) + [parts[n - 2]];
    }
  }

  lemma ParseCanonical(str: Str)
    requires Parse(str).Some?
    ensures Canonical(Parse(str).value)
  {
    var s := Trim(str, SPACE);
    var _, _ := TrimSlice(str, SPACE);
    if s != [] {
      var parts := Split(s, SLASH);
      JoinSplit(s, SLASH);
      PairsKeys(parts);
      JoinEnds(parts, SLASH);
    }
  }

  /** Printing then parsing restores the tags exactly when they are canonical, and everything
      MakeTags returns is canonical, whatever keys repeat and whatever values are empty. */
  lemma TagsRoundTrip(t: Tags)
    ensures Parse(Print(t)) == Some(t) <==> Canonical(t)
  {
    if Canonical(t) {
      PrintParse(t);
    } else if Parse(Print(t)).Some? {
      ParseCanonical(Print(t));
    }
  }

  lemma ParsePrintParse(str: Str)
    requires Parse(str).Some?
    ensures Parse(Print(Parse(str).value)) == Parse(str)
  {
    ParseCanonical(str);
    TagsRoundTrip(Parse(str).value);
  }

  lemma {:induction false} FlatFree(list: seq<Str>, hash: map<Str, Str>, c: Byte)
    requires forall k :: k in list ==> Free(k, c)
    requires forall k :: k in hash ==> Free(hash[k], c)
    ensures AllFree(Flat(list, hash), c)
  {
    if list != [] {
      FlatFree(list[..|list| - 1], hash, c);
      assert Free(list[|list| - 1], c);
    }
  }

  lemma {:induction false} PairsFree(parts: seq<Str>, c: Byte)
    requires AllFree(parts, c)
    ensures forall k :: k in Keys(parts) ==> Free(k, c)
    ensures forall k :: k in Pairs(parts) ==> Free(Pairs(parts)[k], c)
  {
    var n := |parts|;
    if n >= 2 {
      PairsFree(parts[..n - 2], c);
      assert Free(parts[n - 2], c) && Free(parts[n - 1], c);
    }
  }

  /** A byte absent from the text is absent from the tags printed back. */
  lemma ParseKeepsFree(str: Str, c: Byte)
    requires Free(str, c) && c != SLASH && Parse(str).Some?
    ensures Free(Print(Parse(str).value), c)
  {
    var s := Trim(str, SPACE);
    var i, j := TrimSlice(str, SPACE);
    assert Free(str[i..j], c);
    if s != [] {
      var parts := Split(s, SLASH);
      SplitKeepsFree(s, SLASH, c);
      PairsFree(parts, c);
      var t := Parse(str).value;
      FlatFree(t.list, t.hash, c);
      if Flat(t.list, t.hash) != [] {
        JoinKeepsFree(Flat(t.list, t.hash), SLASH, c);
      }
    }
  }

  // ---------------------------------------------------------------- the text, part by part

  /** What parsing reads: of the parts between slashes, blanks at the ends trimmed first, the even ones
      are the keys in order, and each key has the part after its last appearance; an odd number of
      parts is an error, an empty text no tags. */
  lemma ParseTells(str: Str)
    ensures var s := Trim(str, ' '); var parts := Split(s, '/');
            (Parse(str).Some? <==> s == [] || |parts| % 2 == 0)
            && (s == [] ==> Parse(str) == Some(Tags([], map[])))
            && (s != [] && |parts| % 2 == 0 ==>
                  var t := Parse(str).value;
                  |t.list| == |parts| / 2
                  && (forall i :: 0 <= i < |t.list| ==> t.list[i] == parts[2 * i])
                  && (forall k :: k in t.hash <==> k in t.list)
                  && forall i :: 0 <= i < |t.list| && LastOf(t.list, i) ==> t.hash[t.list[i]] == parts[2 * i + 1])
  {
    hide Split, Trim, Keys, Pairs;
    var s := Trim(str, SPACE);
    if s != [] && |Split(s, SLASH)| % 2 == 0 {
      PartsTell(Split(s, SLASH));
    }
  }

  /** The key at position i does not appear again. */
  ghost predicate LastOf(list: seq<Str>, i: nat)
    requires i < |list|
  {
    forall j :: i < j < |list| ==> list[j] != list[i]
  }

  lemma {:induction false} PartsTell(parts: seq<Str>)
    requires |parts| % 2 == 0
    ensures var list, hash := Keys(parts), Pairs(parts);
            |list| == |parts| / 2
            && (forall i :: 0 <= i < |list| ==> list[i] == parts[2 * i])
            && (forall k :: k in hash <==> k in list)
            && forall i :: 0 <= i < |list| && LastOf(list, i) ==> hash[list[i]] == parts[2 * i + 1]
  {
    var n := |parts|;
    if n >= 2 {
      PartsTell(parts[..n - 2]);
      var before, list := Keys(parts[..n - 2]), Keys(parts);
      assert list == before + [parts[n - 2]];
      forall i | 0 <= i < |list| && LastOf(list, i) ensures Pairs(parts)[list[i]] == parts[2 * i + 1] {
        if i < |before| {
          assert list[|before|] != list[i];
          assert forall j :: i < j < |before| ==> before[j] == list[j] != list[i];
          assert LastOf(before, i);
        }
      }
    }
  }

  /** What printing writes: between slashes, each key followed by its value, in order. */
  lemma PrintTells(t: Tags, i: nat)
    requires Canonical(t) && i < |t.list|
    ensures var parts := Split(Print(t), '/');
            |parts| == 2 * |t.list| && parts[2 * i] == t.list[i] && parts[2 * i + 1] == t.hash[t.list[i]]
  {
    hide Flat, Split, Print;
    PrintSplits(t);
    FlatAt(t.list, t.hash, i);
  }

  // ---------------------------------------------------------------- editing

  function Put(t: Tags, k: Str, v: Str): Tags {
    Tags(if k in t.hash then t.list else t.list + [k], t.hash[k := v])
  }

  function PutAll(t: Tags, parts: seq<Str>): Tags {
    var n := |parts|;
    if n < 2 then t else Put(PutAll(t, parts[..n - 2]), parts[n - 2], parts[n - 1])
  }

  /** Tags.Add as a value; unchanged when the number of parts is odd. */
  function Added(t: Tags, str: Str): Tags {
    var parts := Split(str, SLASH);
    if |parts| % 2 != 0 then t else PutAll(t, parts)
  }

  ghost predicate NoDups<T(!new)>(s: seq<T>) {
    forall i, j :: 0 <= i < j < |s| ==> s[i] != s[j]
  }

  /** An ordered map: the keys once each, and nothing else listed. */
  ghost predicate Ordered(t: Tags) {
    NoDups(t.list) && forall k :: k in t.hash <==> k in t.list
  }

  lemma PutOrdered(t: Tags, k: Str, v: Str)
    requires Ordered(t)
    ensures Ordered(Put(t, k, v)) && t.list <= Put(t, k, v).list
  {
    assert forall x :: x in t.list + [k] <==> x in t.list || x == k;
  }

  lemma {:induction false} PutAllHash(t: Tags, parts: seq<Str>)
    ensures PutAll(t, parts).hash == t.hash + Pairs(parts)
  {
    var n := |parts|;
    if n >= 2 {
      PutAllHash(t, parts[..n - 2]);
    }
  }

  /** Adding never reorders and never duplicates. */
  lemma {:induction false} PutAllOrdered(t: Tags, parts: seq<Str>)
    requires Ordered(t)
    ensures Ordered(PutAll(t, parts))
    ensures t.list <= PutAll(t, parts).list
  {
    var n := |parts|;
    if n >= 2 {
      var mid := PutAll(t, parts[..n - 2]);
      PutAllOrdered(t, parts[..n - 2]);
      PutOrdered(mid, parts[n - 2], parts[n - 1]);
    }
  }

  function Remove(list: seq<Str>, k: Str): seq<Str> {
    if list == [] then [] else if list[0] == k then list[1..] else [list[0]] + Remove(list[1..], k)
  }

  lemma {:induction false} RemoveAt(list: seq<Str>, k: Str, i: nat)
    requires i < |list| && list[i] == k && k !in list[..i]
    ensures Remove(list, k) == list[..i] + list[i + 1..]
  {
    if i > 0 {
      assert list[0] == list[..i][0];
      assert list[1..][..i - 1] == list[..i][1..];
      RemoveAt(list[1..], k, i - 1);
      assert list[..i] == [list[0]] + list[1..][..i - 1];
      assert list[1..][i..] == list[i + 1..];
    }
  }

  lemma {:induction false} RemoveOrdered(t: Tags, k: Str)
    requires Ordered(t)
    ensures Ordered(Tags(Remove(t.list, k), t.hash - {k}))
    decreases |t.list|
  {
    if k in t.list {
      var i :| 0 <= i < |t.list| && t.list[i] == k;
      RemoveAt(t.list, k, i);
      DropKeepsRest(t.list, i);
    } else {
      RemoveAbsent(t.list, k);
    }
  }

  lemma DropKeepsRest(list: seq<Str>, i: nat)
    requires NoDups(list) && i < |list|
    ensures var l := list[..i] + list[i + 1..];
            NoDups(l) && forall x :: x in l <==> x in list && x != list[i]
  {
    var l := list[..i] + list[i + 1..];
    forall x | x in list && x != list[i] ensures x in l {
      var j :| 0 <= j < |list| && list[j] == x;
      assert l[if j < i then j else j - 1] == x;
    }
  }

  lemma {:induction false} RemoveAbsent(list: seq<Str>, k: Str)
    requires k !in list
    ensures Remove(list, k) == list
  {
    if list != [] {
      RemoveAbsent(list[1..], k);
    }
  }

  // ---------------------------------------------------------------- any sequence of edits

  /** One key set, or one key deleted. */
  datatype Step = Set(k: Str, v: Str) | Unset(k: Str)

  function Dropped(t: Tags, k: Str): Tags {
    if k in t.hash then Tags(Remove(t.list, k), t.hash - {k}) else t
  }

  function Applied(t: Tags, step: Step): Tags {
    match step
    case Set(k, v) => Put(t, k, v)
    case Unset(k) => Dropped(t, k)
  }

  function Folded(t: Tags, steps: seq<Step>): Tags {
    if steps == [] then t else Applied(Folded(t, steps[..|steps| - 1]), steps[|steps| - 1])
  }

  /** A call of Add or Del, and the steps it takes. */
  datatype Edit = Add(str: Str) | Del(tag: Str)

  function SetSteps(parts: seq<Str>): seq<Step> {
    var n := |parts|;
    if n < 2 then [] else SetSteps(parts[..n - 2]) + [Set(parts[n - 2], parts[n - 1])]
  }

  function StepsOf(e: Edit): seq<Step> {
    match e
    case Add(str) => var parts := Split(str, SLASH); if |parts| % 2 != 0 then [] else SetSteps(parts)
    case Del(tag) => [Unset(tag)]
  }

  function AllSteps(es: seq<Edit>): seq<Step> {
    if es == [] then [] else AllSteps(es[..|es| - 1]) + StepsOf(es[|es| - 1])
  }

  function Edited(t: Tags, e: Edit): Tags {
    match e
    case Add(str) => Added(t, str)
    case Del(tag) => Dropped(t, tag)
  }

  function AllEdited(t: Tags, es: seq<Edit>): Tags {
    if es == [] then t else Edited(AllEdited(t, es[..|es| - 1]), es[|es| - 1])
  }

  lemma {:induction false} FoldedAppend(t: Tags, a: seq<Step>, b: seq<Step>)
    ensures Folded(t, a + b) == Folded(Folded(t, a), b)
  {
    hide Applied;
    if b == [] {
      assert a + b == a;
    } else {
      assert (a + b)[..|a + b| - 1] == a + b[..|b| - 1];
      FoldedAppend(t, a, b[..|b| - 1]);
    }
  }

  lemma {:induction false} PutAllFolds(t: Tags, parts: seq<Str>)
    ensures PutAll(t, parts) == Folded(t, SetSteps(parts))
  {
    if |parts| >= 2 {
      PutAllFolds(t, parts[..|parts| - 2]);
      var before := SetSteps(parts[..|parts| - 2]);
      assert SetSteps(parts)[..|before|] == before;
    }
  }

  lemma {:induction false} EditsFold(t: Tags, es: seq<Edit>)
    ensures AllEdited(t, es) == Folded(t, AllSteps(es))
  {
    hide Put, Dropped, Split;
    if es != [] {
      var n := |es| - 1;
      EditsFold(t, es[..n]);
      FoldedAppend(t, AllSteps(es[..n]), StepsOf(es[n]));
      match es[n]
      case Add(str) => PutAllFolds(AllEdited(t, es[..n]), Split(str, SLASH));
      case Del(tag) => assert [Unset(tag)][..0] == [];
    }
  }

  /** The last step about k sets it. */
  predicate Alive(steps: seq<Step>, k: Str) {
    steps != [] &&
    var last := steps[|steps| - 1];
    if last.k == k then last.Set? else Alive(steps[..|steps| - 1], k)
  }

  function LastValue(steps: seq<Step>, k: Str): Str
    requires Alive(steps, k)
  {
    var last := steps[|steps| - 1];
    if last.k == k then last.v else LastValue(steps[..|steps| - 1], k)
  }

  /** The first insertion of k after its last deletion. */
  function Birth(steps: seq<Step>, k: Str): (b: nat)
    requires Alive(steps, k)
    ensures b < |steps| && steps[b].Set? && steps[b].k == k && !Alive(steps[..b], k)
    ensures forall i :: b <= i < |steps| && steps[i].k == k ==> steps[i].Set?
  {
    var n := |steps| - 1;
    if Alive(steps[..n], k) then
      var b := Birth(steps[..n], k);
      assert steps[..n][..b] == steps[..b];
      b
    else n
  }

  /** What the tags are after these steps: exactly the keys alive, with their last values, in the
      order they were born in. */
  ghost predicate Tell(t: Tags, steps: seq<Step>) {
    Ordered(t)
    && (forall k :: k in t.hash <==> Alive(steps, k))
    && (forall k :: k in t.hash ==> t.hash[k] == LastValue(steps, k))
    && forall i, j :: 0 <= i < j < |t.list| ==> BornBefore(steps, t.list[i], t.list[j])
  }

  ghost predicate BornBefore(steps: seq<Step>, k: Str, l: Str) {
    Alive(steps, k) && Alive(steps, l) && Birth(steps, k) < Birth(steps, l)
  }

  lemma TellNothing()
    ensures Tell(EMPTY, [])
  {
  }

  lemma OrderedHas(t: Tags, i: nat)
    requires Ordered(t) && i < |t.list|
    ensures t.list[i] in t.hash
  {
  }

  lemma AliveNext(steps: seq<Step>, s: Step, k: Str)
    ensures Alive(steps + [s], k) <==> if s.k == k then s.Set? else Alive(steps, k)
    ensures Alive(steps + [s], k) ==>
              LastValue(steps + [s], k) == (if s.k == k then s.v else LastValue(steps, k))
              && Birth(steps + [s], k) == (if Alive(steps, k) then Birth(steps, k) else |steps|)
  {
    assert (steps + [s])[..|steps|] == steps;
  }

  lemma TellSet(t: Tags, steps: seq<Step>, k: Str, v: Str)
    requires Tell(t, steps)
    ensures Tell(Put(t, k, v), steps + [Set(k, v)])
  {
    hide Alive, LastValue, Birth, Ordered;
    var u, s := Put(t, k, v), Set(k, v);
    PutOrdered(t, k, v);
    forall x ensures x in u.hash <==> Alive(steps + [s], x)
             ensures x in u.hash ==> u.hash[x] == LastValue(steps + [s], x) {
      AliveNext(steps, s, x);
    }
    forall i, j | 0 <= i < j < |u.list| ensures BornBefore(steps + [s], u.list[i], u.list[j]) {
      OrderedHas(u, i);
      OrderedHas(u, j);
      AliveNext(steps, s, u.list[i]);
      AliveNext(steps, s, u.list[j]);
      OrderedHas(t, i);
      if j < |t.list| { OrderedHas(t, j); assert BornBefore(steps, t.list[i], t.list[j]); }
    }
  }

  lemma TellUnset(t: Tags, steps: seq<Step>, k: Str)
    requires Tell(t, steps)
    ensures Tell(Dropped(t, k), steps + [Unset(k)])
  {
    hide Alive, LastValue, Birth, Ordered, Dropped;
    var u, s := Dropped(t, k), Unset(k);
    DroppedOrdered(t, k);
    forall x ensures x in u.hash <==> Alive(steps + [s], x)
             ensures x in u.hash ==> u.hash[x] == LastValue(steps + [s], x) {
      AliveNext(steps, s, x);
    }
    forall i, j | 0 <= i < j < |u.list| ensures BornBefore(steps + [s], u.list[i], u.list[j]) {
      OrderedHas(u, i);
      OrderedHas(u, j);
      AliveNext(steps, s, u.list[i]);
      AliveNext(steps, s, u.list[j]);
      var a, b := StillInOrder(t, k, i, j);
      assert BornBefore(steps, t.list[a], t.list[b]);
    }
  }

  lemma DroppedOrdered(t: Tags, k: Str)
    requires Ordered(t)
    ensures Ordered(Dropped(t, k))
    ensures forall x :: x in Dropped(t, k).hash <==> x in t.hash && x != k
    ensures forall x :: x in Dropped(t, k).hash ==> Dropped(t, k).hash[x] == t.hash[x]
  {
    hide Ordered, Remove;
    RemoveOrdered(t, k);
  }

  /** Two keys left after a deletion stood in the same order before. */
  lemma StillInOrder(t: Tags, k: Str, i: nat, j: nat) returns (a: nat, b: nat)
    requires Ordered(t) && i < j < |Dropped(t, k).list|
    ensures a < b < |t.list| && t.list[a] == Dropped(t, k).list[i] && t.list[b] == Dropped(t, k).list[j]
  {
    hide Remove;
    a, b := i, j;
    if k in t.hash {
      var n := DroppedList(t, k);
      a, b := if i < n then i else i + 1, if j < n then j else j + 1;
    }
  }

  lemma DroppedList(t: Tags, k: Str) returns (n: nat)
    requires Ordered(t) && k in t.hash
    ensures n < |t.list| && Dropped(t, k).list == t.list[..n] + t.list[n + 1..]
  {
    assert k in t.list;
    n :| 0 <= n < |t.list| && t.list[n] == k;
    RemoveAt(t.list, k, n);
  }

  /** The steps that make an ordered map. */
  function Making(list: seq<Str>, hash: map<Str, Str>): (r: seq<Step>)
    requires forall i :: 0 <= i < |list| ==> list[i] in hash
    ensures |r| == |list|
  {
    seq(|list|, i requires 0 <= i < |list| => Set(list[i], hash[list[i]]))
  }

  lemma {:induction false} MakingMakes(list: seq<Str>, hash: map<Str, Str>)
    requires NoDups(list) && forall i :: 0 <= i < |list| ==> list[i] in hash
    ensures var t := Folded(EMPTY, Making(list, hash));
            t.list == list && (forall k :: k in t.hash <==> k in list) && forall k :: k in t.hash ==> t.hash[k] == hash[k]
  {
    hide Applied;
    if list != [] {
      var n := |list| - 1;
      MakingMakes(list[..n], hash);
      assert Making(list, hash)[..n] == Making(list[..n], hash);
      assert list == list[..n] + [list[n]];
      assert list[n] !in list[..n];
      SetIsPut(Folded(EMPTY, Making(list[..n], hash)), list[n], hash[list[n]]);
    }
  }

  lemma SetIsPut(t: Tags, k: Str, v: Str)
    requires k !in t.hash
    ensures Applied(t, Set(k, v)) == Tags(t.list + [k], t.hash[k := v])
  {
  }

  ghost function MakingOf(t: Tags): seq<Step>
    requires Ordered(t)
  {
    assert forall i :: 0 <= i < |t.list| ==> t.list[i] in t.list;
    Making(t.list, t.hash)
  }

  lemma MadeOf(t: Tags)
    requires Ordered(t)
    ensures Folded(EMPTY, MakingOf(t)) == t
  {
    assert forall i :: 0 <= i < |t.list| ==> t.list[i] in t.list;
    MakingMakes(t.list, t.hash);
    assert Folded(EMPTY, MakingOf(t)).hash == t.hash;
  }

  /** After any sequence of Add and Del calls on any ordered map: exactly the keys there at the start
      or set, and not deleted since, each once, with the value set last, those there from the start
      in their order and the others in the order of their first insertion since they were last
      deleted. */
  lemma EditsTell(t: Tags, es: seq<Edit>)
    requires Ordered(t)
    ensures Tell(AllEdited(t, es), MakingOf(t) + AllSteps(es))
  {
    hide Tell, Folded, Ordered, AllEdited, AllSteps, MakingOf;
    EditsFold(t, es);
    MadeOf(t);
    FoldedAppend(EMPTY, MakingOf(t), AllSteps(es));
    StepsTell(MakingOf(t) + AllSteps(es));
  }

  lemma {:induction false} StepsTell(steps: seq<Step>)
    ensures Tell(Folded(EMPTY, steps), steps)
  {
    hide Tell, Put, Dropped;
    if steps == [] {
      TellNothing();
    } else {
      var n := |steps| - 1;
      StepsTell(steps[..n]);
      assert steps == steps[..n] + [steps[n]];
      match steps[n]
      case Set(k, v) => TellSet(Folded(EMPTY, steps[..n]), steps[..n], k, v);
      case Unset(k) => TellUnset(Folded(EMPTY, steps[..n]), steps[..n], k);
    }
  }

  /** The mutable form: Add and Del change the map and the list in place. */
  class TagSet {
    var list: seq<Str>
    var hash: map<Str, Str>

    ghost function View(): Tags reads this { Tags(list, hash) }

    constructor (t: Tags)
      ensures View() == t
    {
      list, hash := t.list, t.hash;
    }

    method Add(str: Str) returns (ok: bool)
      modifies this
      ensures ok <==> |Split(str, SLASH)| % 2 == 0
      ensures View() == Added(old(View()), str)
      ensures Ordered(old(View())) ==> Ordered(View()) && old(list) <= list
      ensures Ordered(old(View())) && ok ==> hash == old(hash) + Pairs(Split(str, SLASH))
    {
      var tags := Split(str, SLASH);
      if |tags| % 2 != 0 {
        return false;
      }
      var i := 0;
      while i < |tags|
        invariant 0 <= i <= |tags| && i % 2 == 0
        invariant View() == PutAll(old(View()), tags[..i])
      {
        assert tags[..i + 2][..i] == tags[..i];
        var had := tags[i] in hash;
        hash := hash[tags[i] := tags[i + 1]];
        if !had {
          list := list + [tags[i]];
        }
        i := i + 2;
      }
      assert tags[..i] == tags;
      if Ordered(old(View())) {
        PutAllOrdered(old(View()), tags);
        PutAllHash(old(View()), tags);
      }
      return true;
    }

    method Del(tag: Str) returns (ok: bool)
      modifies this
      ensures hash == old(hash) - {tag}
      ensures list == if tag in old(hash) then Remove(old(list), tag) else old(list)
      ensures ok <==> tag in old(hash) && tag in old(list)
      ensures View() == Dropped(old(View()), tag)
      ensures Ordered(old(View())) ==> Ordered(View()) && (ok <==> tag in old(hash))
    {
      if tag !in hash {
        assert hash - {tag} == hash;
        return false;
      }
      ghost var was := View();
      hash := hash - {tag};
      for k := 0 to |list|
        invariant unchanged(`list) && tag !in list[..k]
        invariant hash == was.hash - {tag}
      {
        if list[k] == tag {
          RemoveAt(list, tag, k);
          list := list[..k] + list[k + 1..];
          if Ordered(was) {
            RemoveOrdered(was, tag);
          }
          return true;
        }
      }
      RemoveAbsent(list, tag);
      return false;
    }
  }
}
