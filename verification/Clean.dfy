/** `ii-tool clean`: two passes over the log that keep the last line of every id. */
module Clean {
  import opened Bytes
  import opened Codec
  import opened Log
  import opened Store
  import T = Tags

  /** The id both passes see in a line; other lines are errors and are dropped. */
  function IdOf(line: Str): Option<Str> {
    var a := Split(line, COLON);
    if |a| == 2 && IsMsgId(a[0]) then Some(a[0]) else None
  }

  function Count(lines: seq<Str>, id: Str): nat {
    if lines == [] then 0
    else Count(lines[..|lines| - 1], id) + if IdOf(lines[|lines| - 1]) == Some(id) then 1 else 0
  }

  /** The ids in order of first appearance. */
  function Firsts(lines: seq<Str>): seq<Str> {
    if lines == [] then []
    else
      var init, id := lines[..|lines| - 1], IdOf(lines[|lines| - 1]);
      Firsts(init) + if id.Some? && Count(init, id.value) == 0 then [id.value] else []
  }

  /** The last line of an id. */
  function LastOf(lines: seq<Str>, id: Str): Str {
    if lines == [] then []
    else if IdOf(lines[|lines| - 1]) == Some(id) then lines[|lines| - 1]
    else LastOf(lines[..|lines| - 1], id)
  }

  function Repeats(lines: seq<Str>): nat {
    if lines == [] then 0
    else
      var init, id := lines[..|lines| - 1], IdOf(lines[|lines| - 1]);
      Repeats(init) + if id.Some? && Count(init, id.value) > 0 then 1 else 0
  }

  /** What pass 2 writes when pass 1 saw `seen`. */
  function Picked(seen: seq<Str>, lines: seq<Str>): seq<Str> {
    if lines == [] then []
    else
      var init, line := lines[..|lines| - 1], lines[|lines| - 1];
      var id := IdOf(line);
      Picked(seen, init) +
      if id.Some? && Count(init, id.value) == 0
      then [if Count(seen, id.value) > 1 then LastOf(seen, id.value) else line] else []
  }

  datatype Outcome = NothingToDo | Changed | Shrunk | Cleaned(out: seq<Str>, removed: nat)

  ghost predicate SameCounts(a: seq<Str>, b: seq<Str>) { forall id :: Count(a, id) == Count(b, id) }

  // ---------------------------------------------------------------- the two passes

  /** Pass 1: how often each id occurs, and its last line once it occurs twice. */
  method Pass1(lines: seq<Str>) returns (hash: map<Str, int>, last: map<Str, Str>, dup: nat)
    ensures forall id :: id in hash <==> Count(lines, id) > 0
    ensures forall id :: id in hash ==> hash[id] == Count(lines, id)
    ensures forall id :: Count(lines, id) > 1 ==> id in last && last[id] == LastOf(lines, id)
    ensures dup == Repeats(lines)
  {
    hide IdOf, Count, LastOf, Repeats;
    hash, last, dup := map[], map[], 0;
    NothingSeen();
    for nr := 0 to |lines|
      invariant forall id :: id in hash <==> Count(lines[..nr], id) > 0
      invariant forall id :: id in hash ==> hash[id] == Count(lines[..nr], id)
      invariant forall id :: Count(lines[..nr], id) > 1 ==>
                  id in last && last[id] == LastOf(lines[..nr], id)
      invariant dup == Repeats(lines[..nr])
    {
      var line := lines[nr];
      OneSeen(lines, nr);
      var id := IdOf(line);
      if id.None? { continue; }
      if id.value in hash {
        hash := hash[id.value := hash[id.value] + 1];
        dup := dup + 1;
        last := last[id.value := line];
      } else {
        hash := hash[id.value := 1];
      }
    }
    assert lines[..|lines|] == lines;
  }

  lemma NothingSeen()
    ensures Repeats([]) == 0 && forall id :: Count([], id) == 0
  {
  }

  lemma OneSeen(lines: seq<Str>, n: nat)
    requires n < |lines|
    ensures forall id :: Count(lines[..n + 1], id)
                         == Count(lines[..n], id) + if IdOf(lines[n]) == Some(id) then 1 else 0
    ensures forall id :: LastOf(lines[..n + 1], id)
                         == if IdOf(lines[n]) == Some(id) then lines[n] else LastOf(lines[..n], id)
    ensures var id := IdOf(lines[n]);
            Repeats(lines[..n + 1])
            == Repeats(lines[..n]) + if id.Some? && Count(lines[..n], id.value) > 0 then 1 else 0
  {
    hide IdOf;
    assert lines[..n + 1][..n] == lines[..n];
  }

  /** The counter pass 2 keeps for an id seen n times in pass 1 and k times so far. */
  function Counter(n: int, k: int): int { if k == 0 then n else k - n }

  /** Pass 2: the first line of an id is replaced by its last, the others are skipped. */
  method Pass2(ghost seen: seq<Str>, lines: seq<Str>, hash0: map<Str, int>, last: map<Str, Str>)
    returns (r: Outcome)
    requires forall id :: id in hash0 <==> Count(seen, id) > 0
    requires forall id :: id in hash0 ==> hash0[id] == Count(seen, id)
    requires forall id :: Count(seen, id) > 1 ==> id in last && last[id] == LastOf(seen, id)
    ensures r.Changed? <==> exists id :: Count(lines, id) > Count(seen, id)
    ensures r.Cleaned? <==> SameCounts(seen, lines)
    ensures r.Cleaned? ==> r.out == Picked(seen, lines) && r.removed == |lines| - |r.out|
    ensures !r.NothingToDo?
  {
    hide IdOf, LastOf, Count, Picked;
    var hash, out, skip := hash0, [], 0;
    NoLines(seen);
    for nr := 0 to |lines|
      invariant hash.Keys == hash0.Keys
      invariant forall id :: id in hash ==> hash[id] == Counter(Count(seen, id), Count(lines[..nr], id))
      invariant forall id :: Count(lines[..nr], id) <= Count(seen, id)
      invariant out == Picked(seen, lines[..nr])
      invariant skip + |out| == nr
    {
      var line := lines[nr];
      OneLine(seen, lines, nr);
      var a := IdOf(line);
      if a.None? {
        skip := skip + 1;
        continue;
      }
      var id := a.value;
      if id !in hash || hash[id] == 0 {
        CountGrows(lines, nr + 1, id);
        return Changed;
      }
      if hash[id] > 0 {
        hash := hash[id := -hash[id]];
        out := out + [if hash[id] < -1 then last[id] else line];
      } else {
        skip := skip + 1;
      }
      hash := hash[id := hash[id] + 1];
    }
    assert lines[..|lines|] == lines;
    if id :| id in hash && hash[id] != 0 {
      assert Count(lines, id) != Count(seen, id);
      return Shrunk;
    }
    assert SameCounts(seen, lines) by {
      forall id ensures Count(seen, id) == Count(lines, id) {
        assert id in hash ==> hash[id] == Counter(Count(seen, id), Count(lines, id));
      }
    }
    return Cleaned(out, skip);
  }

  lemma NoLines(seen: seq<Str>)
    ensures Picked(seen, []) == [] && forall id :: Count([], id) == 0
  {
  }

  lemma OneLine(seen: seq<Str>, lines: seq<Str>, n: nat)
    requires n < |lines|
    ensures forall id :: Count(lines[..n + 1], id)
                         == Count(lines[..n], id) + if IdOf(lines[n]) == Some(id) then 1 else 0
    ensures var id := IdOf(lines[n]);
            Picked(seen, lines[..n + 1]) == Picked(seen, lines[..n]) +
            if id.Some? && Count(lines[..n], id.value) == 0
            then [if Count(seen, id.value) > 1 then LastOf(seen, id.value) else lines[n]] else []
  {
    hide IdOf, LastOf;
    assert lines[..n + 1][..n] == lines[..n];
  }

  lemma {:induction false} CountGrows(lines: seq<Str>, k: nat, id: Str)
    requires k <= |lines|
    ensures Count(lines[..k], id) <= Count(lines, id)
    decreases |lines| - k
  {
    hide IdOf;
    if k < |lines| {
      assert lines[..k + 1][..k] == lines[..k];
      CountGrows(lines, k + 1, id);
    } else {
      assert lines[..k] == lines;
    }
  }

  /** The command: nothing is written when no id repeats; otherwise pass 2 completes exactly when
      it saw every id as often as pass 1 did. */
  method Clean(seen: seq<Str>, lines: seq<Str>) returns (r: Outcome)
    ensures r.NothingToDo? <==> Repeats(seen) == 0
    ensures !r.NothingToDo? ==>
              (r.Changed? <==> exists id :: Count(lines, id) > Count(seen, id))
              && (r.Cleaned? <==> SameCounts(seen, lines))
    ensures r.Cleaned? ==> r.out == Picked(seen, lines) && r.removed == |lines| - |r.out|
    ensures r.Cleaned? && seen == lines ==> r.out == Compacted(lines)
  {
    hide IdOf, LastOf, Count, Picked;
    var hash, last, dup := Pass1(seen);
    if dup == 0 { return NothingToDo; }
    r := Pass2(seen, lines, hash, last);
    PickedIsCompacted(lines);
  }

  // ---------------------------------------------------------------- compaction

  /** The last line of each id, in order of first appearance. */
  function Compacted(lines: seq<Str>): seq<Str> {
    var f := Firsts(lines);
    seq(|f|, i requires 0 <= i < |f| => LastOf(lines, f[i]))
  }

  /** Each id is listed once. */
  lemma {:induction false} FirstsOnce(lines: seq<Str>)
    ensures T.NoDups(Firsts(lines))
    ensures forall id :: id in Firsts(lines) <==> Count(lines, id) > 0
  {
    hide IdOf;
    if lines != [] {
      FirstsOnce(lines[..|lines| - 1]);
    }
  }

  lemma {:induction false} LastOfHas(lines: seq<Str>, id: Str)
    requires Count(lines, id) > 0
    ensures IdOf(LastOf(lines, id)) == Some(id) && LastOf(lines, id) in lines
  {
    hide IdOf;
    if IdOf(lines[|lines| - 1]) != Some(id) {
      LastOfHas(lines[..|lines| - 1], id);
    }
  }

  lemma {:induction false} OnlyOne(lines: seq<Str>, i: nat, id: Str)
    requires i < |lines| && IdOf(lines[i]) == Some(id) && Count(lines, id) == 1
    ensures LastOf(lines, id) == lines[i]
  {
    hide IdOf;
    var n := |lines| - 1;
    if i < n {
      CountAtLeast(lines[..n], i, id);
      OnlyOne(lines[..n], i, id);
    }
  }

  lemma {:induction false} CountAtLeast(lines: seq<Str>, i: nat, id: Str)
    requires i < |lines| && IdOf(lines[i]) == Some(id)
    ensures Count(lines, id) >= 1
  {
    hide IdOf;
    if i < |lines| - 1 {
      CountAtLeast(lines[..|lines| - 1], i, id);
    }
  }

  /** The lines pass 2 picks, when both passes see `all`, one prefix at a time. */
  lemma {:induction false} PickedPrefix(all: seq<Str>, k: nat)
    requires k <= |all|
    ensures var f := Firsts(all[..k]); var p := Picked(all, all[..k]);
            |p| == |f| && forall i :: 0 <= i < |f| ==> p[i] == LastOf(all, f[i])
  {
    hide IdOf, LastOf;
    if k > 0 {
      PickedPrefix(all, k - 1);
      assert all[..k][..k - 1] == all[..k - 1];
      var id := IdOf(all[k - 1]);
      if id.Some? {
        CountAtLeast(all, k - 1, id.value);
        if Count(all, id.value) == 1 {
          OnlyOne(all, k - 1, id.value);
        }
      }
    }
  }

  lemma PickedIsCompacted(lines: seq<Str>)
    ensures Picked(lines, lines) == Compacted(lines)
  {
    PickedPrefix(lines, |lines|);
    assert lines[..|lines|] == lines;
  }

  /** Lines with distinct ids: each is the first, last and only one of its id. */
  lemma {:induction false} DistinctLines(ls: seq<Str>, f: seq<Str>)
    requires |ls| == |f| && T.NoDups(f)
    requires forall i :: 0 <= i < |ls| ==> IdOf(ls[i]) == Some(f[i])
    ensures Firsts(ls) == f
    ensures forall id :: Count(ls, id) == if id in f then 1 else 0
    ensures forall i :: 0 <= i < |ls| ==> LastOf(ls, f[i]) == ls[i]
  {
    hide IdOf;
    if ls != [] {
      var n := |ls| - 1;
      DistinctLines(ls[..n], f[..n]);
      assert f == f[..n] + [f[n]];
      assert f[n] !in f[..n];
    }
  }

  /** One line per id, in order of first appearance, each the last line of its id; a second
      cleaning would find nothing to do. */
  lemma CompactedKeeps(lines: seq<Str>)
    ensures Firsts(Compacted(lines)) == Firsts(lines)
    ensures forall id :: id in Firsts(lines) ==>
              Count(Compacted(lines), id) == 1 && LastOf(Compacted(lines), id) == LastOf(lines, id)
    ensures Compacted(Compacted(lines)) == Compacted(lines)
  {
    hide IdOf, LastOf, Count, Firsts;
    var f, c := Firsts(lines), Compacted(lines);
    FirstsOnce(lines);
    forall i | 0 <= i < |f| ensures IdOf(c[i]) == Some(f[i]) {
      assert f[i] in f;
      LastOfHas(lines, f[i]);
    }
    DistinctLines(c, f);
  }

  // ---------------------------------------------------------------- line by line

  /** A line of two parts between colons, the first of them an id. */
  ghost predicate IsEntry(line: Str) {
    var a := Split(line, ':'); |a| == 2 && |a[0]| == 20 && '.' !in a[0]
  }

  /** Both are entries of one id. */
  ghost predicate SameId(a: Str, b: Str) { IsEntry(a) && IsEntry(b) && Split(a, ':')[0] == Split(b, ':')[0] }

  lemma SameIdIs(a: Str, b: Str)
    ensures IsEntry(a) <==> IdOf(a).Some?
    ensures SameId(a, b) <==> IdOf(a).Some? && IdOf(a) == IdOf(b)
  {
    hide Split;
  }

  /** The line is the one at j, after which none has its id. */
  ghost predicate LastAmong(lines: seq<Str>, j: nat, out: Str) {
    j < |lines| && out == lines[j] && IsEntry(out) && forall i :: j < i < |lines| ==> !SameId(lines[i], out)
  }

  /** An entry of that id stands before line j. */
  ghost predicate Earlier(lines: seq<Str>, j: nat, x: Str)
    requires j <= |lines|
  {
    exists i :: 0 <= i < j && SameId(lines[i], x)
  }

  ghost predicate Ended(lines: seq<Str>, out: Str) { exists j: nat :: LastAmong(lines, j, out) }

  lemma {:induction false} LastOfAt(lines: seq<Str>, id: Str) returns (j: nat)
    requires Count(lines, id) > 0
    ensures j < |lines| && LastOf(lines, id) == lines[j] && IdOf(lines[j]) == Some(id)
    ensures forall i :: j < i < |lines| ==> IdOf(lines[i]) != Some(id)
  {
    hide IdOf;
    var n := |lines| - 1;
    if IdOf(lines[n]) == Some(id) {
      j := n;
    } else {
      j := LastOfAt(lines[..n], id);
      forall i | j < i < |lines| ensures IdOf(lines[i]) != Some(id) { if i < n { assert lines[..n][i] == lines[i]; } }
    }
  }

  /** An id listed before another appears before any line of the other. */
  lemma {:induction false} FirstsOrder(lines: seq<Str>, k: nat, l: nat, j: nat)
    requires k < l < |Firsts(lines)| && j < |lines| && IdOf(lines[j]) == Some(Firsts(lines)[l])
    ensures exists i :: 0 <= i < j && IdOf(lines[i]) == Some(Firsts(lines)[k])
  {
    hide IdOf;
    var n := |lines| - 1;
    var init := lines[..n];
    FirstsOnce(lines);
    FirstsOnce(init);
    if l < |Firsts(init)| {
      if j < n {
        FirstsOrder(init, k, l, j);
        var i :| 0 <= i < j && IdOf(init[i]) == Some(Firsts(init)[k]);
        assert lines[i] == init[i];
      } else {
        HasLine(init, Firsts(init)[k]);
        var i :| 0 <= i < n && IdOf(init[i]) == Some(Firsts(init)[k]);
        assert lines[i] == init[i];
      }
    } else {
      if j < n { CountAtLeast(init, j, Firsts(lines)[l]); }
      assert Firsts(init)[k] in Firsts(init);
      HasLine(init, Firsts(init)[k]);
      var i :| 0 <= i < n && IdOf(init[i]) == Some(Firsts(init)[k]);
      assert lines[i] == init[i];
    }
  }

  lemma HasLine(lines: seq<Str>, id: Str)
    requires id in Firsts(lines)
    ensures exists i :: 0 <= i < |lines| && IdOf(lines[i]) == Some(id)
  {
    hide IdOf;
    FirstsOnce(lines);
    var j := LastOfAt(lines, id);
  }

  /** What cleaning writes, line by line: each line written is the last one of its id; every id that an
      entry had is among them, once; and they stand in the order in which their ids first appeared. */
  lemma CleanedTells(lines: seq<Str>)
    ensures var out := Compacted(lines);
            (forall k :: 0 <= k < |out| ==> Ended(lines, out[k]))
            && (forall j :: 0 <= j < |lines| && IsEntry(lines[j]) ==> exists k :: 0 <= k < |out| && SameId(out[k], lines[j]))
            && (forall k, l :: 0 <= k < l < |out| ==> !SameId(out[k], out[l]))
            && forall k, l, j :: 0 <= k < l < |out| && 0 <= j < |lines| && SameId(lines[j], out[l]) ==>
                 Earlier(lines, j, out[k])
  {
    hide Compacted, IsEntry, SameId, Ended, Earlier;
    var out := Compacted(lines);
    forall k | 0 <= k < |out| ensures Ended(lines, out[k]) { CleanedEnds(lines, k); }
    forall j | 0 <= j < |lines| && IsEntry(lines[j]) ensures exists k :: 0 <= k < |out| && SameId(out[k], lines[j]) {
      var k := CleanedHas(lines, j);
    }
    forall k, l | 0 <= k < l < |out| ensures !SameId(out[k], out[l]) { CleanedOnce(lines, k, l); }
    forall k, l, j | 0 <= k < l < |out| && 0 <= j < |lines| && SameId(lines[j], out[l])
      ensures Earlier(lines, j, out[k])
    {
      CleanedOrder(lines, k, l, j);
    }
  }

  lemma CleanedId(lines: seq<Str>, k: nat)
    requires k < |Compacted(lines)|
    ensures |Firsts(lines)| == |Compacted(lines)| && IdOf(Compacted(lines)[k]) == Some(Firsts(lines)[k])
    ensures Count(lines, Firsts(lines)[k]) > 0
  {
    hide IdOf, Count, Firsts, LastOf;
    FirstsOnce(lines);
    assert Firsts(lines)[k] in Firsts(lines);
    LastOfHas(lines, Firsts(lines)[k]);
  }

  lemma CleanedEnds(lines: seq<Str>, k: nat)
    requires k < |Compacted(lines)|
    ensures Ended(lines, Compacted(lines)[k])
  {
    hide IdOf, Count, Firsts, LastOf, IsEntry, SameId;
    CleanedId(lines, k);
    var x := Compacted(lines)[k];
    var j := LastOfAt(lines, Firsts(lines)[k]);
    SameIdIs(x, x);
    forall i | j < i < |lines| ensures !SameId(lines[i], x) { SameIdIs(lines[i], x); }
    assert LastAmong(lines, j, x);
  }

  lemma CleanedHas(lines: seq<Str>, j: nat) returns (k: nat)
    requires j < |lines| && IsEntry(lines[j])
    ensures k < |Compacted(lines)| && SameId(Compacted(lines)[k], lines[j])
  {
    hide IdOf, Count, Firsts, LastOf, IsEntry, SameId;
    FirstsOnce(lines);
    SameIdIs(lines[j], lines[j]);
    CountAtLeast(lines, j, IdOf(lines[j]).value);
    k :| 0 <= k < |Firsts(lines)| && Firsts(lines)[k] == IdOf(lines[j]).value;
    CleanedId(lines, k);
    SameIdIs(Compacted(lines)[k], lines[j]);
  }

  lemma CleanedOnce(lines: seq<Str>, k: nat, l: nat)
    requires k < l < |Compacted(lines)|
    ensures !SameId(Compacted(lines)[k], Compacted(lines)[l])
  {
    hide IdOf, Count, Firsts, LastOf, SameId;
    FirstsOnce(lines);
    CleanedId(lines, k);
    CleanedId(lines, l);
    SameIdIs(Compacted(lines)[k], Compacted(lines)[l]);
  }

  lemma CleanedOrder(lines: seq<Str>, k: nat, l: nat, j: nat)
    requires k < l < |Compacted(lines)| && j < |lines| && SameId(lines[j], Compacted(lines)[l])
    ensures Earlier(lines, j, Compacted(lines)[k])
  {
    hide IdOf, Count, Firsts, LastOf, SameId;
    CleanedId(lines, k);
    CleanedId(lines, l);
    SameIdIs(lines[j], Compacted(lines)[l]);
    FirstsOrder(lines, k, l, j);
    var i :| 0 <= i < j && IdOf(lines[i]) == Some(Firsts(lines)[k]);
    SameIdIs(lines[i], Compacted(lines)[k]);
    assert SameId(lines[i], Compacted(lines)[k]);
  }

  /** There is nothing to do exactly when no id has two lines. */
  lemma {:induction false} NothingRepeats(lines: seq<Str>)
    ensures Repeats(lines) == 0 <==> forall i, j :: 0 <= i < j < |lines| ==> !SameId(lines[i], lines[j])
  {
    hide IdOf, SameId;
    if lines != [] {
      var n := |lines| - 1;
      var init := lines[..n];
      NothingRepeats(init);
      forall i | 0 <= i < n ensures init[i] == lines[i] && (SameId(lines[i], lines[n]) <==> IdOf(lines[i]).Some? && IdOf(lines[i]) == IdOf(lines[n])) {
        SameIdIs(lines[i], lines[n]);
      }
      var id := IdOf(lines[n]);
      if id.Some? {
        if Count(init, id.value) > 0 {
          var j := LastOfAt(init, id.value);
          assert SameId(lines[j], lines[n]);
        } else {
          forall i | 0 <= i < n ensures !SameId(lines[i], lines[n]) {
            if IdOf(init[i]) == id { CountAtLeast(init, i, id.value); }
          }
        }
      }
      RepeatsInit(lines);
    }
  }

  lemma RepeatsInit(lines: seq<Str>)
    requires lines != []
    ensures var n := |lines| - 1;
            (forall i, j :: 0 <= i < j < |lines| ==> !SameId(lines[i], lines[j]))
            <==> (forall i, j :: 0 <= i < j < n ==> !SameId(lines[..n][i], lines[..n][j]))
                 && forall i :: 0 <= i < n ==> !SameId(lines[i], lines[n])
  {
    hide SameId;
    var n := |lines| - 1;
    assert forall i :: 0 <= i < n ==> lines[..n][i] == lines[i];
  }

  // ---------------------------------------------------------------- the rebuilt index

  /** A decodable line of the form msgid:base64. */
  ghost predicate BundleLine(sum: Str -> Str, line: Str) {
    IdOf(line).Some? && Decode(sum, line).Ok? && Decode(sum, line).value.id == IdOf(line).value
  }

  ghost predicate BundleLines(sum: Str -> Str, lines: seq<Str>) {
    forall i :: 0 <= i < |lines| ==> BundleLine(sum, lines[i])
  }

  lemma CarriesIs(sum: Str -> Str, line: Str, id: Str)
    requires BundleLine(sum, line)
    ensures Carries(sum, line, id) <==> IdOf(line) == Some(id)
  {
    hide Decode, IdOf;
  }

  lemma {:induction false} ViewIsFirsts(sum: Str -> Str, lines: seq<Str>)
    requires BundleLines(sum, lines)
    ensures View(sum, lines).list == Firsts(lines)
    ensures forall id :: id in View(sum, lines).hash <==> Count(lines, id) > 0
  {
    hide Decode, IdOf, SignedOff, Unlines;
    if lines != [] {
      var n := |lines| - 1;
      ViewIsFirsts(sum, lines[..n]);
      assert BundleLine(sum, lines[n]);
    }
  }

  lemma {:induction false} LastAtIsLastOf(sum: Str -> Str, lines: seq<Str>, id: Str)
    requires BundleLines(sum, lines)
    ensures var k := LastAt(sum, lines, id);
            if Count(lines, id) > 0 then k < |lines| && lines[k] == LastOf(lines, id) else k == |lines|
  {
    hide Decode, IdOf, Carries;
    if lines != [] {
      var n := |lines| - 1;
      LastAtIsLastOf(sum, lines[..n], id);
      assert BundleLine(sum, lines[n]);
      CarriesIs(sum, lines[n], id);
    }
  }

  lemma CompactedBundles(sum: Str -> Str, lines: seq<Str>)
    requires BundleLines(sum, lines)
    ensures BundleLines(sum, Compacted(lines))
  {
    hide IdOf, Decode, BundleLine, LastOf, Count, Firsts;
    FirstsOnce(lines);
    var f := Firsts(lines);
    forall i | 0 <= i < |f| ensures BundleLine(sum, Compacted(lines)[i]) {
      assert f[i] in f;
      LastOfHas(lines, f[i]);
    }
  }

  lemma {:induction false} FirstHead(lines: seq<Str>)
    requires lines != [] && IdOf(lines[0]).Some?
    ensures Firsts(lines) != [] && Firsts(lines)[0] == IdOf(lines[0]).value
  {
    hide IdOf;
    var n := |lines| - 1;
    if n == 0 {
      assert lines[..0] == [];
    } else {
      FirstHead(lines[..n]);
    }
  }

  /** After cleaning, the line of an id is the first one exactly when it was the id of the first
      line before. */
  lemma FirstAfterClean(sum: Str -> Str, lines: seq<Str>, id: Str)
    requires BundleLines(sum, lines) && Count(lines, id) > 0
    ensures lines != [] && (LastAt(sum, Compacted(lines), id) == 0 <==> IdOf(lines[0]) == Some(id))
  {
    hide IdOf, Decode, Count, Firsts, LastOf, LastAt, BundleLine;
    NoneCounted(id);
    var c, f := Compacted(lines), Firsts(lines);
    CompactedBundles(sum, lines);
    CompactedKeeps(lines);
    FirstsOnce(lines);
    LastAtIsLastOf(sum, c, id);
    assert BundleLine(sum, lines[0]);
    BundleHasId(sum, lines[0]);
    FirstHead(lines);
    assert f[0] in f;
    var k := LastAt(sum, c, id);
    assert f[k] in f;
    LastOfHas(lines, f[k]);
    LastOfHas(lines, id);
    assert Some(f[k]) == Some(id);
  }

  lemma NoneCounted(id: Str)
    ensures Count([], id) == 0
  {
  }

  lemma BundleHasId(sum: Str -> Str, line: Str)
    requires BundleLine(sum, line)
    ensures IdOf(line).Some?
  {
  }

  /** Rebuilding the index of a cleaned log keeps the list, the numbers and, for every id, the
      line read back. What was shown stays shown, and a blacklisted message stays hidden exactly
      when the first line of the log before cleaning was not one of its own: if it was, its last
      line becomes the first, where the sign of the offset is lost. */
  lemma CleanKeepsIndex(sum: Str -> Str, lines: seq<Str>, id: Str)
    requires BundleLines(sum, lines)
    ensures var u, v, c := View(sum, lines), View(sum, Compacted(lines)), Compacted(lines);
            v.list == u.list
            && (id in v.hash <==> id in u.hash)
            && (id in u.hash ==>
                  var j, k := LastAt(sum, lines, id), LastAt(sum, c, id);
                  j < |lines| && k < |c| && c[k] == lines[j]
                  && v.hash[id].num == u.hash[id].num
                  && (v.hash[id].off < 0 <==> u.hash[id].off < 0 && IdOf(lines[0]) != Some(id)))
  {
    hide IdOf, Decode, Count, Firsts, LastOf, LastAt, View, Compacted, BundleLine, Sound, Tag;
    var c := Compacted(lines);
    CompactedBundles(sum, lines);
    CompactedKeeps(lines);
    FirstsOnce(lines);
    FirstsOnce(c);
    ViewIsFirsts(sum, lines);
    ViewIsFirsts(sum, c);
    if id in View(sum, lines).hash {
      LastAtIsLastOf(sum, lines, id);
      LastAtIsLastOf(sum, c, id);
      SameNumber(sum, lines, c, id);
      HiddenIff(sum, lines, id);
      HiddenIff(sum, c, id);
      FirstAfterClean(sum, lines, id);
      LastOfHas(lines, id);
    }
  }

  lemma SameNumber(sum: Str -> Str, a: seq<Str>, b: seq<Str>, id: Str)
    requires View(sum, a).list == View(sum, b).list && id in View(sum, a).hash
    ensures id in View(sum, b).hash && View(sum, a).hash[id].num == View(sum, b).hash[id].num
  {
    hide View;
    ViewSound(sum, a);
    ViewSound(sum, b);
    var l := View(sum, a).list;
    var i :| 0 <= i < |l| && l[i] == id;
  }
}
