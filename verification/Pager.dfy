/** Page arithmetic of the web front end. */
module Pager {
  import opened Bytes

  const PAGE_SIZE := 50
  const PAGER_RANGE := 10

  function Pages(count: nat): nat { (count + PAGE_SIZE - 1) / PAGE_SIZE }

  /** The page asked for: 0 is the first, -1 the last. */
  function Asked(count: nat, page: int): int {
    if page == 0 then 1 else if page < 0 then Pages(count) + page + 1 else page
  }

  /** The page meant: nothing lies before the first. */
  function Meant(count: nat, page: int): int {
    var p := Asked(count, page);
    if p < 1 then 1 else p
  }

  /** Where a page starts, in 64 bits. */
  function StartOf(p: int): int { Wrap((p - 1) * PAGE_SIZE) }

  /** The page taken: the first when the start comes out negative. */
  function Taken(count: nat, page: int): int {
    var p := Asked(count, page);
    if StartOf(p) < 0 then 1 else p
  }

  predicate Near(i: int, page: int) { -PAGER_RANGE <= i - page <= PAGER_RANGE }

  /** The pager after numbers 1..i have been considered; 0 marks a gap. */
  function Entries(pages: nat, page: int, i: nat): (r: seq<nat>)
    ensures i >= 1 ==> |r| >= 1 && r[0] == 1
  {
    if i == 0 then []
    else
      var r := Entries(pages, page, i - 1);
      if i == 1 || Near(i, page) || i == pages then r + [i]
      else if r[|r| - 1] != 0 then r + [0]
      else r
  }

  function List(pages: nat, page: int): seq<nat> {
    if pages > 1 then Entries(pages, page, pages) else []
  }

  lemma PagesAre(count: nat)
    ensures Pages(count) == count / PAGE_SIZE + if count % PAGE_SIZE != 0 then 1 else 0
  {
  }

  lemma EntriesStep(pages: nat, page: int, i: nat)
    requires i >= 1
    ensures Entries(pages, page, 0) == []
    ensures var r := Entries(pages, page, i - 1);
            (i > 1 ==> |r| >= 1)
            && Entries(pages, page, i) == if i == 1 || Near(i, page) || i == pages then r + [i]
                                          else if r[|r| - 1] != 0 then r + [0] else r
  {
    hide Near;
  }

  lemma FirstStart()
    ensures StartOf(1) == 0
  {
  }

  /** The fields of WebContext that makePager sets. */
  class Context {
    var pages: nat
    var page: int
    var pager: seq<nat>

    constructor ()
      ensures pager == []
    {
      pages, page, pager := 0, 0, [];
    }

    /** makePager. */
    method MakePager(count: nat, page0: int) returns (start: nat)
      requires pager == [] && count <= MAX_INT64 && MIN_INT64 <= page0 <= MAX_INT64
      modifies this
      ensures pages == Pages(count) && page == Taken(count, page0)
      ensures start == StartOf(page)
      ensures pager == List(pages, page)
    {
      hide Wrap, Near, Entries;
      FirstStart();
      pages := count / PAGE_SIZE;
      if count % PAGE_SIZE != 0 {
        pages := pages + 1;
      }
      var p := page0;
      if p == 0 {
        p := p + 1;
      } else if p < 0 {
        p := pages + p + 1;
      }
      var s := Wrap((p - 1) * PAGE_SIZE);
      if s < 0 {
        s, p := 0, 1;
      }
      page := p;
      PagesAre(count);
      hide Pages;
      if pages > 1 {
        var nr := 0;
        EntriesStep(pages, page, 1);
        for i := 1 to pages + 1
          invariant pages == Pages(count) && page == p == Taken(count, page0) && pages > 1
          invariant pager == Entries(pages, page, i - 1) && nr == |pager|
        {
          EntriesStep(pages, page, i);
          if i == 1 || Near(i, p) || i == pages {
            pager := pager + [i];
            nr := nr + 1;
          } else if pager[nr - 1] != 0 {
            pager := pager + [0];
            nr := nr + 1;
          }
        }
      }
      return s;
    }
  }

  /** Exactly when the page taken is the page meant, and starts where it should: when the start of a
      page asked for fits in 64 bits, and that of one before the first does not come out positive. */
  lemma TakenIff(count: nat, page0: int)
    requires count <= MAX_INT64 && MIN_INT64 <= page0 <= MAX_INT64
    ensures Taken(count, page0) == Meant(count, page0) && StartOf(Taken(count, page0)) == (Meant(count, page0) - 1) * PAGE_SIZE
            <==> if Asked(count, page0) >= 1 then (Asked(count, page0) - 1) * PAGE_SIZE <= MAX_INT64
                 else StartOf(Asked(count, page0)) < 0
  {
  }

  /** The fields of the context in plain numbers: fifty messages to a page; page 0 is the first, -1 the last,
      and nothing lies before the first; the start is that of the page, as long as it fits in 64 bits. */
  lemma PagerTells(count: nat, page0: int)
    ensures 50 * Pages(count) >= count > 50 * (Pages(count) - 1)  || count == 0 == Pages(count)
    ensures var page := if page0 == 0 then 1 else if page0 < 0 then Pages(count) + 1 + page0 else page0;
            MIN_INT64 <= 50 * (page - 1) <= MAX_INT64 ==>
              Taken(count, page0) == (if page < 1 then 1 else page)
              && StartOf(Taken(count, page0)) == 50 * (Taken(count, page0) - 1)
  {
  }

  /** The last page number of 64 bits is not taken: its start comes out as -100. */
  lemma LastNumberIsFirstPage(count: nat)
    ensures StartOf(MAX_INT64) == -100 && Taken(count, MAX_INT64) == 1 && Meant(count, MAX_INT64) == MAX_INT64
  {
  }

  /** The page that www_topic and www_query compute for position k. */
  function PageOf(k: nat): nat { k / PAGE_SIZE + 1 }

  predicate OnPage(count: nat, page: nat, k: nat) {
    page >= 1 && 50 * (page - 1) <= k < 50 * page && k < count
  }

  function FirstOf(page: nat): int { (page - 1) * PAGE_SIZE }

  /** Every position lies on exactly one of the pages 1..Pages, the one computed for it; and no
      page in that range is empty. */
  lemma PagesPartition(count: nat, k: nat)
    requires k < count
    ensures 1 <= PageOf(k) <= Pages(count)
    ensures forall p: nat :: OnPage(count, p, k) <==> p == PageOf(k)
    ensures forall p: nat :: 1 <= p <= Pages(count) ==> FirstOf(p) >= 0 && OnPage(count, p, FirstOf(p))
  {
    forall p: nat ensures OnPage(count, p, k) <==> p == PageOf(k) {
    }
  }

  // ---------------------------------------------------------------- the pager list

  predicate Shown(pages: nat, page: int, i: nat) { 1 <= i <= pages && (i == 1 || i == pages || Near(i, page)) }

  lemma {:induction false} EntriesShown(pages: nat, page: int, i: nat)
    requires 1 <= i <= pages
    ensures forall x: nat :: x != 0 ==> (x in Entries(pages, page, i) <==> x <= i && Shown(pages, page, x))
  {
    hide Near;
    if i == 1 {
      assert Entries(pages, page, 0) == [];
    } else {
      EntriesShown(pages, page, i - 1);
    }
  }

  ghost predicate Ascending(r: seq<nat>, top: nat) {
    (forall a, b :: 0 <= a < b < |r| && r[a] != 0 && r[b] != 0 ==> r[a] < r[b])
    && (forall a :: 0 <= a < |r| ==> r[a] <= top)
  }

  /** No two marks in a row, a mark only where a page is left out, and none missing there. */
  ghost predicate GapAt(r: seq<nat>, a: nat)
    requires a + 1 < |r|
  {
    && (r[a] != 0 || r[a + 1] != 0)
    && (r[a] != 0 && r[a + 1] != 0 ==> r[a + 1] == r[a] + 1)
    && (r[a] != 0 && r[a + 1] == 0 && a + 2 < |r| ==> r[a + 2] > r[a] + 1)
  }

  ghost predicate LoneGaps(r: seq<nat>) { forall a :: 0 <= a < |r| - 1 ==> GapAt(r, a) }

  /** What the list ends with after number i. */
  ghost predicate EndsAt(r: seq<nat>, i: nat) {
    && |r| >= 1
    && (r[|r| - 1] != 0 ==> r[|r| - 1] == i)
    && (r[|r| - 1] == 0 ==> |r| >= 2 && 0 < r[|r| - 2] < i)
  }

  lemma {:induction false} EntriesAscend(pages: nat, page: int, i: nat)
    requires 1 <= i <= pages
    ensures Ascending(Entries(pages, page, i), i)
    ensures i == pages ==> Entries(pages, page, i)[|Entries(pages, page, i)| - 1] == pages
  {
    hide Near;
    if i == 1 {
      assert Entries(pages, page, 0) == [];
    } else {
      EntriesAscend(pages, page, i - 1);
    }
  }

  lemma {:induction false} EntriesGaps(pages: nat, page: int, i: nat)
    requires 1 <= i <= pages
    ensures LoneGaps(Entries(pages, page, i)) && EndsAt(Entries(pages, page, i), i)
  {
    hide Near, LoneGaps, EndsAt;
    var none: seq<nat> := [];
    EntriesStep(pages, page, i);
    if i == 1 {
      OnePage(1);
      assert none + [1] == [1];
    } else {
      EntriesGaps(pages, page, i - 1);
      GapsMore(Entries(pages, page, i - 1), i);
    }
  }

  lemma OnePage(i: nat)
    requires i >= 1
    ensures LoneGaps([i]) && EndsAt([i], i)
  {
  }

  lemma GapsMore(r: seq<nat>, i: nat)
    requires i >= 2 && LoneGaps(r) && EndsAt(r, i - 1)
    ensures LoneGaps(r + [i]) && EndsAt(r + [i], i)
    ensures |r| >= 1 && (if r[|r| - 1] != 0 then LoneGaps(r + [0]) && EndsAt(r + [0], i) else EndsAt(r, i))
  {
    hide GapAt;
    forall a | 0 <= a < |r| ensures GapAt(r + [i], a) { GapMore(r, i, a); }
    if r[|r| - 1] != 0 {
      forall a | 0 <= a < |r| ensures GapAt(r + [0], a) { MarkMore(r, i, a); }
    }
  }

  lemma GapMore(r: seq<nat>, i: nat, a: nat)
    requires i >= 2 && EndsAt(r, i - 1) && a < |r| && (a + 1 < |r| ==> GapAt(r, a))
    ensures GapAt(r + [i], a)
  {
  }

  lemma MarkMore(r: seq<nat>, i: nat, a: nat)
    requires i >= 2 && EndsAt(r, i - 1) && a < |r| && (a + 1 < |r| ==> GapAt(r, a)) && r[|r| - 1] != 0
    ensures GapAt(r + [0], a)
  {
  }

  /** How many shown pages lie in 2..i around `page`. */
  function Inside(page: int, i: int): nat {
    var lo := if page - PAGER_RANGE > 2 then page - PAGER_RANGE else 2;
    var hi := if i < page + PAGER_RANGE then i else page + PAGER_RANGE;
    if hi < lo then 0 else hi - lo + 1
  }

  function GapBefore(page: int, i: int): nat { if i >= 2 && page - PAGER_RANGE > 2 then 1 else 0 }

  function GapAfter(page: int, i: int): nat { if i > page + PAGER_RANGE then 1 else 0 }

  lemma {:induction false} EntriesShort(pages: nat, page: int, i: nat)
    requires 1 <= i < pages && page >= 1
    ensures var r := Entries(pages, page, i);
            |r| <= 1 + Inside(page, i) + GapBefore(page, i) + GapAfter(page, i)
            && (2 <= i < page - PAGER_RANGE ==> r == [1, 0])
            && (i > page + PAGER_RANGE ==> r[|r| - 1] == 0)
  {
    if i == 1 {
      assert Entries(pages, page, 0) == [];
    } else {
      EntriesShort(pages, page, i - 1);
      if i == 2 {
        assert Entries(pages, page, 0) == [];
        assert Entries(pages, page, 1) == [1];
      }
    }
  }

  /** The pager list starts at the first page, ends at the last, shows every existing page within
      ten of the current one in ascending order, has one gap mark wherever pages are left out and
      nowhere else, and has at most twenty-five entries however many pages there are. */
  lemma PagerShape(count: nat, page0: int)
    requires Pages(count) > 1
    ensures var pages, page := Pages(count), Meant(count, page0);
            var r := List(pages, page);
            2 <= |r| <= 25 && r[0] == 1 && r[|r| - 1] == pages
            && (forall x: nat :: x != 0 ==> (x in r <==> x == 1 || x == pages || (x <= pages && page - 10 <= x <= page + 10)))
            && Ascending(r, pages) && LoneGaps(r)
  {
    hide Pages, Ascending, LoneGaps, EndsAt;
    var pages, page := Pages(count), Meant(count, page0);
    EntriesShown(pages, page, pages);
    EntriesAscend(pages, page, pages);
    EntriesGaps(pages, page, pages);
    EntriesShort(pages, page, pages - 1);
    assert List(pages, page) == Entries(pages, page, pages - 1) + [pages];
  }
}
