/**
 * The two paged, filterable tables (`renderTable`, `updatePagination`, the
 * filter, page-size and prev/next handlers, and the reset in `updateUI`).
 * Each table is a `View` object holding the state the source keeps in
 * globals and form fields: the ranked list, the filter text, the page size
 * and the current page.
 */
module ResultView {
  import opened TextClasses
  import opened Seqs
  import opened Strings
  import opened Frequencies

  datatype Option<T> = None | Some(value: T)

  /** Which table: `'word'` or `'phrase'`. */
  datatype Kind = WordTable | PhraseTable

  /** One table row: rank, text, count and share of all counted words (percent). */
  datatype Row = Row(rank: nat, text: string, count: nat, percent: real)

  /** What a render shows: the rows of the page and the pagination controls. */
  datatype Rendering = Rendering(
    rows: seq<Row>,
    currentPage: nat,
    totalPages: nat,
    totalItems: nat,
    prevDisabled: bool,
    nextDisabled: bool)

  function Min(a: int, b: int): int { if a <= b then a else b }
  function Max(a: int, b: int): int { if a >= b then a else b }

  /** `filtered`: the records whose lowercased text contains the lowercased
      filter; the whole list when the lowercased filter is empty. */
  function Matching(data: seq<Frequency>, filterText: string, u: Unicode): (r: seq<Frequency>)
    ensures forall e :: e in r <==> e in data && Contains(u.lower(e.text), u.lower(filterText))
  {
    var needle := u.lower(filterText);
    if needle == "" then data else Filter(data, (e: Frequency) => Contains(u.lower(e.text), needle))
  }

  /** `Math.ceil(items / pageSize) || 1`. */
  function TotalPages(items: nat, pageSize: nat): (r: nat)
    requires pageSize > 0
    ensures r >= 1
    ensures items == 0 ==> r == 1
    ensures items > 0 ==> (r - 1) * pageSize < items <= r * pageSize
  {
    var ceil := (items + pageSize - 1) / pageSize;
    assert items + pageSize - 1 == ceil * pageSize + (items + pageSize - 1) % pageSize;
    if ceil == 0 then 1 else ceil
  }

  /** The percentage column, as an exact ratio: 0 when nothing was counted. */
  function Percent(count: nat, totalWords: int): (r: real)
    ensures 0.0 <= r
    ensures 0 < totalWords && count <= totalWords ==> r <= 100.0
    ensures 0 < totalWords ==> r * (totalWords as real) == (count as real) * 100.0
    ensures totalWords <= 0 ==> r == 0.0
  {
    if totalWords > 0 then (count as real) * 100.0 / (totalWords as real) else 0.0
  }

  /** The rows of `filtered.slice(start, start + pageSize)`, ranked `start + idx + 1`. */
  function PageRows(filtered: seq<Frequency>, start: nat, pageSize: nat, totalWords: int): seq<Row>
    requires start <= |filtered|
  {
    var page := filtered[start..Min(start + pageSize, |filtered|)];
    seq(|page|, idx requires 0 <= idx < |page| =>
      Row(start + idx + 1, page[idx].text, page[idx].count, Percent(page[idx].count, totalWords)))
  }

  lemma MulMonotone(a: nat, b: nat, c: nat)
    requires a <= b
    ensures a * c <= b * c
  {
  }

  /** The first index of the page; never past the end of the list. */
  function PageStart(items: nat, pageSize: nat, page: nat): (start: nat)
    requires pageSize > 0 && 1 <= page <= TotalPages(items, pageSize)
    ensures start <= items
    ensures items > 0 ==> start < items
  {
    MulMonotone(page - 1, TotalPages(items, pageSize) - 1, pageSize);
    (page - 1) * pageSize
  }

  /** What `renderTable` followed by `updatePagination` shows for a given
      state; `currentPage` is the clamped page it writes back. */
  function Render(data: seq<Frequency>, filterText: string, pageSize: nat, currentPage: nat,
                  totalWords: int, u: Unicode): Rendering
    requires pageSize > 0 && currentPage >= 1
  {
    var filtered := Matching(data, filterText, u);
    var totalPages := TotalPages(|filtered|, pageSize);
    var page := Min(currentPage, totalPages);
    var start := PageStart(|filtered|, pageSize, page);
    Rendering(PageRows(filtered, start, pageSize, totalWords),
              page, totalPages, |filtered|, page <= 1, page >= totalPages)
  }

  /** What a render promises: at least one page, the page clamped into
      range, at most `pageSize` rows, each row the record of `filtered` at
      position `rank - 1`, matching the filter, with rank `start + idx + 1`;
      a non-empty list never shows an empty page; prev is disabled exactly
      on the first page and next exactly on the last. */
  lemma RenderFacts(data: seq<Frequency>, filterText: string, pageSize: nat, currentPage: nat,
                    totalWords: int, u: Unicode)
    requires pageSize > 0 && currentPage >= 1
    ensures var p := Render(data, filterText, pageSize, currentPage, totalWords, u);
      var filtered := Matching(data, filterText, u);
      && p.totalItems == |filtered|
      && 1 <= p.currentPage <= p.totalPages
      && p.currentPage == Min(currentPage, p.totalPages)
      && (|filtered| == 0 ==> p.totalPages == 1 && p.rows == [])
      && (|filtered| > 0 ==> (p.totalPages - 1) * pageSize < |filtered| <= p.totalPages * pageSize)
      && 1 <= |p.rows| + (if |filtered| == 0 then 1 else 0) <= pageSize
      && (forall idx :: 0 <= idx < |p.rows| ==>
            && p.rows[idx].rank == (p.currentPage - 1) * pageSize + idx + 1
            && 1 <= p.rows[idx].rank <= |filtered|
            && p.rows[idx].text == filtered[p.rows[idx].rank - 1].text
            && p.rows[idx].count == filtered[p.rows[idx].rank - 1].count
            && p.rows[idx].percent == Percent(p.rows[idx].count, totalWords)
            && Contains(u.lower(p.rows[idx].text), u.lower(filterText)))
      && (p.prevDisabled <==> p.currentPage == 1)
      && (p.nextDisabled <==> p.currentPage == p.totalPages)
  {
    var p := Render(data, filterText, pageSize, currentPage, totalWords, u);
    var filtered := Matching(data, filterText, u);
    forall idx | 0 <= idx < |p.rows|
      ensures Contains(u.lower(p.rows[idx].text), u.lower(filterText))
    {
      assert filtered[p.rows[idx].rank - 1] in filtered;
    }
  }

  /** An empty filter keeps the whole list: the reset filter shows everything. */
  lemma EmptyFilterKeepsAll(data: seq<Frequency>, filterText: string, u: Unicode)
    requires filterText == ""
    ensures Matching(data, filterText, u) == data
  {
  }

  /** Every record of the filtered list is on page `k / pageSize + 1`, in
      row `k % pageSize`, with rank `k + 1`: the pages cover the list. */
  lemma EveryItemOnItsPage(data: seq<Frequency>, filterText: string, pageSize: nat, k: nat,
                           totalWords: int, u: Unicode)
    requires pageSize > 0 && k < |Matching(data, filterText, u)|
    ensures var p := Render(data, filterText, pageSize, k / pageSize + 1, totalWords, u);
      && p.currentPage == k / pageSize + 1
      && k % pageSize < |p.rows|
      && p.rows[k % pageSize].rank == k + 1
      && p.rows[k % pageSize].text == Matching(data, filterText, u)[k].text
  {
    var filtered := Matching(data, filterText, u);
    var tp := TotalPages(|filtered|, pageSize);
    var q, m := k / pageSize, k % pageSize;
    DivMod(k, pageSize);
    if q + 1 > tp {
      MulMonotone(tp, q, pageSize);
      assert false;
    }
    var start := PageStart(|filtered|, pageSize, q + 1);
    assert start == q * pageSize;
    var rows := PageRows(filtered, start, pageSize, totalWords);
    assert |rows| == Min(start + pageSize, |filtered|) - start;
  }

  lemma DivMod(k: nat, d: nat)
    requires d > 0
    ensures k == (k / d) * d + k % d && 0 <= k % d < d
  {
  }

  /** The `forEach` over the page slice that appends one row per record. */
  method PageRowsOf(filtered: seq<Frequency>, start: nat, pageSize: nat, totalWords: int)
    returns (rows: seq<Row>)
    requires start <= |filtered|
    ensures rows == PageRows(filtered, start, pageSize, totalWords)
  {
    var page := filtered[start..Min(start + pageSize, |filtered|)];
    ghost var all := PageRows(filtered, start, pageSize, totalWords);
    rows := [];
    for idx := 0 to |page|
      invariant rows == all[..idx]
    {
      var row := Row(start + idx + 1, page[idx].text, page[idx].count,
                     Percent(page[idx].count, totalWords));
      assert all[..idx + 1] == all[..idx] + [row];
      rows := rows + [row];
    }
    assert all[..|page|] == all;
  }

  /** One table's state and its event handlers. */
  class View {
    const kind: Kind
    var data: seq<Frequency>
    var filterText: string
    var pageSize: nat
    var currentPage: nat

    ghost predicate Valid()
      reads this
    {
      pageSize > 0 && currentPage >= 1
    }

    /** A new table: no data, page 1 (main.js:75-78), and the filter field's
        initial empty value. */
    constructor (kind: Kind, pageSize: nat)
      requires pageSize > 0
      ensures Valid() && this.kind == kind && this.pageSize == pageSize
      ensures data == [] && filterText == "" && currentPage == 1
    {
      this.kind := kind;
      this.pageSize := pageSize;
      data, filterText, currentPage := [], "", 1;
    }

    /** `renderTable(type)` with `updatePagination`: clamps the current page
        downwards, writes it back, and builds the rows of the page. */
    method RenderTable(totalWords: int, u: Unicode) returns (p: Rendering)
      requires Valid()
      modifies this`currentPage
      ensures Valid()
      ensures p == Render(data, filterText, pageSize, old(currentPage), totalWords, u)
      ensures currentPage == p.currentPage
    {
      var filtered := Matching(data, filterText, u);
      var totalPages := TotalPages(|filtered|, pageSize);
      currentPage := Min(currentPage, totalPages);
      var start := PageStart(|filtered|, pageSize, currentPage);
      var rows := PageRowsOf(filtered, start, pageSize, totalWords);
      p := Rendering(rows, currentPage, totalPages, |filtered|,
                     currentPage <= 1, currentPage >= totalPages);
    }

    /** The filter input handler: new filter text, then a render. */
    method SetFilter(text: string, totalWords: int, u: Unicode) returns (p: Rendering)
      requires Valid()
      modifies this
      ensures Valid() && filterText == text
      ensures data == old(data) && pageSize == old(pageSize)
      ensures p == Render(data, text, pageSize, old(currentPage), totalWords, u)
      ensures currentPage == p.currentPage
    {
      filterText := text;
      p := RenderTable(totalWords, u);
    }

    /** The page-size handler: back to page 1, then a render. */
    method SetPageSize(size: nat, totalWords: int, u: Unicode) returns (p: Rendering)
      requires Valid() && size > 0
      modifies this
      ensures Valid() && pageSize == size && currentPage == 1
      ensures data == old(data) && filterText == old(filterText)
      ensures p == Render(data, filterText, size, 1, totalWords, u)
    {
      pageSize := size;
      currentPage := 1;
      p := RenderTable(totalWords, u);
    }

    /** The prev button: one page back but never below 1, then a render. */
    method PrevPage(totalWords: int, u: Unicode) returns (p: Rendering)
      requires Valid()
      modifies this
      ensures Valid()
      ensures data == old(data) && filterText == old(filterText) && pageSize == old(pageSize)
      ensures p == Render(data, filterText, pageSize, Max(1, old(currentPage) - 1), totalWords, u)
      ensures currentPage == p.currentPage
    {
      currentPage := Max(1, currentPage - 1);
      p := RenderTable(totalWords, u);
    }

    /** The next button: one page on, unclamped; the render clamps it. */
    method NextPage(totalWords: int, u: Unicode) returns (p: Rendering)
      requires Valid()
      modifies this
      ensures Valid()
      ensures data == old(data) && filterText == old(filterText) && pageSize == old(pageSize)
      ensures p == Render(data, filterText, pageSize, old(currentPage) + 1, totalWords, u)
      ensures currentPage == p.currentPage <= p.totalPages
    {
      currentPage := currentPage + 1;
      p := RenderTable(totalWords, u);
      RenderFacts(data, filterText, pageSize, old(currentPage) + 1, totalWords, u);
    }

    /** `updateUI` for this table: the new list is stored; the word table is
        always reset to page 1 with an empty filter and rendered, the phrase
        table only when the new list is non-empty (otherwise it is hidden
        and keeps its page and filter). */
    method Load(newData: seq<Frequency>, totalWords: int, u: Unicode) returns (shown: Option<Rendering>)
      requires Valid()
      modifies this
      ensures Valid() && data == newData && pageSize == old(pageSize)
      ensures kind == WordTable || |newData| > 0 ==>
        currentPage == 1 && filterText == ""
        && shown == Some(Render(newData, "", pageSize, 1, totalWords, u))
      ensures kind == PhraseTable && |newData| == 0 ==>
        shown == None && currentPage == old(currentPage) && filterText == old(filterText)
    {
      data := newData;
      if kind == WordTable || |newData| > 0 {
        currentPage := 1;
        filterText := "";
        var p := RenderTable(totalWords, u);
        shown := Some(p);
      } else {
        shown := None;
      }
    }
  }
}
