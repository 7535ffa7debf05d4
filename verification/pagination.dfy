/**
 * Offset pagination shared by the catalog, API, template, docs and notification lists, and
 * the list page state (selected filter, search box, offset) with the events that change it.
 */
module Pagination {
  import opened Arith

  /** Catalog, API explorer, docs index and notifications. */
  const ListPageSize: nat := 20
  /** Template picker. */
  const TemplatePageSize: nat := 24

  /** `Math.ceil(total / size)`. */
  function TotalPages(total: nat, size: nat): (pages: nat)
    requires size > 0
    ensures pages * size >= total
    ensures pages > 0 ==> (pages - 1) * size < total
  {
    (total + size - 1) / size
  }

  /** `Math.floor(offset / size) + 1`: the 1-based page holding `offset`. */
  function CurrentPage(offset: nat, size: nat): (page: nat)
    requires size > 0
    ensures page >= 1
    ensures (page - 1) * size <= offset < page * size
  {
    offset / size + 1
  }

  /** `Math.max(0, offset - size)`. */
  function Prev(offset: nat, size: nat): (r: nat)
    ensures r <= offset
    ensures r == 0 || r + size == offset
    ensures offset >= size ==> r + size == offset
  {
    if offset >= size then offset - size else 0
  }

  /** The Previous button is disabled on the first offset only. */
  predicate PrevDisabled(offset: nat) {
    offset == 0
  }

  /** `offset + size`. */
  function Next(offset: nat, size: nat): (r: nat)
    ensures r >= offset
    ensures r - offset == size
  {
    offset + size
  }

  /** The Next button is disabled once the next page would start at or beyond the total. */
  predicate NextDisabled(offset: nat, size: nat, total: nat) {
    offset + size >= total
  }

  /** The pager is rendered only when there is more than one page. */
  predicate PagerShown(total: nat, size: nat)
    requires size > 0
  {
    TotalPages(total, size) > 1
  }

  /** The pager appears exactly when the items do not fit on one page. */
  lemma PagerShownIff(total: nat, size: nat)
    requires size > 0
    ensures PagerShown(total, size) <==> total > size
  {
    var p := TotalPages(total, size);
    MulMono(p, 1, size);
    MulMono(2, p, size);
  }

  /** Previous is disabled exactly when clicking it would leave the offset where it is. */
  lemma PrevDisabledIff(offset: nat, size: nat)
    requires size > 0
    ensures PrevDisabled(offset) <==> Prev(offset, size) == offset
  {
  }

  /** On a page-aligned offset, Next is disabled exactly when the current page is the last one. */
  lemma NextDisabledOnLastPage(offset: nat, size: nat, total: nat)
    requires size > 0 && offset % size == 0
    ensures NextDisabled(offset, size, total) <==> CurrentPage(offset, size) >= TotalPages(total, size)
  {
    var k := offset / size;
    var pages := TotalPages(total, size);
    assert offset == k * size;
    assert offset + size == (k + 1) * size;
    if k + 1 >= pages {
      MulMono(pages, k + 1, size);
    } else {
      MulMono(k + 1, pages - 1, size);
    }
  }

  /** An enabled Next lands on an offset that still has items. */
  lemma NextEnabledStaysInRange(offset: nat, size: nat, total: nat)
    requires !NextDisabled(offset, size, total)
    ensures Next(offset, size) < total
  {
  }

  /** Previous undoes Next. */
  lemma PrevUndoesNext(offset: nat, size: nat)
    requires size > 0
    ensures Prev(Next(offset, size), size) == offset
  {
  }

  /** On an offset that holds items, the current page is one of the pages counted. */
  lemma CurrentPageWithinTotal(offset: nat, size: nat, total: nat)
    requires size > 0 && offset < total
    ensures CurrentPage(offset, size) <= TotalPages(total, size)
  {
    var c, p := CurrentPage(offset, size), TotalPages(total, size);
    MulMono(p, c - 1, size);
  }

  /** A list page's state: the selected filter value, the search box text and the offset. */
  datatype ListState<F> = ListState(filter: F, input: string, offset: nat)

  /** What the user can do on a list page. `NextPage` carries the total last reported. */
  datatype ListEvent<F> =
    | SelectFilter(choice: F)
    | EditSearch(text: string)
    | ClearSearch
    | PrevPage
    | NextPage(total: nat)

  /** The initial state: the default filter, an empty search box, the first page. */
  function Initial<F>(filter: F): ListState<F> {
    ListState(filter, "", 0)
  }

  /**
   * One event. A filter pill, an edit or a clear resets the offset to 0; a disabled pager
   * button does nothing.
   */
  function Step<F>(s: ListState<F>, ev: ListEvent<F>, size: nat): (t: ListState<F>)
    ensures ev.SelectFilter? ==> t == ListState(ev.choice, s.input, 0)
    ensures ev.EditSearch? ==> t == ListState(s.filter, ev.text, 0)
    ensures ev.ClearSearch? ==> t == ListState(s.filter, "", 0)
    ensures ev.PrevPage? ==> t.filter == s.filter && t.input == s.input && t.offset <= s.offset
    ensures ev.PrevPage? && s.offset > 0 ==> t.offset == Prev(s.offset, size)
    ensures ev.NextPage? && !NextDisabled(s.offset, size, ev.total) ==>
              t == s.(offset := s.offset + size) && t.offset < ev.total
    ensures ev.NextPage? && NextDisabled(s.offset, size, ev.total) ==> t == s
  {
    match ev
    case SelectFilter(f) => ListState(f, s.input, 0)
    case EditSearch(text) => s.(input := text, offset := 0)
    case ClearSearch => s.(input := "", offset := 0)
    case PrevPage => if PrevDisabled(s.offset) then s else s.(offset := Prev(s.offset, size))
    case NextPage(total) =>
      if NextDisabled(s.offset, size, total) then s else s.(offset := Next(s.offset, size))
  }

  /** The state after a sequence of events. */
  function Run<F>(s: ListState<F>, evs: seq<ListEvent<F>>, size: nat): ListState<F>
    decreases |evs|
  {
    if |evs| == 0 then s else Run(Step(s, evs[0], size), evs[1..], size)
  }

  /** Offsets are always whole pages. */
  predicate Aligned<F>(s: ListState<F>, size: nat)
    requires size > 0
  {
    s.offset % size == 0
  }

  /** Every event keeps the offset on a page boundary. */
  lemma StepKeepsAligned<F>(s: ListState<F>, ev: ListEvent<F>, size: nat)
    requires size > 0 && Aligned(s, size)
    ensures Aligned(Step(s, ev, size), size)
  {
    var t := Step(s, ev, size);
    assert t.offset == 0 || t.offset == s.offset || t.offset + size == s.offset
        || t.offset == s.offset + size;
    PageMoveAligned(s.offset, t.offset, size);
  }

  /** Staying, returning to 0 or moving by one page keeps a page-aligned offset aligned. */
  lemma PageMoveAligned(before: nat, after: nat, size: nat)
    requires size > 0 && before % size == 0
    requires after == 0 || after == before || after + size == before || after == before + size
    ensures after % size == 0
  {
    if after + size == before {
      ModShift(after, size);
    } else if after == before + size {
      ModShift(before, size);
    }
  }

  /** From the initial state, every reachable offset is a whole number of pages. */
  lemma {:induction false} RunKeepsAligned<F>(s: ListState<F>, evs: seq<ListEvent<F>>, size: nat)
    requires size > 0 && Aligned(s, size)
    ensures Aligned(Run(s, evs, size), size)
    decreases |evs|
  {
    if |evs| > 0 {
      StepKeepsAligned(s, evs[0], size);
      RunKeepsAligned(Step(s, evs[0], size), evs[1..], size);
    }
  }

  /** Whatever came before, a filter change, edit or clear puts the list back on page 1. */
  lemma ResetEventsGoToFirstPage<F>(s: ListState<F>, ev: ListEvent<F>, size: nat)
    requires size > 0
    requires ev.SelectFilter? || ev.EditSearch? || ev.ClearSearch?
    ensures Step(s, ev, size).offset == 0
    ensures CurrentPage(Step(s, ev, size).offset, size) == 1
  {
  }
}
