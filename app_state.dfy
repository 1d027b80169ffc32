/**
 * The `App` component's state as one object: the rows of the loaded page
 * (only their synthesised ids matter), the 1-based page number, the loading
 * flag, the cross-page selection, the pagination figures reported by the
 * collection API and the bulk-select text. Each handler of the component is a
 * method that replaces some of these fields.
 */
module AppState {
  import opened Wrappers
  import opened Pagination
  import opened Selection
  import opened BulkInput

  class App {
    var products: seq<int>
    var page: int
    var loading: bool
    var selectedProducts: seq<int>
    var total: int
    var limit: int
    var selectRange: Text
    /** The page whose load produced `products`; it lags `page` after a failed load. */
    ghost var shownPage: int

    /**
     * The loaded rows carry the ids synthesised for the page they were loaded
     * on, and the selection holds no id twice.
     */
    ghost predicate Valid()
      reads this
    {
      page >= 1 && shownPage >= 1 && products == PageIds(shownPage, |products|) &&
      NoDup(selectedProducts)
    }

    /** The initial state: page 1, loading, nothing loaded or selected. */
    constructor ()
      ensures Valid()
      ensures page == 1 && loading && products == [] && selectedProducts == []
      ensures total == 0 && limit == PageSize && selectRange == []
    {
      products := [];
      page := 1;
      loading := true;
      selectedProducts := [];
      total := 0;
      limit := PageSize;
      selectRange := [];
      shownPage := 1;
    }

    /**
     * A load of the current page that delivered `k` records and the given
     * pagination figures: the rows get ids (page-1)*12 + index + 1 and the
     * loading flag clears.
     */
    method LoadSucceeded(k: nat, newTotal: int, newLimit: int)
      requires Valid()
      modifies this
      ensures Valid()
      ensures products == PageIds(page, k) && shownPage == page && !loading
      ensures |products| == k && forall i :: 0 <= i < k ==> products[i] == (page - 1) * 12 + i + 1
      ensures total == newTotal && limit == newLimit
      ensures page == old(page) && selectedProducts == old(selectedProducts)
      ensures selectRange == old(selectRange)
    {
      products := PageIds(page, k);
      shownPage := page;
      total, limit := newTotal, newLimit;
      loading := false;
    }

    /** A request or a parse that fails only clears the loading flag; the previous rows stay. */
    method LoadFailed()
      requires Valid()
      modifies this`loading
      ensures Valid() && !loading
    {
      loading := false;
    }

    /**
     * A response that parses but whose records cannot be mapped fails after
     * the pagination figures were taken: those are replaced, the loading flag
     * clears, and the previous rows stay.
     */
    method LoadFailedAfterPagination(newTotal: int, newLimit: int)
      requires Valid()
      modifies this`loading, this`total, this`limit
      ensures Valid() && !loading
      ensures total == newTotal && limit == newLimit
    {
      total, limit := newTotal, newLimit;
      loading := false;
    }

    /**
     * The paginator's page-change event: the designated page is
     * ceil(first / rows) + 1; if it is the current page nothing changes,
     * otherwise the page is switched and loading starts.
     */
    method OnPageChange(first: int, rows: int)
      requires Valid() && first >= 0 && rows > 0
      modifies this`page, this`loading
      ensures Valid()
      ensures old(page) == PageFromOffset(first, rows) ==> page == old(page) && loading == old(loading)
      ensures old(page) != PageFromOffset(first, rows) ==> page == PageFromOffset(first, rows) && loading
    {
      var pageValue := PageFromOffset(first, rows);
      if page == pageValue {
        return;
      }
      page := pageValue;
      loading := true;
    }

    /** The loaded rows whose ids are selected, in row order: the table's checked rows. */
    function CurrentPageSelection(): (rows: seq<int>)
      reads this
      ensures forall x :: x in rows <==> x in products && x in selectedProducts
      ensures |rows| <= |products|
    {
      Retain(products, selectedProducts)
    }

    /**
     * The table reports `newSelection` as the checked rows of this page: the
     * ids of the loaded rows are dropped from the selection and the new ones
     * appended.
     */
    method HandleSelectionChange(newSelection: seq<int>)
      requires Valid()
      requires NoDup(newSelection) && SubsetOf(newSelection, products)
      modifies this`selectedProducts
      ensures Valid()
      ensures selectedProducts == Reconcile(old(selectedProducts), products, newSelection)
    {
      ReconcileNoDup(selectedProducts, products, newSelection);
      var otherIds := Remove(selectedProducts, products);
      selectedProducts := otherIds + newSelection;
    }

    /** The bulk-select field's change handler. */
    method SetSelectRange(value: Text)
      requires Valid()
      modifies this`selectRange
      ensures Valid()
      ensures selectRange == StripFirstNonDigit(value)
    {
      selectRange := StripFirstNonDigit(value);
    }

    /**
     * Submit of "first N": with N in [1, rows on the page] the first N row
     * ids are merged into the selection without duplicates; any other text
     * leaves the selection as it was. The old selection stays in front, in
     * its order, followed by those of the first N ids not yet selected.
     */
    method HandleSelectionWithNumber()
      requires Valid()
      modifies this`selectedProducts
      ensures Valid()
      ensures match RequestedCount(selectRange, |products|)
              case Some(n) =>
                selectedProducts == Dedup(old(selectedProducts) + products[..n]) &&
                selectedProducts == old(selectedProducts) + Remove(products[..n], old(selectedProducts))
              case None => selectedProducts == old(selectedProducts)
    {
      var numRows := RequestedCount(selectRange, |products|);
      if numRows.Some? {
        FirstNMerge(selectedProducts, shownPage, |products|, numRows.value);
        var selectedIds := products[..numRows.value];
        selectedProducts := Dedup(selectedProducts + selectedIds);
      }
    }

    /** The Submit button's disabled state for the current text and total. */
    function SubmitIsDisabled(): (disabled: bool)
      reads this
      ensures disabled <==> selectRange == [] ||
                            (AllDigits(selectRange) && !(1 <= DigitsValue(selectRange) <= total))
    {
      SubmitDisabled(selectRange, total)
    }
  }

  /**
   * The paginator is given the offset (page - 1) * 12 and `rows` = the
   * reported limit. When it reports that position back, the designated page
   * is the current one, so nothing reloads, provided the limit is 12.
   */
  lemma {:induction false} PaginatorEchoIsNoOp(page: int, limit: int)
    requires limit == PageSize
    ensures PageFromOffset((page - 1) * PageSize, limit) == page
  {
    OffsetRoundTrip(page, limit);
  }

  /** With any other limit the echo can designate another page: limit 10 on page 2 designates page 3. */
  lemma PaginatorEchoWithOtherLimit()
    ensures PageFromOffset((2 - 1) * PageSize, 10) == 3
  {
  }

  /** The ids of one page never repeat. */
  lemma PageIdsNoDup(page: int, k: nat)
    ensures NoDup(PageIds(page, k))
  {
  }

  /**
   * Selecting on page p, then selecting on another page q, leaves p's
   * checked rows exactly as they were chosen, in page order.
   */
  lemma {:induction false} SelectionSurvivesOtherPage(selected: seq<int>, p: int, q: int, k: nat, m: nat, onP: seq<int>, onQ: seq<int>)
    requires p != q && k <= PageSize && m <= PageSize
    requires SubsetOf(onP, PageIds(p, k)) && SubsetOf(onQ, PageIds(q, m))
    ensures Retain(PageIds(p, k), Reconcile(Reconcile(selected, PageIds(p, k), onP), PageIds(q, m), onQ))
         == Retain(PageIds(p, k), onP)
  {
    var pIds, qIds := PageIds(p, k), PageIds(q, m);
    var afterP := Reconcile(selected, pIds, onP);
    PageIdsDisjoint(p, q, k, m);
    RetainCongruent(pIds, Reconcile(afterP, qIds, onQ), afterP);
    ReconcileView(selected, pIds, onP);
  }

  /**
   * "First N" on a page with a duplicate-free selection keeps the old
   * selection as a prefix and appends the first N ids not yet selected.
   */
  lemma {:induction false} FirstNMerge(selected: seq<int>, page: int, k: nat, n: nat)
    requires NoDup(selected) && n <= k
    ensures Dedup(selected + PageIds(page, k)[..n]) == selected + Remove(PageIds(page, k)[..n], selected)
    ensures forall x :: x in Dedup(selected + PageIds(page, k)[..n]) <==>
              x in selected || (x in PageIds(page, k)[..n])
  {
    var firstIds := PageIds(page, k)[..n];
    assert firstIds == PageIds(page, n);
    PageIdsNoDup(page, n);
    MergeKeepsOldThenAppends(selected, firstIds);
  }

  /**
   * A visit to page p, a selection there, a visit to page q and a selection
   * there, and a return to p: the table shows p's rows checked exactly as
   * they were chosen.
   */
  method RevisitPage(p: int, q: int, k: nat, m: nat, onP: seq<int>, onQ: seq<int>) returns (view: seq<int>)
    requires 1 <= p && 1 <= q && p != q && k <= PageSize && m <= PageSize
    requires SubsetOf(onP, PageIds(p, k)) && SubsetOf(onQ, PageIds(q, m))
    requires NoDup(onP) && NoDup(onQ)
    ensures view == Retain(PageIds(p, k), onP)
  {
    var pIds, qIds := PageIds(p, k), PageIds(q, m);
    var app := new App();
    OffsetRoundTrip(p, PageSize);
    OffsetRoundTrip(q, PageSize);
    app.OnPageChange((p - 1) * PageSize, PageSize);
    assert app.page == p;
    app.LoadSucceeded(k, 0, PageSize);
    app.HandleSelectionChange(onP);
    assert app.selectedProducts == Reconcile([], pIds, onP);
    app.OnPageChange((q - 1) * PageSize, PageSize);
    assert app.page == q;
    app.LoadSucceeded(m, 0, PageSize);
    app.HandleSelectionChange(onQ);
    assert app.selectedProducts == Reconcile(Reconcile([], pIds, onP), qIds, onQ);
    app.OnPageChange((p - 1) * PageSize, PageSize);
    assert app.page == p;
    app.LoadSucceeded(k, 0, PageSize);
    assert app.products == pIds;
    SelectionSurvivesOtherPage([], p, q, k, m, onP, onQ);
    view := app.CurrentPageSelection();
  }
}
