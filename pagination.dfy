/**
 * Pagination arithmetic of the artwork table: the ids the client synthesises
 * for the rows of a page, and the translation of the paginator's
 * "first visible row / rows per page" event back into a 1-based page number.
 */
module Pagination {

  /** Rows per page the client assumes when it synthesises ids and offsets. */
  const PageSize: int := 12

  /** The id given to the row at zero-based position `index` of page `page`. */
  function RowId(page: int, index: int): (id: int)
  {
    (page - 1) * PageSize + index + 1
  }

  /**
   * The ids of a page load that delivered `k` records, in response order.
   * With at most a page's worth of records, each id gives back its page and
   * its position.
   */
  function PageIds(page: int, k: nat): (ids: seq<int>)
    ensures |ids| == k
    ensures k <= PageSize ==> forall i :: 0 <= i < k ==> PageOf(ids[i]) == page && IndexOf(ids[i]) == i
  {
    forall i | 0 <= i < k && k <= PageSize
      ensures PageOf(RowId(page, i)) == page && IndexOf(RowId(page, i)) == i
    {
      RowIdInverse(page, i);
    }
    seq(k, i => RowId(page, i))
  }

  /** The page an id was synthesised on (inverse of RowId in its first argument). */
  function PageOf(id: int): (page: int)
  {
    (id - 1) / PageSize + 1
  }

  /** The zero-based position on its page that an id was synthesised for. */
  function IndexOf(id: int): (index: int)
  {
    (id - 1) % PageSize
  }

  /** The ids of a page are consecutive, hence strictly increasing. */
  lemma PageIdsConsecutive(page: int, k: nat)
    ensures forall i :: 0 <= i < k - 1 ==> PageIds(page, k)[i + 1] == PageIds(page, k)[i] + 1
    ensures forall i, j :: 0 <= i < j < k ==> PageIds(page, k)[i] < PageIds(page, k)[j]
  {
  }

  /** Two different pages holding at most a full page each never share an id. */
  lemma PageIdsDisjoint(p: int, q: int, k: nat, m: nat)
    requires p != q && k <= PageSize && m <= PageSize
    ensures forall x :: x in PageIds(p, k) ==> x !in PageIds(q, m)
  {
  }

  /** An id determines the page and the position it was synthesised for. */
  lemma RowIdInverse(page: int, index: int)
    requires 0 <= index < PageSize
    ensures PageOf(RowId(page, index)) == page
    ensures IndexOf(RowId(page, index)) == index
  {
  }

  /** Integer ceiling of a / b for a positive divisor, the `Math.ceil(first / rows)` of the paginator. */
  function CeilDiv(a: int, b: int): (c: int)
    requires b > 0
    ensures b * (c - 1) < a <= b * c
  {
    var q := (-a) / b;
    assert -a == b * q + (-a) % b;
    assert b * (-q - 1) == -(b * q) - b;
    -q
  }

  /** The bounds of CeilDiv's contract determine it. */
  lemma CeilDivUnique(a: int, b: int, c: int)
    requires b > 0 && b * (c - 1) < a <= b * c
    ensures CeilDiv(a, b) == c
  {
  }

  /** The page number the paginator's page-change event designates. */
  function PageFromOffset(first: int, rows: int): (page: int)
    requires rows > 0
    ensures rows * (page - 2) < first <= rows * (page - 1)
    ensures first >= 0 ==> page >= 1
  {
    CeilDiv(first, rows) + 1
  }

  /** The offset of page p maps back to p: the paginator's echo of the current page is recognised. */
  lemma {:induction false} OffsetRoundTrip(p: int, rows: int)
    requires rows > 0
    ensures PageFromOffset((p - 1) * rows, rows) == p
  {
    CeilDivUnique((p - 1) * rows, rows, p - 1);
  }
}
