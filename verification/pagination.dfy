/**
 * Client-side pagination of the service and expense lists: 8 rows per page,
 * the page count rounds up, and page `p` is the slice of rows from `(p - 1) * 8`,
 * eight long or cut short by the end of the list.
 */
module Pagination {

  const ItemsPerPage: nat := 8

  /** `Math.ceil(n / ItemsPerPage)`. */
  function TotalPages(n: nat): (pages: nat)
    ensures n <= pages * ItemsPerPage
    ensures pages == 0 || (pages - 1) * ItemsPerPage < n
    ensures pages == 0 <==> n == 0
  {
    (n + ItemsPerPage - 1) / ItemsPerPage
  }

  /** How `Array.prototype.slice` reads an index: negative counts from the end, then clamped to `0..n`. */
  function SliceIndex(i: int, n: nat): (k: nat)
    ensures k <= n
    ensures 0 <= i <= n ==> k == i
  {
    if i < 0 then (if n + i < 0 then 0 else n + i) else if i > n then n else i
  }

  /** `s.slice(b, e)`. */
  function Slice<T>(s: seq<T>, b: int, e: int): seq<T> {
    var lo, hi := SliceIndex(b, |s|), SliceIndex(e, |s|);
    if lo < hi then s[lo..hi] else []
  }

  /** The rows shown on page `page`. */
  function Page<T>(s: seq<T>, page: int): (r: seq<T>)
    ensures |r| <= ItemsPerPage
  {
    Slice(s, (page - 1) * ItemsPerPage, (page - 1) * ItemsPerPage + ItemsPerPage)
  }

  /** `handlePageChange(page)`: move to `page` only when it is one of the pages. */
  function PageChange(current: int, page: int, n: nat): (r: int)
    ensures 1 <= page <= TotalPages(n) ==> r == page
    ensures !(1 <= page <= TotalPages(n)) ==> r == current
  {
    if page >= 1 && page <= TotalPages(n) then page else current
  }

  /** A page change never leaves `1..totalPages` once inside it, and then shows rows. */
  lemma PageChangeStaysInRange<T>(s: seq<T>, current: int, page: int)
    requires 1 <= current <= TotalPages(|s|)
    ensures 1 <= PageChange(current, page, |s|) <= TotalPages(|s|)
    ensures Page(s, PageChange(current, page, |s|)) != []
  {
    PageInRange(s, PageChange(current, page, |s|));
  }

  function Min(a: int, b: int): int {
    if a <= b then a else b
  }

  /** A page inside `1..TotalPages` is a non-empty run of consecutive rows starting at `(page-1)*8`. */
  lemma PageInRange<T>(s: seq<T>, page: int)
    requires 1 <= page <= TotalPages(|s|)
    ensures (page - 1) * ItemsPerPage < |s|
    ensures Page(s, page) == s[(page - 1) * ItemsPerPage..Min(page * ItemsPerPage, |s|)]
    ensures Page(s, page) != []
  {
    var p := TotalPages(|s|);
    assert (page - 1) * ItemsPerPage <= (p - 1) * ItemsPerPage;
  }

  /** A page past the last one is empty (the state a search or a delete can leave behind). */
  lemma PageBeyondEnd<T>(s: seq<T>, page: int)
    requires page > TotalPages(|s|)
    ensures Page(s, page) == []
  {
    var p := TotalPages(|s|);
    assert (page - 1) * ItemsPerPage >= p * ItemsPerPage;
  }

  /** Pages 1..k laid end to end. */
  function PagesUpTo<T>(s: seq<T>, k: nat): seq<T> {
    if k == 0 then [] else PagesUpTo(s, k - 1) + Page(s, k)
  }

  /** Pages 1..k together are the first `min(8k, n)` rows. */
  lemma {:induction false} PagesUpToPrefix<T>(s: seq<T>, k: nat)
    ensures PagesUpTo(s, k) == s[..Min(k * ItemsPerPage, |s|)]
  {
    if k > 0 {
      PagesUpToPrefix(s, k - 1);
      var lo := Min((k - 1) * ItemsPerPage, |s|);
      var hi := Min(k * ItemsPerPage, |s|);
      if (k - 1) * ItemsPerPage < |s| {
        assert Page(s, k) == s[lo..hi];
      } else {
        assert Page(s, k) == [];
        assert lo == hi;
      }
      assert s[..lo] + s[lo..hi] == s[..hi];
    }
  }

  /** Walking through all pages shows every row exactly once, in order. */
  lemma PagesCoverList<T>(s: seq<T>)
    ensures PagesUpTo(s, TotalPages(|s|)) == s
  {
    PagesUpToPrefix(s, TotalPages(|s|));
  }
}
