/**
  Fixed-size pagination of the admin lead list: the page count, the slice of
  the sorted list a page shows, the previous/next clamps and the
  "Mostrando a a b de n leads" label.
 */
module Pagination {

  /** `ITEMS_PER_PAGE`. */
  const ItemsPerPage: nat := 10

  function Min(a: int, b: int): int {
    if a <= b then a else b
  }

  function Max(a: int, b: int): int {
    if a >= b then a else b
  }

  /** `Math.ceil(n / ITEMS_PER_PAGE)`: the fewest pages that hold `n` items. */
  function TotalPages(n: nat): (r: nat)
    ensures r * ItemsPerPage >= n
    ensures r == 0 || (r - 1) * ItemsPerPage < n
  {
    (n + ItemsPerPage - 1) / ItemsPerPage
  }

  /** The page count is zero exactly for the empty list. */
  lemma TotalPagesZero(n: nat)
    ensures TotalPages(n) == 0 <==> n == 0
  {
  }

  /**
    How `Array.prototype.slice` reads an index: a negative one counts back
    from the end, and the result is clamped to `[0, len]`.
   */
  function RelativeIndex(k: int, len: nat): (r: nat)
    ensures r <= len
    ensures 0 <= k ==> r == Min(k, len)
  {
    if k < 0 then Max(len + k, 0) else Min(k, len)
  }

  /**
    Reading two indices never widens the gap between them. (It need not keep
    their order: on a list of five, -1 reads as 4 and 0 as 0.)
   */
  lemma RelativeIndexGap(a: int, b: int, len: nat)
    requires a <= b
    ensures RelativeIndex(b, len) - RelativeIndex(a, len) <= b - a
  {
    var ra, rb := RelativeIndex(a, len), RelativeIndex(b, len);
    if b < 0 {
      assert ra == Max(len + a, 0) && rb == Max(len + b, 0);
    } else if a < 0 {
      assert ra == Max(len + a, 0) && rb == Min(b, len);
    } else {
      assert ra == Min(a, len) && rb == Min(b, len);
    }
  }

  /** `Array.prototype.slice(start, end)`. */
  function JsSlice<T>(s: seq<T>, start: int, end: int): (r: seq<T>)
    ensures |r| <= |s|
    ensures exists i, j :: 0 <= i <= j <= |s| && r == s[i..j]
  {
    var from := RelativeIndex(start, |s|);
    var to := RelativeIndex(end, |s|);
    if from < to then s[from..to] else assert s[0..0] == []; []
  }

  /** From a non-negative start, `slice` takes the items between the two indices clipped to the list. */
  lemma JsSliceNonNegative<T>(s: seq<T>, start: int, end: int)
    requires 0 <= start <= end
    ensures JsSlice(s, start, end) == s[Min(start, |s|)..Min(end, |s|)]
  {
  }

  /** A slice never holds more items than the distance between its bounds. */
  lemma JsSliceWidth<T>(s: seq<T>, start: int, end: int)
    requires start <= end
    ensures |JsSlice(s, start, end)| <= end - start
  {
    RelativeIndexGap(start, end, |s|);
  }

  /** `paginatedLeads`: what page `p` shows, for any page number at all. */
  function PageOf<T>(s: seq<T>, p: int): (r: seq<T>)
    ensures |r| <= ItemsPerPage
  {
    JsSliceWidth(s, (p - 1) * ItemsPerPage, p * ItemsPerPage);
    JsSlice(s, (p - 1) * ItemsPerPage, p * ItemsPerPage)
  }

  /** A page shows only items of the list. */
  lemma PageMember<T>(s: seq<T>, p: int, x: T)
    requires x in PageOf(s, p)
    ensures x in s
  {
    var from := RelativeIndex((p - 1) * ItemsPerPage, |s|);
    var to := RelativeIndex(p * ItemsPerPage, |s|);
    var page := PageOf(s, p);
    assert page == (if from < to then s[from..to] else []);
    var k :| 0 <= k < |page| && page[k] == x;
    assert s[from + k] == x;
  }

  /** Page `p` (from 1) shows the items `(p-1)*10 .. min(p*10, n)` of the list. */
  lemma PageContents<T>(s: seq<T>, p: int)
    requires 1 <= p
    ensures PageOf(s, p) == s[Min((p - 1) * ItemsPerPage, |s|)..Min(p * ItemsPerPage, |s|)]
  {
    JsSliceNonNegative(s, (p - 1) * ItemsPerPage, p * ItemsPerPage);
  }

  /** Every page up to the page count shows something, and no later page does. */
  lemma PageNonEmpty<T>(s: seq<T>, p: int)
    requires 1 <= p
    ensures PageOf(s, p) != [] <==> p <= TotalPages(|s|)
  {
    PageContents(s, p);
  }

  /** Pages 1 to `k` in order, concatenated. */
  function FirstPages<T>(s: seq<T>, k: nat): (r: seq<T>)
    ensures |r| <= k * ItemsPerPage
  {
    if k == 0 then [] else FirstPages(s, k - 1) + PageOf(s, k)
  }

  /** The first `k` pages are exactly the first `k * 10` items (or all of them). */
  lemma {:induction false} FirstPagesPrefix<T>(s: seq<T>, k: nat)
    ensures FirstPages(s, k) == s[..Min(k * ItemsPerPage, |s|)]
  {
    if k > 0 {
      FirstPagesPrefix(s, k - 1);
      PageContents(s, k);
      var a := Min((k - 1) * ItemsPerPage, |s|);
      var b := Min(k * ItemsPerPage, |s|);
      assert s[..a] + s[a..b] == s[..b];
    }
  }

  /** Reading every page in order gives back the whole list, with nothing lost or repeated. */
  lemma AllPages<T>(s: seq<T>)
    ensures FirstPages(s, TotalPages(|s|)) == s
  {
    FirstPagesPrefix(s, TotalPages(|s|));
  }

  /** The previous-page button: one page back, never below page 1. */
  function Prev(p: int): (r: int)
    ensures r >= 1
    ensures p > 1 ==> r < p
    ensures p >= 1 ==> p - r <= 1
    ensures p <= 1 ==> r == 1
  {
    Max(1, p - 1)
  }

  /** The next-page button: one page on, never beyond the last page. */
  function Next(p: int, totalPages: int): (r: int)
    ensures r <= totalPages
    ensures p < totalPages ==> r > p
    ensures p <= totalPages ==> r - p <= 1
    ensures p >= totalPages ==> r == totalPages
  {
    Min(totalPages, p + 1)
  }

  /** A valid page number: from 1 to the page count. */
  predicate InRange(p: int, totalPages: int) {
    1 <= p <= totalPages
  }

  /**
    Both buttons keep a valid page valid, and the one that is disabled
    (previous on the first page, next on the last) would leave the page as it
    is.
   */
  lemma ClampsKeepRange(p: int, totalPages: int)
    requires InRange(p, totalPages)
    ensures InRange(Prev(p), totalPages)
    ensures InRange(Next(p, totalPages), totalPages)
    ensures p == 1 ==> Prev(p) == p
    ensures p == totalPages ==> Next(p, totalPages) == p
  {
  }

  /** "Mostrando {first} a {last} de {total} leads". */
  datatype Range = Range(first: int, last: int, total: nat)

  function Label(p: int, n: nat): (r: Range)
    ensures r.total == n
    ensures r.last <= n
  {
    Range((p - 1) * ItemsPerPage + 1, Min(p * ItemsPerPage, n), n)
  }

  /**
    On a valid page the label tells the truth: it counts from 1, the page
    shows exactly the items `first` to `last` of the list, and there are
    `last - first + 1` of them.
   */
  lemma LabelDescribesPage<T>(s: seq<T>, p: int)
    requires InRange(p, TotalPages(|s|))
    ensures var l := Label(p, |s|);
      && 1 <= l.first <= l.last <= l.total
      && l.first - 1 == (p - 1) * ItemsPerPage
      && l.last == Min(p * ItemsPerPage, |s|)
      && PageOf(s, p) == s[l.first - 1..l.last]
      && |PageOf(s, p)| == l.last - l.first + 1
  {
    PageContents(s, p);
  }
}
