/** Python list slicing and the 1-based pagination both search functions
    apply: page p of size n is s[(p-1)*n : (p-1)*n + n]. */
module Paging {

  /** How Python turns a slice bound into an index of a sequence of length
      n: a negative bound counts from the end, and the result is clamped. */
  function SliceBound(i: int, n: nat): (r: nat)
    ensures r <= n
    ensures 0 <= i <= n ==> r == i
  {
    if i < 0 then (if i + n < 0 then 0 else i + n) else if i > n then n else i
  }

  /** Python's s[i:j]. */
  function PySlice<T>(s: seq<T>, i: int, j: int): seq<T> {
    var a := SliceBound(i, |s|);
    var b := SliceBound(j, |s|);
    if a < b then s[a..b] else []
  }

  function Min(a: int, b: int): int {
    if a < b then a else b
  }

  /** Page `page` (1-based) of `size` elements. */
  function Page<T>(s: seq<T>, page: int, size: int): seq<T> {
    var start := (page - 1) * size;
    PySlice(s, start, start + size)
  }

  /** ceil(n / size): the number of the last page that holds anything. */
  function PageCount(n: nat, size: nat): nat
    requires size >= 1
  {
    (n + size - 1) / size
  }

  /** Pages 1..k concatenated in order. */
  function Pages<T>(s: seq<T>, size: nat, k: nat): seq<T>
    requires size >= 1
  {
    if k == 0 then [] else Pages(s, size, k - 1) + Page(s, k, size)
  }

  /** With a positive size and page, a page is the stretch of s from the
      page's first index to its last, cut off at the end of s, and it holds
      at most `size` elements. */
  lemma PageWindow<T>(s: seq<T>, page: int, size: int)
    requires page >= 1 && size >= 1
    ensures (page - 1) * size >= 0
    ensures Page(s, page, size)
            == s[Min((page - 1) * size, |s|)..Min(page * size, |s|)]
    ensures |Page(s, page, size)| <= size
  {
    var start := (page - 1) * size;
    assert start >= 0 by { MulNonNeg(page - 1, size); }
    assert start + size == page * size;
  }

  /** Everything on a page is an element of s. */
  lemma PageWithin<T>(s: seq<T>, page: int, size: int)
    ensures forall a :: a in Page(s, page, size) ==> a in s
  {
    var a := SliceBound((page - 1) * size, |s|);
    var b := SliceBound((page - 1) * size + size, |s|);
    if a < b {
      forall x | x in s[a..b] ensures x in s {
        var i :| 0 <= i < b - a && s[a..b][i] == x;
        assert s[a + i] == x;
      }
    }
  }

  lemma MulNonNeg(a: int, b: int)
    requires a >= 0 && b >= 0
    ensures a * b >= 0
  {
  }

  /** Pages 1..k together are the first k*size elements. */
  lemma {:induction false} PagesPrefix<T>(s: seq<T>, size: nat, k: nat)
    requires size >= 1
    ensures k * size >= 0
    ensures Pages(s, size, k) == s[..Min(k * size, |s|)]
  {
    MulNonNeg(k, size);
    if k > 0 {
      PagesPrefix(s, size, k - 1);
      PageWindow(s, k, size);
      assert (k - 1) * size + size == k * size;
      var a, b := Min((k - 1) * size, |s|), Min(k * size, |s|);
      assert s[..a] + s[a..b] == s[..b];
    }
  }

  /** The pages 1..PageCount concatenate to s: every element appears on
      exactly one page, in order. */
  lemma PagesPartition<T>(s: seq<T>, size: nat)
    requires size >= 1
    ensures Pages(s, size, PageCount(|s|, size)) == s
  {
    var k := PageCount(|s|, size);
    PagesPrefix(s, size, k);
    assert k * size >= |s| by { CeilTimes(|s|, size); }
  }

  lemma CeilTimes(n: nat, size: nat)
    requires size >= 1
    ensures PageCount(n, size) * size >= n
    ensures n > 0 ==> (PageCount(n, size) - 1) * size < n
  {
    var k := PageCount(n, size);
    var r := (n + size - 1) % size;
    assert k * size + r == n + size - 1;
  }

  /** A page after the last one is empty. */
  lemma PageBeyondLast<T>(s: seq<T>, page: int, size: nat)
    requires size >= 1 && page > PageCount(|s|, size)
    ensures Page(s, page, size) == []
  {
    CeilTimes(|s|, size);
    var k := PageCount(|s|, size);
    assert (page - 1) * size >= k * size by { MulMono(k, page - 1, size); }
    PageWindow(s, page, size);
  }

  /** Every page from the first to the last holds at least one element. */
  lemma PageWithinRangeNonEmpty<T>(s: seq<T>, page: int, size: nat)
    requires size >= 1 && 1 <= page <= PageCount(|s|, size)
    ensures Page(s, page, size) != []
  {
    CeilTimes(|s|, size);
    var k := PageCount(|s|, size);
    assert (page - 1) * size <= (k - 1) * size by { MulMono(page - 1, k - 1, size); }
    PageWindow(s, page, size);
    assert page * size >= 1 by { MulMono(1, page, size); }
  }

  lemma MulMono(a: int, b: int, c: nat)
    requires a <= b
    ensures a * c <= b * c
  {
  }
  /** When s fits on one page, page 1 is all of s and every later page is
      empty. */
  lemma PageOfOnePage<T>(s: seq<T>, page: int, size: int)
    requires size >= 1 && page >= 1 && |s| <= size
    ensures page == 1 ==> Page(s, page, size) == s
    ensures page >= 2 ==> Page(s, page, size) == []
  {
    PageWindow(s, page, size);
    if page >= 2 {
      MulMono(1, page - 1, size);
    }
  }
}
