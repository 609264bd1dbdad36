/** Offset pagination as the list endpoints use it: a page number and a
    page size give a skip/take window over an ordered result, and the page
    count is the ceiling of the row count divided by the page size. */
module Paging {

  /** `Math.ceil(total / size)` on non-negative integers: the least number of
      pages of `size` rows that hold `total` rows. */
  function PageCount(total: nat, size: nat): (n: nat)
    requires size > 0
    ensures total <= n * size < total + size
  {
    var n := (total + size - 1) / size;
    assert total + size - 1 == n * size + (total + size - 1) % size;
    n
  }

  /** The offset of a 1-based page: `(page - 1) * size`. */
  function Skip(page: int, size: int): (skip: nat)
    requires page >= 1 && size >= 0
    ensures skip == (page - 1) * size
  {
    MulNonNegative(page - 1, size);
    (page - 1) * size
  }

  lemma MulNonNegative(a: int, b: int)
    requires a >= 0 && b >= 0
    ensures a * b >= 0
  {}

  /** The rows a store returns for `skip` and `take`: the first `skip` rows are
      passed over and at most `take` of the rest are kept. */
  function Window<T>(s: seq<T>, skip: nat, take: nat): (r: seq<T>)
    ensures |r| == if skip >= |s| then 0 else if take <= |s| - skip then take else |s| - skip
    ensures forall k :: 0 <= k < |r| ==> skip + k < |s| && r[k] == s[skip + k]
  {
    if skip >= |s| then [] else s[skip .. if take <= |s| - skip then skip + take else |s|]
  }

  /** A window of an ordered result is ordered the same way. */
  lemma WindowOrdered<T>(le: (T, T) -> bool, s: seq<T>, skip: nat, take: nat)
    requires forall i, j :: 0 <= i < j < |s| ==> le(s[i], s[j])
    ensures forall i, j :: 0 <= i < j < |Window(s, skip, take)| ==>
      le(Window(s, skip, take)[i], Window(s, skip, take)[j])
  {
    var w := Window(s, skip, take);
    forall i, j | 0 <= i < j < |w| ensures le(w[i], w[j]) {
      assert w[i] == s[skip + i] && w[j] == s[skip + j];
    }
  }

  /** A window holds rows of the result and no row more often than the
      result does. */
  lemma WindowSubMultiset<T>(s: seq<T>, skip: nat, take: nat)
    ensures multiset(Window(s, skip, take)) <= multiset(s)
  {
    var w := Window(s, skip, take);
    if skip < |s| {
      var end := skip + |w|;
      assert s == s[..skip] + w + s[end..];
    }
  }

  lemma MulLeftMonotone(a: int, b: int, c: int)
    requires a <= b && c >= 0
    ensures a * c <= b * c
  {}

  /** A page holds rows exactly when its number is between 1 and the page
      count; every later page is empty. */
  lemma PageHasRowsIff<T>(s: seq<T>, size: nat, page: int)
    requires size > 0 && page >= 1
    ensures Window(s, Skip(page, size), size) != [] <==> page <= PageCount(|s|, size)
  {
    var c := PageCount(|s|, size);
    if page <= c {
      MulLeftMonotone(page - 1, c - 1, size);
      assert (page - 1) * size <= c * size - size;
    } else {
      MulLeftMonotone(c, page - 1, size);
    }
  }

  /** Every row of the ordered result lies on page `k / size + 1`, at position
      `k % size`, and that page is within the page count: the pages cover
      the whole result. */
  lemma RowOnItsPage<T>(s: seq<T>, size: nat, k: nat)
    requires size > 0 && k < |s|
    ensures k / size + 1 <= PageCount(|s|, size)
    ensures k % size < |Window(s, Skip(k / size + 1, size), size)|
    ensures Window(s, Skip(k / size + 1, size), size)[k % size] == s[k]
  {
    var page := k / size + 1;
    assert k == (k / size) * size + k % size;
    assert Skip(page, size) == (k / size) * size;
    PageHasRowsIff(s, size, page);
  }

  /** Twelve rows in pages of five: three pages, the second holding rows 5 to 9;
      no rows give no pages. */
  lemma TwelveRowsInPagesOfFive<T>(s: seq<T>)
    requires |s| == 12
    ensures PageCount(|s|, 5) == 3 && PageCount(0, 5) == 0
    ensures Window(s, Skip(2, 5), 5) == s[5..10]
    ensures Window(s, Skip(4, 5), 5) == []
  {}
}
