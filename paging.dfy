/** The pagination arithmetic of the listings: `.skip(n).limit(k)` and `Math.ceil(count / limit)`. */
module Paging {

  function Min(a: int, b: int): (r: int)
    ensures r <= a && r <= b && (r == a || r == b)
  {
    if a <= b then a else b
  }

  /**
    The documents that `.skip(skip).limit(limit)` lets through, for a positive
    limit: element i of the page is element skip + i of the sorted result set.
  */
  function Window<T>(s: seq<T>, skip: nat, limit: nat): (r: seq<T>)
    ensures |r| <= limit
    ensures |r| == if skip >= |s| then 0 else Min(limit, |s| - skip)
    ensures forall i :: 0 <= i < |r| ==> r[i] == s[skip + i]
  {
    if skip >= |s| then []
    else if |s| - skip <= limit then s[skip..]
    else s[skip..skip + limit]
  }

  /**
    `Math.ceil(n / d)` on non-negative integers: the fewest pages of `d`
    documents that hold `n` documents.
  */
  function CeilDiv(n: nat, d: nat): (r: nat)
    requires d > 0
    ensures n <= r * d < n + d
  {
    (n + d - 1) / d
  }

  /** The bound in CeilDiv's contract pins the page count down. */
  lemma CeilDivUnique(n: nat, d: nat, q: nat)
    requires d > 0
    requires n <= q * d < n + d
    ensures q == CeilDiv(n, d)
  {
    var r := CeilDiv(n, d);
    if q < r {
      MulGap(q, r, d);
    } else if r < q {
      MulGap(r, q, d);
    }
  }

  /** Whole pages differ by at least a page. */
  lemma MulGap(lo: nat, hi: nat, d: nat)
    requires lo < hi
    ensures hi * d >= lo * d + d
  {
    var k: nat := hi - lo - 1;
    assert hi * d == lo * d + d + k * d;
  }
}
