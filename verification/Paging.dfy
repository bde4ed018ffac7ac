/** Paging: app/core/pagination.py and app/core/response.py.  Page counts go through a floating-point division. */
module Paging {
  import opened Prelude

  // ---------------------------------------------------------------- IEEE 754 double division

  const TWO_53: int := 9_007_199_254_740_992

  function Pow2(e: nat): (p: nat)
    ensures p > e
  {
    if e == 0 then 1 else 2 * Pow2(e - 1)
  }

  /** The finite doubles: a 53-bit significand scaled by a power of two (section 3.4 of IEEE 754-2019). */
  ghost predicate IsDouble(x: real) {
    exists m: int, e: nat :: -TWO_53 < m < TWO_53 && IsScaled(x, m, e)
  }

  ghost predicate IsScaled(x: real, m: int, e: nat) {
    (e <= 971 && x == m as real * Pow2(e) as real) || (e <= 1074 && x == m as real / Pow2(e) as real)
  }

  function Abs(x: real): real {
    if x < 0.0 then -x else x
  }

  /** `r` is a correctly rounded `q` (section 4.3.1): no double is nearer. */
  ghost predicate RoundsTo(q: real, r: real) {
    IsDouble(r) && forall x :: IsDouble(x) ==> Abs(r - q) <= Abs(x - q)
  }

  /** `math.ceil` */
  function Ceil(x: real): int {
    -((-x).Floor)
  }

  function CeilDiv(total: nat, size: nat): nat
    requires 0 < size
  {
    (total + size - 1) / size
  }

  lemma MulMonotone(a: int, b: int, c: nat)
    requires a <= b
    ensures a * c <= b * c
  {
  }

  lemma CeilDivBounds(total: nat, size: nat)
    requires 0 < size
    ensures var n := CeilDiv(total, size); (n - 1) * size < total <= n * size && n <= total
  {
    var n, a := CeilDiv(total, size), total + size - 1;
    assert a == n * size + a % size;
    assert (n - 1) * size == n * size - size;
    assert (total + 1) * size == total * size + size;
    MulMonotone(1, size, total);
    if n > total {
      MulMonotone(total + 1, n, size);
    }
  }

  /** The power of two at or below the page size. */
  function Log2(size: nat): (j: nat)
    requires 0 < size
    ensures Pow2(j) <= size < Pow2(j + 1)
  {
    if size == 1 then 0 else Log2(size / 2) + 1
  }

  lemma {:induction false} Pow2AtLeast(j: nat)
    requires 53 <= j
    ensures TWO_53 <= Pow2(j)
  {
    if j == 53 {
      assert Pow2(10) == 1024;
      assert Pow2(20) == 1024 * Pow2(10);
      assert Pow2(30) == 1024 * Pow2(20);
      assert Pow2(40) == 1024 * Pow2(30);
      assert Pow2(50) == 1024 * Pow2(40);
      assert Pow2(53) == 8 * Pow2(50);
    } else {
      Pow2AtLeast(j - 1);
    }
  }

  lemma Log2Below53(size: nat)
    requires 0 < size < TWO_53
    ensures Log2(size) < 53
  {
    if 53 <= Log2(size) {
      Pow2AtLeast(Log2(size));
    }
  }

  lemma RealMulStrict(a: real, b: real, c: real)
    requires a < b && 0.0 < c
    ensures a * c < b * c
  {
  }

  lemma RealMulCancel(a: real, b: real, c: real)
    requires a * c < b * c && 0.0 < c
    ensures a < b
  {
  }

  /** One unit of `1/p` is less than twice a gap of at least `1/size`, when `size < 2 * p`. */
  lemma UnitBelowDoubleGap(u: real, d: real, p: real, size: real)
    requires 0.0 < p && u * p == 1.0 && 0.0 < size < 2.0 * p && 1.0 <= d * size
    ensures 0.0 < u < 2.0 * d
  {
    assert 0.0 < u by {
      RealMulCancel(0.0, u, p);
    }
    RealMulStrict(size, 2.0 * p, u);
    assert (2.0 * p) * u == 2.0 * (u * p) == 2.0;
    assert (2.0 * d) * size == 2.0 * (d * size);
    RealMulCancel(u, 2.0 * d, size);
  }

  lemma Quotient(total: int, size: nat)
    requires 0 < size
    ensures (total as real / size as real) * size as real == total as real
  {
  }

  lemma MulAsReal(a: int, b: int)
    ensures (a * b) as real == a as real * b as real
  {
  }

  /** The gap between the quotient and an integer below it is at least 1/size. */
  lemma GapAtLeastUnit(total: nat, size: nat, k: nat)
    requires 0 < size && k * size < total
    ensures 1.0 <= (total as real / size as real - k as real) * size as real
  {
    var q, z := total as real / size as real, size as real;
    Quotient(total, size);
    MulAsReal(k, size);
    assert (q - k as real) * z == q * z - k as real * z;
    assert (q - k as real) * z == (total - k * size) as real;
  }

  /** Just above an integer `k` below the quotient there is a double nearer to the quotient than `k` is. */
  lemma DoubleNearQuotient(total: nat, size: nat, k: nat) returns (s: real)
    requires 0 < size < TWO_53 && k * size < total < TWO_53
    ensures IsDouble(s)
    ensures var q := total as real / size as real; k as real < s && s - k as real < 2.0 * (q - k as real)
  {
    var j := Log2(size);
    s := k as real + 1.0 / Pow2(j) as real;
    BelowTotal(total, size, k, Pow2(j));
    Log2Below53(size);
    DoubleJustAbove(k, j);
    GapDominates(total, size, k, Pow2(j));
  }

  lemma BelowTotal(total: nat, size: nat, k: nat, p: nat)
    requires k * size < total && p <= size
    ensures k * p + 1 <= total
  {
    MulMonotone(p, size, k);
  }

  lemma GapDominates(total: nat, size: nat, k: nat, p: nat)
    requires 0 < p <= size < 2 * p && k * size < total
    ensures 0.0 < 1.0 / p as real < 2.0 * (total as real / size as real - k as real)
  {
    Quotient(1, p);
    GapAtLeastUnit(total, size, k);
    UnitBelowDoubleGap(1.0 / p as real, total as real / size as real - k as real, p as real, size as real);
  }

  lemma UnitFraction(k: nat, p: nat)
    requires 0 < p
    ensures (k * p + 1) as real / p as real == k as real + 1.0 / p as real
  {
    Quotient(1, p);
    Quotient(k * p + 1, p);
    MulAsReal(k, p);
    SplitUnit((k * p + 1) as real / p as real, k as real, 1.0 / p as real, p as real);
  }

  lemma DoubleJustAbove(k: nat, j: nat)
    requires j <= 1074 && k * Pow2(j) + 1 < TWO_53
    ensures IsDouble(k as real + 1.0 / Pow2(j) as real)
  {
    UnitFraction(k, Pow2(j));
    assert IsScaled(k as real + 1.0 / Pow2(j) as real, k * Pow2(j) + 1, j);
  }

  lemma SplitUnit(s: real, k: real, u: real, p: real)
    requires 0.0 < p && s * p == k * p + 1.0 && u * p == 1.0
    ensures s == k + u
  {
    assert (s - k - u) * p == s * p - k * p - u * p == 0.0;
    if s - k - u > 0.0 {
      RealMulStrict(0.0, s - k - u, p);
    } else if s - k - u < 0.0 {
      RealMulStrict(s - k - u, 0.0, p);
    }
  }

  /** The ceiling of the rounded quotient is the exact one, for every total below 2^53. */
  lemma CeilingIsExact(total: nat, size: nat, r: real)
    requires 0 < size < TWO_53 && total < TWO_53
    requires RoundsTo(total as real / size as real, r)
    ensures Ceil(r) == CeilDiv(total, size)
  {
    var q := total as real / size as real;
    var n := CeilDiv(total, size);
    CeilDivBounds(total, size);
    assert IsScaled(n as real, n, 0);
    assert IsDouble(n as real);
    QuotientAtMost(total, size, n);
    if total == 0 {
      assert n * size == 0 || n == 0;
      Quotient(0, size);
      NearestToZero(q, r);
    } else {
      var s := DoubleNearQuotient(total, size, n - 1);
      NearestIsBetween(q, r, s, (n - 1) as real, n as real);
      CeilBetween(r, n);
    }
  }

  lemma QuotientAtMost(total: nat, size: nat, n: nat)
    requires 0 < size && total <= n * size
    ensures total as real / size as real <= n as real
  {
    var q, z := total as real / size as real, size as real;
    Quotient(total, size);
    MulAsReal(n, size);
    if q > n as real {
      RealMulStrict(n as real, q, z);
    }
  }

  lemma NearestToZero(q: real, r: real)
    requires q == 0.0 && RoundsTo(q, r)
    ensures r == 0.0
  {
    assert IsScaled(0.0, 0, 0);
    assert IsDouble(0.0);
    assert Abs(r - q) <= Abs(0.0 - q);
  }

  lemma NearestIsBetween(q: real, r: real, s: real, lo: real, hi: real)
    requires RoundsTo(q, r) && IsDouble(s) && IsDouble(hi)
    requires q <= hi && lo < s && s - lo < 2.0 * (q - lo)
    ensures lo < r <= hi
  {
    assert Abs(r - q) <= Abs(s - q) && Abs(r - q) <= Abs(hi - q);
  }

  lemma CeilBetween(r: real, n: int)
    requires (n - 1) as real < r <= n as real
    ensures Ceil(r) == n
  {
  }

  // ---------------------------------------------------------------- pages

  datatype PageParams = PageParams(page: nat, size: nat)

  /** FastAPI holds page sizes to 1..100; what follows needs less. */
  ghost predicate Accepted(params: PageParams) {
    1 <= params.size < TWO_53
  }

  datatype Page<T> = Page(content: seq<T>, page: nat, size: nat, totalElements: nat, totalPages: nat, hasNext: bool, hasPrevious: bool)

  /** `max(1, math.ceil(total / size)) if size else 0`, over the rounded quotient. */
  function TotalPages(size: nat, quotient: real): nat {
    if size == 0 then 0 else if Ceil(quotient) < 1 then 1 else Ceil(quotient)
  }

  /** Page.build */
  function Build<T>(content: seq<T>, params: PageParams, total: nat, quotient: real): Page<T> {
    var pages := TotalPages(params.size, quotient);
    Page(content, params.page, params.size, total, pages, params.page + 1 < pages, params.page > 0)
  }

  /** PageResponse.of, which the endpoints apply to the fields of a built page. */
  function Of<T>(content: seq<T>, page: nat, size: nat, total: nat, quotient: real): Page<T> {
    var pages := if size > 0 then (if Ceil(quotient) < 1 then 1 else Ceil(quotient)) else 0;
    Page(content, page, size, total, pages, page + 1 < pages, page > 0)
  }

  ghost predicate Rounded(total: nat, size: nat, quotient: real) {
    0 < size && RoundsTo(total as real / size as real, quotient)
  }

  function ExactPages(total: nat, size: nat): nat
    requires 0 < size
  {
    if total == 0 then 1 else CeilDiv(total, size)
  }

  lemma TotalPagesIsExact(total: nat, size: nat, quotient: real)
    requires size < TWO_53 && total < TWO_53 && Rounded(total, size, quotient)
    ensures TotalPages(size, quotient) == ExactPages(total, size)
  {
    CeilingIsExact(total, size, quotient);
    CeilDivBounds(total, size);
  }

  /** The envelope recomputes the page count with a division of its own and gets the same page. */
  lemma EnvelopeAgrees<T>(content: seq<T>, params: PageParams, total: nat, q1: real, q2: real)
    requires params.size > 0 ==>
               params.size < TWO_53 && total < TWO_53 && Rounded(total, params.size, q1) && Rounded(total, params.size, q2)
    ensures var p := Build(content, params, total, q1);
            Of(p.content, p.page, p.size, p.totalElements, q2) == p
  {
    if params.size > 0 {
      TotalPagesIsExact(total, params.size, q1);
      TotalPagesIsExact(total, params.size, q2);
    }
  }

  // ---------------------------------------------------------------- walking the pages

  function Min(a: nat, b: nat): nat {
    if a < b then a else b
  }

  /** OFFSET page * size LIMIT size over a fixed, totally ordered result. */
  function Fetch<T>(rows: seq<T>, params: PageParams): seq<T> {
    var offset := params.page * params.size;
    rows[Min(offset, |rows|)..Min(offset + params.size, |rows|)]
  }

  function Search<T>(rows: seq<T>, params: PageParams, quotient: real): Page<T> {
    Build(Fetch(rows, params), params, |rows|, quotient)
  }

  /** A client that starts at a page and follows `has_next`. */
  function Walk<T>(rows: seq<T>, params: PageParams, quotient: real): seq<Page<T>>
    decreases TotalPages(params.size, quotient) - params.page
  {
    var p := Search(rows, params, quotient);
    [p] + if p.hasNext then Walk(rows, params.(page := params.page + 1), quotient) else []
  }

  function Concat<T>(pages: seq<Page<T>>): seq<T> {
    if pages == [] then [] else pages[0].content + Concat(pages[1..])
  }

  lemma {:induction false} WalkFrom<T>(rows: seq<T>, params: PageParams, quotient: real)
    requires Accepted(params) && |rows| < TWO_53 && Rounded(|rows|, params.size, quotient)
    requires params.page < ExactPages(|rows|, params.size)
    ensures |Walk(rows, params, quotient)| == ExactPages(|rows|, params.size) - params.page
    ensures Concat(Walk(rows, params, quotient)) == rows[Min(params.page * params.size, |rows|)..]
    decreases ExactPages(|rows|, params.size) - params.page
  {
    TotalPagesIsExact(|rows|, params.size, quotient);
    var p := Search(rows, params, quotient);
    var next := params.(page := params.page + 1);
    PageBounds(|rows|, params);
    if p.hasNext {
      WalkFrom(rows, next, quotient);
      assert Walk(rows, params, quotient)[1..] == Walk(rows, next, quotient);
      FetchThenRest(rows, params);
    } else {
      assert Walk(rows, params, quotient) == [p];
      assert [p][1..] == [];
    }
  }

  lemma PageBounds(total: nat, params: PageParams)
    requires Accepted(params) && params.page < ExactPages(total, params.size)
    ensures (params.page + 1) * params.size == params.page * params.size + params.size
    ensures params.page + 1 == ExactPages(total, params.size) ==> total <= params.page * params.size + params.size
  {
    CeilDivBounds(total, params.size);
  }

  lemma FetchThenRest<T>(rows: seq<T>, params: PageParams)
    requires (params.page + 1) * params.size == params.page * params.size + params.size
    ensures Fetch(rows, params) + rows[Min((params.page + 1) * params.size, |rows|)..] == rows[Min(params.page * params.size, |rows|)..]
  {
  }

  /** Following `has_next` from page 0 ends after exactly `total_pages` pages, whose contents are the whole list. */
  lemma WalkIsComplete<T>(rows: seq<T>, size: nat, quotient: real)
    requires Accepted(PageParams(0, size)) && |rows| < TWO_53 && Rounded(|rows|, size, quotient)
    ensures var pages := Walk(rows, PageParams(0, size), quotient);
            && |pages| == TotalPages(size, quotient)
            && Concat(pages) == rows
            && forall i :: 0 <= i < |pages| ==> pages[i].totalPages == |pages| && pages[i].totalElements == |rows|
  {
    CeilDivBounds(|rows|, size);
    TotalPagesIsExact(|rows|, size, quotient);
    WalkFrom(rows, PageParams(0, size), quotient);
    WalkCounts(rows, PageParams(0, size), quotient);
    assert Min(0 * size, |rows|) == 0;
  }

  lemma {:induction false} WalkCounts<T>(rows: seq<T>, params: PageParams, quotient: real)
    ensures forall p :: p in Walk(rows, params, quotient) ==>
              p.totalPages == TotalPages(params.size, quotient) && p.totalElements == |rows|
    decreases TotalPages(params.size, quotient) - params.page
  {
    if params.page + 1 < TotalPages(params.size, quotient) {
      WalkCounts(rows, params.(page := params.page + 1), quotient);
    }
  }

  /** There is a next page exactly when rows remain after this one, and a previous one exactly from the second on. */
  lemma NextPageIffMoreRows<T>(rows: seq<T>, params: PageParams, quotient: real)
    requires Accepted(params) && |rows| < TWO_53 && Rounded(|rows|, params.size, quotient)
    ensures var p := Search(rows, params, quotient);
            && (p.hasNext <==> (params.page + 1) * params.size < |rows|)
            && (p.hasPrevious <==> params.page > 0) && p.page == params.page && p.size == params.size && p.totalElements == |rows|
  {
    TotalPagesIsExact(|rows|, params.size, quotient);
    CeilDivBounds(|rows|, params.size);
    var n, m := CeilDiv(|rows|, params.size), params.page + 1;
    if m < n {
      MulMonotone(m, n - 1, params.size);
    } else {
      MulMonotone(n, m, params.size);
    }
  }
}
