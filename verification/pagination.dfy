/** Page/page-size parameters and the metadata of a paginated result. */
module Pagination {
  import opened Uint32

  datatype PaginationParams = PaginationParams(page: uint32, pageSize: uint32)

  datatype PaginationResult = PaginationResult(size: uint32, page: uint32, pageSize: uint32, pageCount: uint32)

  const DefaultPage: uint32 := 1
  const DefaultPageSize: uint32 := 10

  /** `exists.Number` on a uint32: the value counts as given when it is not zero. */
  predicate Given(n: uint32)
  {
    n != 0
  }

  /** Replaces an absent page by 1 and an absent page size by 10. */
  function Normalize(p: PaginationParams): (r: PaginationParams)
    ensures Given(r.page) && Given(r.pageSize)
    ensures Given(p.page) ==> r.page == p.page
    ensures Given(p.pageSize) ==> r.pageSize == p.pageSize
    ensures !Given(p.page) ==> r.page == DefaultPage
    ensures !Given(p.pageSize) ==> r.pageSize == DefaultPageSize
  {
    var p1 := if !Given(p.page) then p.(page := DefaultPage) else p;
    if !Given(p1.pageSize) then p1.(pageSize := DefaultPageSize) else p1
  }

  /** Normalizing twice is normalizing once. */
  lemma NormalizeIdempotent(p: PaginationParams)
    ensures Normalize(Normalize(p)) == Normalize(p)
  {
  }

  /** The number of rows a page holds: the page size. */
  function Limit(p: PaginationParams): (r: uint32)
    ensures r == p.pageSize
  {
    p.pageSize
  }

  /** The index of the first row of the page, `pageSize * (page - 1)` in uint32:
      page 1 starts at 0, and page 0 wraps around to `-pageSize` modulo 2^32. */
  function Offset(p: PaginationParams): (r: uint32)
    ensures p.page == 1 ==> r == 0
    ensures p.page >= 1 && p.pageSize * (p.page - 1) < Modulus ==> r == p.pageSize * (p.page - 1)
    ensures p.page == 0 ==> r == (Modulus - p.pageSize) % Modulus
    ensures p.page >= 1 ==> r == (p.pageSize * (p.page - 1)) % Modulus
  {
    WrapBelowZero(p.pageSize);
    Mul(p.pageSize, Sub(p.page, 1))
  }

  /** Normalized parameters always ask for at least one row. */
  lemma NormalizedLimitIsPositive(p: PaginationParams)
    ensures Limit(Normalize(p)) > 0
  {
  }

  /** The product wraps past the first page too: page 3 of 2^31 rows starts
      at row 0 again, the offset of page 1. */
  lemma LargePagesWrapAround()
    ensures Offset(PaginationParams(3, 0x8000_0000)) == 0
    ensures Offset(PaginationParams(3, 0x8000_0000)) == Offset(PaginationParams(1, 0x8000_0000))
  {
    assert 0x8000_0000 * 2 == Modulus;
  }

  /** Multiplying by the wrapped value of `0 - 1` negates modulo 2^32. */
  lemma WrapBelowZero(a: uint32)
    ensures Mul(a, Sub(0, 1)) == (Modulus - a) % Modulus
  {
    assert Sub(0, 1) == Modulus - 1;
    assert a * (Modulus - 1) == (a - 1) * Modulus + (Modulus - a);
    if a == 0 {
    } else {
      assert 0 <= Modulus - a < Modulus;
      ModOfMultiplePlus(a - 1, Modulus - a);
    }
  }

  lemma ModOfMultiplePlus(k: nat, m: nat)
    requires m < Modulus
    ensures (k * Modulus + m) % Modulus == m
  {
  }

  /** Consecutive pages are adjacent windows: page n + 1 starts where page n ends,
      as long as the offsets fit in 32 bits. */
  lemma {:induction false} PagesAreAdjacent(p: PaginationParams)
    requires p.page >= 1
    requires p.page < Modulus - 1
    requires p.pageSize * p.page < Modulus
    ensures Offset(p.(page := p.page + 1)) == Offset(p) + Limit(p)
  {
    var q := p.(page := p.page + 1);
    assert p.pageSize * (p.page - 1) <= p.pageSize * p.page;
    assert Offset(q) == p.pageSize * p.page;
    assert p.pageSize * p.page == p.pageSize * (p.page - 1) + p.pageSize;
  }

  /** `NewPaginationParams` as written: it never stores its arguments. The page
      size stays 0, and an absent page size writes 10 into the page field. */
  function NewPaginationParams(page: uint32, pageSize: uint32): (r: PaginationParams)
    ensures r.pageSize == 0
    ensures !Given(pageSize) ==> r.page == 10
    ensures Given(pageSize) && !Given(page) ==> r.page == 1
    ensures Given(pageSize) && Given(page) ==> r.page == 0
  {
    var params := PaginationParams(0, 0);
    var params1 := if !Given(page) then params.(page := 1) else params;
    if !Given(pageSize) then params1.(page := 10) else params1
  }

  /** The source's constructor loses both arguments: page 3 of size 20 comes
      back as page 0 of size 0, not as the parameters it was given. */
  lemma NewPaginationParamsDropsArguments()
    ensures NewPaginationParams(3, 20) == PaginationParams(0, 0)
    ensures NewPaginationParams(3, 20) != PaginationParams(3, 20)
    ensures Limit(NewPaginationParams(3, 20)) == 0
  {
  }

  /** The constructor as evidently intended: keep given values and default
      absent ones exactly as `Normalize` does. */
  function NewPaginationParamsIntended(page: uint32, pageSize: uint32): (r: PaginationParams)
    ensures Given(page) ==> r.page == page
    ensures Given(pageSize) ==> r.pageSize == pageSize
    ensures !Given(page) ==> r.page == DefaultPage
    ensures !Given(pageSize) ==> r.pageSize == DefaultPageSize
  {
    PaginationParams(if Given(page) then page else DefaultPage,
                     if Given(pageSize) then pageSize else DefaultPageSize)
  }

  /** The intended constructor agrees with normalizing the raw values. */
  lemma IntendedIsNormalize(page: uint32, pageSize: uint32)
    ensures NewPaginationParamsIntended(page, pageSize) == Normalize(PaginationParams(page, pageSize))
  {
  }

  /** Result metadata: size, page and page size copied, and the number of pages
      of `pageSize` rows needed to hold `size` rows. */
  function NewPaginationResult(params: PaginationParams, size: uint32): (r: PaginationResult)
    requires params.pageSize > 0
    ensures r.size == size && r.page == params.page && r.pageSize == params.pageSize
    ensures r.pageCount * params.pageSize >= size
    ensures r.pageCount == 0 || (r.pageCount - 1) * params.pageSize < size
    ensures size == 0 <==> r.pageCount == 0
  {
    var count := CeilDiv(size, params.pageSize);
    PaginationResult(size, params.page, params.pageSize, count)
  }

  /** Integer ceiling of `n / d`. */
  function CeilDiv(n: uint32, d: uint32): (q: uint32)
    requires d > 0
    ensures q * d >= n
    ensures q == 0 || (q - 1) * d < n
    ensures q <= n
  {
    if n == 0 then 0
    else
      CeilDivBounds(n, d, (n - 1) / d, (n - 1) % d);
      (n - 1) / d + 1
  }

  /** With `n - 1 == k * d + m` and `m < d`, `k + 1` pages hold `n` rows and
      `k` do not. */
  lemma CeilDivBounds(n: nat, d: nat, k: nat, m: nat)
    requires n > 0 && d > 0 && m < d && n - 1 == k * d + m
    ensures (k + 1) * d >= n && k * d < n && k + 1 <= n
  {
    assert (k + 1) * d == k * d + d;
    assert k <= k * d;
  }
}
