/** How a resource of `total` bytes is cut into numbered parts
    (internal/fetch/download.go, lines 118-145). The source computes in int64, so every sum and
    product below wraps around explicitly. */
module Ranges {

  const TWO63: int := 0x8000_0000_0000_0000
  const TWO64: int := 0x1_0000_0000_0000_0000
  const MAX_INT64: int := TWO63 - 1
  const DEFAULT_PART_SIZE: int := 8 * 1024 * 1024

  /** Two's-complement wrap-around of a 64-bit sum or product. */
  function Wrap64(x: int): int {
    (x + TWO63) % TWO64 - TWO63
  }

  /** Go's division, which truncates toward zero. */
  function Quotient(a: int, b: int): int
    requires b > 0
  {
    if a >= 0 then a / b else -((-a) / b)
  }

  /** The part size in use: a configured size that is not positive means the default. */
  function PartSize(configured: int): (size: int)
    ensures size > 0
    ensures configured <= 0 <==> size != configured
    ensures configured <= 0 ==> size == 8_388_608
  {
    if configured <= 0 then DEFAULT_PART_SIZE else configured
  }

  function PartCount(total: int, size: int): (count: int)
    requires 0 < total && 0 < size
    ensures count >= 1
  {
    var q := Quotient(Wrap64(total + size - 1), size);
    if q <= 0 then 1 else q
  }

  function Start(size: int, idx: int): int {
    Wrap64(idx * size)
  }

  /** The last byte of the part, inclusive. */
  function End(total: int, size: int, idx: int): int {
    var end := Wrap64(Start(size, idx) + size - 1);
    if end >= total then total - 1 else end
  }

  /** A resource and a part size that fit the source's int64 variables. */
  predicate Sizes(total: int, size: int) {
    0 < total <= MAX_INT64 && 0 < size <= MAX_INT64
  }

  function Min(a: int, b: int): int {
    if a <= b then a else b
  }

  /** The bytes from `from` to `to`, both inclusive. */
  datatype Range = Range(from: int, to: int)

  /** All parts, as the workers compute them from the indices the producer sends. */
  function Plan(total: int, size: int): (plan: seq<Range>)
    requires 0 < total && 0 < size
  {
    seq(PartCount(total, size), i => Range(Start(size, i), End(total, size, i)))
  }

  /** The parts are non-empty, lie within the resource, and follow each other from byte 0 on. */
  ghost predicate Chained(plan: seq<Range>, total: int) {
    && |plan| > 0 && plan[0].from == 0
    && (forall i | 0 <= i < |plan| :: 0 <= plan[i].from <= plan[i].to < total)
    && (forall i | 0 < i < |plan| :: plan[i].from == plan[i - 1].to + 1)
  }

  /** The number of bytes in the first `n` parts of a chained plan. */
  function Covered(plan: seq<Range>, n: nat): int
    requires n <= |plan|
  {
    if n == 0 then 0 else plan[n - 1].to + 1
  }

  ghost predicate Tiles(plan: seq<Range>, total: int) {
    Chained(plan, total) && Covered(plan, |plan|) == total
  }

  lemma SmallProduct(idx: int, size: int, total: int)
    requires 0 < size && 0 <= idx < (total + size - 1) / size
    ensures 0 <= idx * size < total
  {
    var q := (total + size - 1) / size;
    assert q * size <= total + size - 1;
    assert (idx + 1) * size <= q * size;
    assert (idx + 1) * size == idx * size + size;
    assert 0 <= idx * size;
  }

  lemma WrapCases(x: int)
    requires 0 <= x < TWO64
    ensures Wrap64(x) == if x <= MAX_INT64 then x else x - TWO64
  {
    if x <= MAX_INT64 {
      assert (x + TWO63) / TWO64 == 0;
    } else {
      assert (x + TWO63) / TWO64 == 1;
    }
  }

  /** The remainder of Go's division has the sign of the dividend. */
  lemma QuotientTruncates(a: int, b: int)
    requires b > 0
    ensures var rest := a - Quotient(a, b) * b;
            if a >= 0 then 0 <= rest < b else -b < rest <= 0
  {
    if a < 0 {
      assert -a == (-a) / b * b + (-a) % b;
    } else {
      assert a == a / b * b + a % b;
    }
  }

  lemma QuotientSign(a: int, b: int)
    requires b > 0
    ensures a < 0 ==> Quotient(a, b) <= 0
    ensures a >= b ==> Quotient(a, b) >= 1
  {
  }

  lemma CountCases(total: int, size: int)
    requires Sizes(total, size)
    ensures total + size - 1 <= MAX_INT64 ==> PartCount(total, size) == (total + size - 1) / size
    ensures total + size - 1 > MAX_INT64 ==> PartCount(total, size) == 1
  {
    WrapCases(total + size - 1);
    QuotientSign(Wrap64(total + size - 1), size);
  }

  /** For the indices the producer sends, the wrapping arithmetic is the plain arithmetic. */
  lemma PartBounds(total: int, size: int, idx: int)
    requires Sizes(total, size) && 0 <= idx < PartCount(total, size)
    ensures Start(size, idx) == idx * size
    ensures End(total, size, idx) + 1 == Min((idx + 1) * size, total)
    ensures 0 <= Start(size, idx) <= End(total, size, idx) < total
  {
    CountCases(total, size);
    assert (idx + 1) * size == idx * size + size;
    if total + size - 1 <= MAX_INT64 {
      SmallProduct(idx, size, total);
    } else {
      assert idx == 0;
      assert idx * size == 0;
    }
    WrapCases(idx * size);
    WrapCases(idx * size + size - 1);
  }

  lemma PlanChained(total: int, size: int)
    requires Sizes(total, size)
    ensures Chained(Plan(total, size), total)
  {
    var plan := Plan(total, size);
    forall i | 0 <= i < |plan|
      ensures 0 <= plan[i].from <= plan[i].to < total
      ensures 0 < i ==> plan[i].from == plan[i - 1].to + 1
    {
      PartBounds(total, size, i);
      if 0 < i {
        PartBounds(total, size, i - 1);
      }
    }
    PartBounds(total, size, 0);
  }

  lemma RoundsUp(total: int, size: int)
    requires 0 < size
    ensures total <= (total + size - 1) / size * size
  {
    var sum := total + size - 1;
    assert sum == sum / size * size + sum % size;
  }

  /** The ranges tile the resource exactly when the rounding sum fits in int64, or one part is enough. */
  lemma TilesIff(total: int, size: int)
    requires Sizes(total, size)
    ensures Tiles(Plan(total, size), total) <==> total + size - 1 <= MAX_INT64 || total <= size
  {
    PlanChained(total, size);
    PartBounds(total, size, PartCount(total, size) - 1);
    CountCases(total, size);
    if total + size - 1 <= MAX_INT64 {
      RoundsUp(total, size);
    }
  }

  /** A resource of the largest int64 length is planned as a single eight-megabyte part. */
  lemma HugeTotalIsCutShort()
    ensures Plan(0x7FFF_FFFF_FFFF_FFFF, 8_388_608) == [Range(0, 8_388_607)]
    ensures !Tiles(Plan(0x7FFF_FFFF_FFFF_FFFF, 8_388_608), 0x7FFF_FFFF_FFFF_FFFF)
  {
    CountCases(MAX_INT64, DEFAULT_PART_SIZE);
    TilesIff(MAX_INT64, DEFAULT_PART_SIZE);
  }
}
