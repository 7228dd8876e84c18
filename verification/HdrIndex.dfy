/** The log-linear index of HdrHistogram: cells of doubling width, each bucket with the
    same number of cells. */
module HdrIndex {

  import opened Powers

  // ---- Bit lengths ----

  lemma BitLenIs(n: nat, k: nat)
    requires k > 0 && Pow2(k - 1) <= n < Pow2(k)
    ensures BitLen(n) == k
  {
    BitLenBounds(n);
    if BitLen(n) < k { Pow2Mono(BitLen(n), k - 1); }
    if BitLen(n) > k { Pow2Mono(k, BitLen(n) - 1); }
  }

  /** a | b */
  function Or(a: nat, b: nat): nat {
    if a == 0 then b else if b == 0 then a
    else 2 * Or(a / 2, b / 2) + (if a % 2 == 1 || b % 2 == 1 then 1 else 0)
  }

  function Max(a: int, b: int): int {
    if a < b then b else a
  }

  lemma {:induction false} OrBitLen(a: nat, b: nat)
    ensures BitLen(Or(a, b)) == Max(BitLen(a), BitLen(b))
  {
    if a > 0 && b > 0 {
      OrBitLen(a / 2, b / 2);
      assert Or(a, b) / 2 == Or(a / 2, b / 2);
      OrPositive(a, b);
    }
  }

  lemma {:induction false} OrPositive(a: nat, b: nat)
    requires a > 0
    ensures Or(a, b) > 0
  {
    if b > 0 && a > 1 { OrPositive(a / 2, b / 2); }
  }

  // ---- Products and quotients ----

  lemma MulLe(a: int, b: int, c: nat)
    requires a <= b
    ensures a * c <= b * c
  {
  }

  lemma MulLt(a: int, b: int, c: nat)
    requires a < b && c > 0
    ensures a * c < b * c
  {
  }

  lemma MulAdd(a: int, b: int, c: int)
    ensures (a + b) * c == a * c + b * c
  {
  }

  lemma DivIs(v: nat, d: nat)
    requires d > 0
    ensures v / d >= 0 && v / d * d <= v < v / d * d + d
  {
    var q := v / d;
    assert v == d * q + v % d;
    assert d * q == q * d;
    if q < 0 { MulLe(q, -1, d); }
  }

  lemma DivBounds(v: nat, d: nat, lo: nat, hi: nat)
    requires d > 0 && lo * d <= v < hi * d
    ensures lo <= v / d < hi
  {
    DivIs(v, d);
    var q := v / d;
    if q < lo { MulLe(q + 1, lo, d); MulAdd(q, 1, d); }
    if q >= hi { MulLe(hi, q, d); }
  }

  // ---- Geometry ----

  /** The constant fields of struct hdr_histogram: unit_magnitude,
      sub_bucket_half_count_magnitude, bucket_count and significant_figures. */
  datatype Geometry = Geometry(unit: nat, half: nat, buckets: nat, figures: nat)
  {
    /** sub_bucket_half_count */
    function HalfCount(): nat {
      Pow2(half)
    }

    /** sub_bucket_count */
    function SubCount(): nat {
      2 * Pow2(half)
    }

    /** sub_bucket_mask */
    function Mask(): nat {
      (SubCount() - 1) * Pow2(unit)
    }

    /** counts_len */
    function CountsLen(): nat {
      (buckets + 1) * Pow2(half)
    }

    /** Cells are narrow enough for the figures, and no shift of an int overflows. */
    ghost predicate Ok() {
      1 <= figures && buckets >= 1 && Pow10(figures) <= Pow2(half) && unit + buckets <= 31
    }

    /** get_bucket_index */
    function BucketIndex(v: nat): int {
      BitLen(Or(v, Mask())) - unit - (half + 1)
    }

    /** counts_index */
    function CountsIndex(bucket: int, sub: int): int {
      (bucket + 1) * Pow2(half) + (sub - Pow2(half))
    }
  }

  function Pow10(n: nat): nat {
    if n == 0 then 1 else 10 * Pow10(n - 1)
  }

  lemma MaskBits(g: Geometry)
    ensures BitLen(g.Mask()) == g.unit + g.half + 1
  {
    Pow2Add(g.half + 1, g.unit);
    Pow2Add(g.half, g.unit);
    MaskIs(Pow2(g.half), Pow2(g.unit));
    BitLenIs(g.Mask(), g.unit + g.half + 1);
  }

  lemma MaskIs(h: nat, u: nat)
    requires h > 0
    ensures h * u <= (2 * h - 1) * u == 2 * h * u - u
  {
    assert (2 * h - 1) * u == h * u + (h - 1) * u;
  }

  lemma BucketIndexIs(g: Geometry, v: nat)
    ensures g.BucketIndex(v) == Max(BitLen(v), g.unit + g.half + 1) - (g.unit + g.half + 1) >= 0
  {
    OrBitLen(v, g.Mask());
    MaskBits(g);
  }

  /** get_sub_bucket_index */
  function SubIndex(v: nat, bucket: int, unit: nat): nat
    requires bucket + unit >= 0
  {
    DivIs(v, Pow2(bucket + unit));
    v / Pow2(bucket + unit)
  }

  /** counts_index_for */
  function IndexFor(g: Geometry, v: nat): int {
    BucketIndexIs(g, v);
    g.CountsIndex(g.BucketIndex(v), SubIndex(v, g.BucketIndex(v), g.unit))
  }

  /** Beyond the first bucket only the upper half of the sub-buckets is used. */
  lemma SubIndexBounds(g: Geometry, v: nat)
    ensures var b := g.BucketIndex(v);
            && b >= 0
            && SubIndex(v, b, g.unit) < g.SubCount()
            && (b > 0 ==> g.HalfCount() <= SubIndex(v, b, g.unit))
            && SubIndex(v, b, g.unit) * Pow2(b + g.unit) <= v < SubIndex(v, b, g.unit) * Pow2(b + g.unit) + Pow2(b + g.unit)
  {
    BucketIndexIs(g, v);
    BitLenBounds(v);
    var b := g.BucketIndex(v);
    Pow2Add(g.half + 1, b + g.unit);
    Pow2Add(g.half, b + g.unit);
    Pow2Mono(BitLen(v), g.half + 1 + b + g.unit);
    DivIs(v, Pow2(b + g.unit));
    DivBounds(v, Pow2(b + g.unit), if b > 0 then g.HalfCount() else 0, g.SubCount());
  }

  // ---- Cells ----

  function BucketOf(g: Geometry, i: nat): nat {
    if i < g.SubCount() then 0 else
      HalfTwice(g, i);
      i / g.HalfCount() - 1
  }

  lemma HalfTwice(g: Geometry, i: nat)
    requires i >= g.SubCount()
    ensures i / g.HalfCount() >= 2
  {
    MulLe(1, g.HalfCount(), i + 1);
    DivBounds(i, g.HalfCount(), 2, i + 1);
  }

  function SubOf(g: Geometry, i: nat): int {
    i - BucketOf(g, i) * g.HalfCount()
  }

  /** value_from_index: the least value of cell i. */
  function Low(g: Geometry, i: nat): int {
    SubOf(g, i) * Pow2(BucketOf(g, i) + g.unit)
  }

  function Width(g: Geometry, i: nat): nat {
    Pow2(BucketOf(g, i) + g.unit)
  }

  /** A cell is known by its bucket and sub-bucket. */
  lemma CellIs(g: Geometry, b: nat, s: nat)
    requires s < g.SubCount() && (b > 0 ==> g.HalfCount() <= s)
    ensures var i := g.CountsIndex(b, s); i >= 0 && BucketOf(g, i) == b && SubOf(g, i) == s && i == b * g.HalfCount() + s
  {
    var h := g.HalfCount();
    var i := g.CountsIndex(b, s);
    assert (b + 1) * h == b * h + h;
    if b > 0 {
      assert b * h >= h by { assert (b - 1) * h >= 0; }
      assert (b + 1) * h <= i < (b + 2) * h;
      DivBounds(i, h, b + 1, b + 2);
    }
  }

  lemma CellBounds(g: Geometry, i: nat)
    ensures 0 <= SubOf(g, i) < g.SubCount() && (BucketOf(g, i) > 0 ==> g.HalfCount() <= SubOf(g, i))
    ensures g.CountsIndex(BucketOf(g, i), SubOf(g, i)) == i
  {
    var h, b := g.HalfCount(), BucketOf(g, i);
    hide Pow2;
    if i >= g.SubCount() {
      HalfTwice(g, i);
      DivIs(i, h);
      assert i / h == b + 1;
    }
    MulAdd(b, 1, h);
  }

  /** Cells touch: the next one begins where this one ends. */
  lemma LowNext(g: Geometry, i: nat)
    ensures Low(g, i + 1) == Low(g, i) + Width(g, i) && Low(g, i) >= 0
  {
    var h, b, s := g.HalfCount(), BucketOf(g, i), SubOf(g, i);
    CellBounds(g, i);
    MulAdd(b, 1, h);
    var w := Pow2(b + g.unit);
    MulAdd(s, 1, w);
    MulLe(0, s, w);
    assert Pow2(b + 1 + g.unit) == 2 * w;
    hide Pow2;
    if s + 1 < g.SubCount() {
      CellIs(g, b, s + 1);
    } else {
      CellIs(g, b + 1, h);
      MulTwice(h, w);
    }
  }

  lemma MulTwice(h: int, w: int)
    ensures h * (2 * w) == 2 * h * w
  {
  }

  lemma {:induction false} LowMono(g: Geometry, i: nat, j: nat)
    requires i < j
    ensures 0 <= Low(g, i) < Low(g, j)
    decreases j - i
  {
    LowNext(g, i);
    if i + 1 < j { LowMono(g, i + 1, j); }
  }

  /** The index of a value is that of the one cell whose range holds the value. */
  lemma IndexIff(g: Geometry, v: nat, i: nat)
    ensures IndexFor(g, v) >= 0
    ensures IndexFor(g, v) == i <==> Low(g, i) <= v < Low(g, i + 1)
  {
    SubIndexBounds(g, v);
    var b := g.BucketIndex(v);
    var s := SubIndex(v, b, g.unit);
    CellIs(g, b, s);
    var j := IndexFor(g, v);
    LowNext(g, j);
    assert Low(g, j) <= v < Low(g, j + 1);
    if i < j && i + 1 < j { LowMono(g, i + 1, j); }
    if i > j && j + 1 < i { LowMono(g, j + 1, i); }
  }

  /** The index map is monotone. */
  lemma IndexMono(g: Geometry, v: nat, w: nat)
    requires v <= w
    ensures 0 <= IndexFor(g, v) <= IndexFor(g, w)
  {
    IndexIff(g, v, 0);
    IndexIff(g, w, 0);
    var i, j := IndexFor(g, v), IndexFor(g, w);
    IndexIff(g, v, i);
    IndexIff(g, w, j);
    if j < i && j + 1 < i { LowMono(g, j + 1, i); }
  }

  /** The index map is onto: the least value of a cell is in the cell. */
  lemma IndexOnto(g: Geometry, i: nat)
    ensures Low(g, i) >= 0 && IndexFor(g, Low(g, i)) == i
  {
    LowNext(g, i);
    IndexIff(g, Low(g, i), i);
  }

  /** The values below cell i are those with a smaller index. */
  lemma BelowCell(g: Geometry, v: nat, i: nat)
    ensures v < Low(g, i) <==> IndexFor(g, v) < i
  {
    IndexIff(g, v, 0);
    var j := IndexFor(g, v);
    IndexIff(g, v, j);
    if j < i && j + 1 < i { LowMono(g, j + 1, i); }
    if i < j { LowMono(g, i, j); }
  }

  /** Every value up to the doubled mask has a cell. */
  lemma TrackableInRange(g: Geometry, v: nat)
    requires g.buckets >= 1
    ensures v <= g.Mask() * Pow2(g.buckets - 1) ==> IndexFor(g, v) < g.CountsLen()
  {
    var h, n := g.HalfCount(), g.CountsLen();
    var u, m := Pow2(g.unit), Pow2(g.buckets - 1);
    CellIs(g, g.buckets, h);
    MulAdd(g.buckets, 1, h);
    assert n == g.CountsIndex(g.buckets, h);
    Pow2Add(g.unit, g.buckets);
    Pow2Add(1, g.buckets - 1);
    assert Low(g, n) == h * (u * (2 * m)) by { hide Pow2; assert g.buckets + g.unit == g.unit + g.buckets; }
    LowNext(g, n);
    BelowCell(g, v, n);
    hide Pow2;
    MaskIs(h, u);
    DoubledMask(h, u, m);
  }

  lemma DoubledMask(h: nat, u: nat, m: nat)
    requires u > 0 && m > 0
    ensures (2 * h * u - u) * m < h * (u * (2 * m))
  {
    assert h * (u * (2 * m)) == 2 * h * u * m;
    MulLt(2 * h * u - u, 2 * h * u, m);
  }

  // ---- Equivalent values ----

  /** lowest_equivalent_value */
  function LowestEquivalent(g: Geometry, v: nat): nat {
    BucketIndexIs(g, v);
    var b := g.BucketIndex(v);
    SubIndex(v, b, g.unit) * Pow2(b + g.unit)
  }

  /** size_of_equivalent_value_range */
  function EquivalentRange(g: Geometry, v: nat): nat {
    BucketIndexIs(g, v);
    var b := g.BucketIndex(v);
    Pow2(g.unit + if SubIndex(v, b, g.unit) >= g.SubCount() then b + 1 else b)
  }

  /** highest_equivalent_value */
  function HighestEquivalent(g: Geometry, v: nat): int {
    LowestEquivalent(g, v) + EquivalentRange(g, v) - 1
  }

  /** The equivalent values of v are those of its cell. */
  lemma EquivalentCell(g: Geometry, v: nat)
    ensures var i := IndexFor(g, v);
            i >= 0 && LowestEquivalent(g, v) == Low(g, i) && HighestEquivalent(g, v) == Low(g, i + 1) - 1
  {
    SubIndexBounds(g, v);
    var b := g.BucketIndex(v);
    CellIs(g, b, SubIndex(v, b, g.unit));
    LowNext(g, IndexFor(g, v));
  }

  /** The promised precision: the highest equivalent value exceeds v by less than a unit,
      or by less than v in 10^figures. */
  lemma RelativeError(g: Geometry, v: nat)
    requires g.Ok()
    ensures var e := HighestEquivalent(g, v) - v;
            e >= 0 && (e < Pow2(g.unit) || e * Pow10(g.figures) < v)
    ensures Pow10(1) == 10 && Pow10(2) == 100 && Pow10(3) == 1000 && Pow10(4) == 10_000 && Pow10(5) == 100_000
  {
    SubIndexBounds(g, v);
    var b := g.BucketIndex(v);
    var s, w := SubIndex(v, b, g.unit), Pow2(b + g.unit);
    var e := HighestEquivalent(g, v) - v;
    assert 0 <= e < w by { hide Pow2; assert g.unit + b == b + g.unit; }
    assert Pow10(4) == 10_000;
    if b > 0 {
      Pow10Positive(g.figures);
      var h, t := g.HalfCount(), Pow10(g.figures);
      hide Pow2, Pow10;
      MulLe(h, s, w);
      MulLe(t, h, w);
      MulLt(e, w, t);
      assert w * t == t * w;
    }
  }

  lemma Pow10Positive(n: nat)
    ensures Pow10(n) > 0
  {
  }
}
