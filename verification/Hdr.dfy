/** HdrHistogram: counters that agree with the list of recorded values. */
module Hdr {
  import opened Powers
  import opened Wrappers

  import opened HdrIndex

  // ---- Counting ----

  /** How many of the values fall into cell i. */
  function NumIn(g: Geometry, vs: seq<nat>, i: int): nat {
    if vs == [] then 0 else NumIn(g, vs[..|vs| - 1], i) + if IndexFor(g, vs[|vs| - 1]) == i then 1 else 0
  }

  /** How many of the values are less than bound. */
  function NumBelow(vs: seq<nat>, bound: int): nat {
    if vs == [] then 0 else NumBelow(vs[..|vs| - 1], bound) + if vs[|vs| - 1] < bound then 1 else 0
  }

  function Sum(s: seq<int>): int {
    if s == [] then 0 else Sum(s[..|s| - 1]) + s[|s| - 1]
  }

  function Repeat(v: nat, n: nat): seq<nat> {
    if n == 0 then [] else Repeat(v, n - 1) + [v]
  }

  lemma NumInOne(g: Geometry, vs: seq<nat>, v: nat, i: int)
    ensures NumIn(g, vs + [v], i) == NumIn(g, vs, i) + if IndexFor(g, v) == i then 1 else 0
  {
    assert (vs + [v])[..|vs|] == vs;
  }

  lemma {:induction false} NumInAppend(g: Geometry, vs: seq<nat>, ws: seq<nat>, i: int)
    ensures NumIn(g, vs + ws, i) == NumIn(g, vs, i) + NumIn(g, ws, i)
  {
    if ws == [] {
      assert vs + ws == vs;
    } else {
      var n := |ws| - 1;
      NumInAppend(g, vs, ws[..n], i);
      NumInOne(g, vs + ws[..n], ws[n], i);
      assert vs + ws == vs + ws[..n] + [ws[n]];
    }
  }

  lemma {:induction false} NumInRepeat(g: Geometry, v: nat, n: nat, i: int)
    ensures NumIn(g, Repeat(v, n), i) == if IndexFor(g, v) == i then n else 0
    ensures |Repeat(v, n)| == n && forall k :: 0 <= k < n ==> Repeat(v, n)[k] == v
  {
    if n > 0 {
      NumInRepeat(g, v, n - 1, i);
      NumInOne(g, Repeat(v, n - 1), v, i);
    }
  }

  lemma {:induction false} NumBelowStep(g: Geometry, vs: seq<nat>, i: nat)
    ensures NumBelow(vs, Low(g, i + 1)) == NumBelow(vs, Low(g, i)) + NumIn(g, vs, i)
  {
    if vs != [] {
      var n := |vs| - 1;
      NumBelowStep(g, vs[..n], i);
      BelowCell(g, vs[n], i);
      BelowCell(g, vs[n], i + 1);
    }
  }

  lemma {:induction false} NumBelowZero(vs: seq<nat>)
    ensures NumBelow(vs, 0) == 0
  {
    if vs != [] { NumBelowZero(vs[..|vs| - 1]); }
  }

  lemma LowZero(g: Geometry)
    ensures Low(g, 0) == 0
  {
  }

  /** The counts of the first i cells are the recorded values below cell i. */
  lemma {:induction false} SumIsBelow(g: Geometry, counts: seq<int>, vs: seq<nat>, i: nat)
    requires i <= |counts| && forall j :: 0 <= j < i ==> counts[j] == NumIn(g, vs, j)
    ensures Sum(counts[..i]) == NumBelow(vs, Low(g, i))
  {
    if i == 0 {
      LowZero(g);
      NumBelowZero(vs);
    } else {
      SumIsBelow(g, counts, vs, i - 1);
      NumBelowStep(g, vs, i - 1);
      assert counts[..i][..i - 1] == counts[..i - 1];
    }
  }

  lemma {:induction false} AllBelow(vs: seq<nat>, bound: int)
    requires forall k :: 0 <= k < |vs| ==> vs[k] < bound
    ensures NumBelow(vs, bound) == |vs|
  {
    if vs != [] { AllBelow(vs[..|vs| - 1], bound); }
  }

  lemma {:induction false} NumBelowMono(vs: seq<nat>, a: int, b: int)
    requires a <= b
    ensures NumBelow(vs, a) <= NumBelow(vs, b) <= |vs|
  {
    if vs != [] { NumBelowMono(vs[..|vs| - 1], a, b); }
  }

  lemma {:induction false} SumMono(s: seq<int>, i: nat, j: nat)
    requires i <= j <= |s| && forall k :: 0 <= k < |s| ==> s[k] >= 0
    ensures Sum(s[..i]) <= Sum(s[..j])
    decreases j - i
  {
    if i < j {
      SumMono(s, i, j - 1);
      assert s[..j][..j - 1] == s[..j - 1];
    }
  }

  // ---- Histograms ----

  /** The number of bits in which n - 1 is written: log2, rounded up. */
  function CeilLog2(n: nat): nat
    requires n > 0
  {
    BitLen(n - 1)
  }

  /** sub_bucket_half_count_magnitude for a number of significant figures */
  function HalfMagnitude(figures: nat): nat {
    Pow10Positive(figures);
    var magnitude := CeilLog2(2 * Pow10(figures));
    (if magnitude > 1 then magnitude else 1) - 1
  }

  /** Half of the sub-buckets are enough for the figures, and no more than that takes. */
  lemma HalfMagnitudeOk(figures: nat)
    ensures Pow10(figures) <= Pow2(HalfMagnitude(figures)) < 2 * Pow10(figures)
  {
    Pow10Positive(figures);
    var n := 2 * Pow10(figures);
    BitLenBounds(n - 1);
    assert BitLen(n - 1) >= 1;
  }

  /** floor(log2(n)) */
  function FloorLog2(n: nat): (r: nat)
    requires n > 0
    ensures Pow2(r) <= n < Pow2(r + 1)
  {
    BitLenBounds(n);
    BitLen(n) - 1
  }

  /** The geometry before its buckets are counted. */
  function OneBucket(lowest: nat, figures: nat): Geometry
    requires lowest > 0
  {
    Geometry(FloorLog2(lowest), HalfMagnitude(figures), 1, figures)
  }

  /** The masks and shifts stay within an int. */
  ghost predicate Fits(lowest: nat, highest: int, figures: nat) {
    && lowest > 0
    && var g := OneBucket(lowest, figures);
       g.unit + g.half + 1 <= 31 && g.unit <= 30 && highest <= g.Mask() * Pow2(30 - g.unit)
  }

  /** The constant part of hdr_init; None is EINVAL. */
  method Size(lowest: nat, highest: int, figures: int) returns (r: Option<Geometry>)
    requires 1 <= figures <= 5 ==> Fits(lowest, highest, figures)
    ensures r.None? <==> figures < 1 || figures > 5
    ensures r.Some? ==>
      var g := r.value;
      && g.Ok() && g.figures == figures && Pow2(g.unit) <= lowest < Pow2(g.unit + 1)
      && Pow10(figures) <= Pow2(g.half) < 2 * Pow10(figures)
      && forall v: nat :: v <= highest ==> IndexFor(g, v) < g.CountsLen()
    ensures r.Some? && r.value.buckets > 1 ==> r.value.Mask() * Pow2(r.value.buckets - 2) < highest
  {
    hide Pow2, Pow10, IndexFor, FloorLog2, HalfMagnitude;
    if figures < 1 || 5 < figures { return None; }
    var g := OneBucket(lowest, figures);
    HalfMagnitudeOk(figures);
    MaskPositive(g);
    Pow2Zero();
    var trackable := g.Mask();
    var needed := 1;
    while trackable < highest
      invariant needed >= 1 && trackable == g.Mask() * Pow2(needed - 1) && g.unit + needed <= 31
      invariant needed > 1 ==> g.Mask() * Pow2(needed - 2) < highest
      decreases 31 - needed
    {
      assert g.unit + needed == 31 ==> needed - 1 == 30 - g.unit;
      Doubled(g.Mask(), needed);
      trackable := trackable * 2;
      needed := needed + 1;
    }
    var g' := g.(buckets := needed);
    assert g'.Mask() == g.Mask();
    forall v: nat | v <= highest ensures IndexFor(g', v) < g'.CountsLen() { TrackableInRange(g', v); }
    r := Some(g');
  }

  lemma Pow2Zero()
    ensures Pow2(0) == 1
  {
  }

  lemma Doubled(m: nat, k: nat)
    requires k > 0
    ensures m * Pow2(k - 1) * 2 == m * Pow2(k)
  {
    MulTwice(m, Pow2(k - 1));
  }

  lemma MaskPositive(g: Geometry)
    ensures g.Mask() > 0
  {
    MulLt(0, g.SubCount() - 1, Pow2(g.unit));
  }

  /** The geometry and the cells without their counters. */
  class Histogram {
    const g: Geometry
    const counts: array<int>
    var total: int
    // what has been recorded, in order
    ghost var recorded: seq<nat>

    ghost predicate Valid()
      reads this, counts
    {
      && g.Ok() && counts.Length == g.CountsLen() && total == |recorded|
      && (forall k :: 0 <= k < |recorded| ==> IndexFor(g, recorded[k]) < counts.Length)
      && (forall i :: 0 <= i < counts.Length ==> counts[i] == NumIn(g, recorded, i))
    }

    /** The allocation in hdr_init. */
    constructor (g: Geometry)
      requires g.Ok()
      ensures Valid() && this.g == g && recorded == [] && fresh(counts)
    {
      this.g := g;
      counts := new int[g.CountsLen()](_ => 0);
      total := 0;
      recorded := [];
    }

    /** hdr_reset */
    method Reset()
      requires Valid()
      modifies this, counts
      ensures Valid() && recorded == []
    {
      total := 0;
      forall i | 0 <= i < counts.Length { counts[i] := 0; }
      recorded := [];
    }

    /** hdr_record_value */
    method Record(v: nat) returns (ok: bool)
      requires Valid()
      modifies this, counts
      ensures Valid() && ok == (IndexFor(g, v) < counts.Length)
      ensures recorded == if ok then old(recorded) + [v] else old(recorded)
    {
      ok := RecordValues(v, 1);
      assert Repeat(v, 1) == [v];
    }

    /** hdr_record_values */
    method RecordValues(v: nat, count: nat) returns (ok: bool)
      requires Valid()
      modifies this, counts
      ensures Valid() && ok == (IndexFor(g, v) < counts.Length)
      ensures recorded == if ok then old(recorded) + Repeat(v, count) else old(recorded)
      ensures total == old(total) + if ok then count else 0
      ensures forall j :: 0 <= j < counts.Length ==> counts[j] == old(counts[j]) + if j == IndexFor(g, v) then count else 0
    {
      hide Sum, NumBelow, IndexFor, NumIn;
      IndexOf(g, v);
      var i := IndexFor(g, v);
      if i < 0 || counts.Length <= i { return false; }
      ghost var was := recorded;
      forall j ensures NumIn(g, was + Repeat(v, count), j) == NumIn(g, was, j) + if j == i then count else 0 {
        NumInAppend(g, was, Repeat(v, count), j);
        NumInRepeat(g, v, count, j);
      }
      NumInRepeat(g, v, count, i);
      counts[i] := counts[i] + count;
      total := total + count;
      recorded := recorded + Repeat(v, count);
      ok := true;
    }

    /** The counters add up to the total. */
    lemma Totals(i: nat)
      requires Valid() && i <= counts.Length
      ensures Sum(counts[..i]) == NumBelow(recorded, Low(g, i)) <= total
      ensures i == counts.Length ==> Sum(counts[..i]) == total
    {
      hide IndexFor;
      assert forall j :: 0 <= j < i ==> counts[..][j] == NumIn(g, recorded, j);
      SumIsBelow(g, counts[..], recorded, i);
      assert counts[..][..i] == counts[..i];
      NumBelowMono(recorded, Low(g, i), Low(g, i));
      if i == counts.Length {
        forall k | 0 <= k < |recorded| ensures recorded[k] < Low(g, i) { BelowCell(g, recorded[k], i); }
        AllBelow(recorded, Low(g, i));
      }
    }

    /** Once the running count is the total, the rest of the cells is empty. */
    lemma Exhausted(i: nat)
      requires Valid() && i <= counts.Length && Sum(counts[..i]) >= total
      ensures Sum(counts[..i]) == total && forall j :: i <= j < counts.Length ==> counts[j] == 0
    {
      hide Sum;
      Totals(counts.Length);
      Totals(i);
      assert counts[..][..i] == counts[..i] && counts[..counts.Length] == counts[..];
      forall j | i <= j < counts.Length ensures counts[j] == 0 { ZeroFrom(counts[..], i, j); }
    }
  }

  lemma IndexOf(g: Geometry, v: nat)
    ensures IndexFor(g, v) >= 0
  {
    IndexIff(g, v, 0);
  }

  // ---- Iteration ----

  /** A cell of a histogram, or the place before the first one. */
  ghost predicate PlaceOk(g: Geometry, bucket: int, sub: int) {
    (bucket == 0 && sub == -1) || (bucket >= 0 && 0 <= sub < g.SubCount() && (bucket > 0 ==> g.HalfCount() <= sub))
  }

  /** increment_bucket */
  function Increment(g: Geometry, bucket: int, sub: int): (int, int) {
    if sub + 1 >= g.SubCount() then (bucket + 1, g.HalfCount()) else (bucket, sub + 1)
  }

  /** From (0, -1) on, the cells are enumerated in order, without gap or repeat. */
  lemma IncrementIs(g: Geometry, bucket: int, sub: int)
    requires PlaceOk(g, bucket, sub)
    ensures var (b, s) := Increment(g, bucket, sub);
            var i := g.CountsIndex(bucket, sub) + 1;
            && PlaceOk(g, b, s) && s >= 0 && g.CountsIndex(b, s) == i >= 0
            && BucketOf(g, i) == b && SubOf(g, i) == s
  {
    var (b, s) := Increment(g, bucket, sub);
    MulAdd(bucket, 1, g.HalfCount());
    MulAdd(bucket + 1, 1, g.HalfCount());
    CellIs(g, b, s);
  }

  lemma LastBucket(g: Geometry, b: nat, s: nat)
    requires PlaceOk(g, b, s) && g.buckets >= 1
    ensures g.CountsIndex(b, s) < g.CountsLen() <==> b < g.buckets
  {
    CellIs(g, b, s);
    var h := g.HalfCount();
    MulAdd(b, 1, h);
    if b < g.buckets { MulLe(b + 2, g.buckets + 1, h); MulAdd(b, 2, h); } else { MulLe(g.buckets + 1, b + 1, h); }
  }

  /** struct hdr_iter */
  class Iter {
    const h: Histogram
    var bucket: int
    var sub: int
    var countAt: int
    var countTo: int
    var value: int
    var highest: int

    ghost function Pos(): int
      reads this
    {
      h.g.CountsIndex(bucket, sub)
    }

    ghost predicate Valid()
      reads this, h, h.counts
    {
      && h.Valid() && PlaceOk(h.g, bucket, sub) && -1 <= Pos() < h.counts.Length
      && countTo == Sum(h.counts[..Pos() + 1])
      && (Pos() >= 0 ==> countAt == h.counts[Pos()] && value == Low(h.g, Pos()) && highest == Low(h.g, Pos() + 1) - 1)
    }

    /** hdr_iter_init */
    constructor (h: Histogram)
      requires h.Valid()
      ensures Valid() && this.h == h && Pos() == -1
    {
      this.h := h;
      bucket, sub := 0, -1;
      countAt, countTo, value, highest := 0, 0, 0, 0;
      new;
      assert h.counts[..0] == [];
    }

    /** move_next */
    method MoveNext() returns (ok: bool)
      requires Valid() && Pos() + 1 < h.counts.Length
      modifies this
      ensures Valid() && Pos() == old(Pos()) + 1 && ok
    {
      hide IndexFor, NumIn, Sum;
      IncrementIs(h.g, bucket, sub);
      ghost var i := Pos() + 1;
      var (b, s) := Increment(h.g, bucket, sub);
      bucket, sub := b, s;
      LastBucket(h.g, b, s);
      if !(bucket < h.g.buckets) { return false; }
      countAt := h.counts[h.g.CountsIndex(bucket, sub)];
      SumOne(h.counts[..], i);
      assert h.counts[..][..i] == h.counts[..i] && h.counts[..][..i + 1] == h.counts[..i + 1];
      countTo := countTo + countAt;
      value := sub * Pow2(bucket + h.g.unit);
      IndexOnto(h.g, i);
      EquivalentCell(h.g, value);
      highest := HighestEquivalent(h.g, value);
      ok := true;
    }

    /** hdr_iter_next */
    method Next() returns (ok: bool)
      requires Valid()
      modifies this
      ensures Valid() && ok == (old(countTo) < h.total)
      ensures Pos() == if ok then old(Pos()) + 1 else old(Pos())
      ensures !ok ==> countTo == old(countTo)
    {
      hide IndexFor, NumIn, Sum;
      if !(countTo < h.total) { return false; }
      h.Totals(h.counts.Length);
      var moved := MoveNext();
      ok := true;
    }

    /** hdr_recorded_iter_next */
    method NextRecorded() returns (ok: bool)
      requires Valid()
      modifies this
      ensures Valid() && old(Pos()) <= Pos()
      ensures ok ==> old(Pos()) < Pos() && countAt > 0
                     && forall i :: old(Pos()) < i < Pos() ==> h.counts[i] == 0
      ensures ok ==> 0 <= Pos() < h.counts.Length && countAt == h.counts[Pos()] && value == Low(h.g, Pos())
      ensures !ok ==> countTo == h.total && forall i :: old(Pos()) < i < h.counts.Length ==> h.counts[i] == 0
    {
      hide IndexFor, NumIn, Sum;
      ghost var from := Pos();
      ok := Next();
      while ok
        invariant Valid() && from <= Pos() && (ok ==> from < Pos())
        invariant forall i :: from < i < Pos() ==> h.counts[i] == 0
        invariant !ok ==> countTo >= h.total && (from < Pos() ==> h.counts[Pos()] == 0)
        decreases h.counts.Length - Pos(), ok
      {
        if countAt != 0 { return true; }
        ok := Next();
      }
      h.Exhausted(Pos() + 1);
    }
  }

  lemma SumOne(s: seq<int>, i: nat)
    requires i < |s|
    ensures Sum(s[..i + 1]) == Sum(s[..i]) + s[i]
  {
    assert s[..i + 1][..i] == s[..i];
  }

  lemma {:induction false} ZeroFrom(s: seq<int>, i: nat, j: nat)
    requires i <= j < |s| && (forall k :: 0 <= k < |s| ==> s[k] >= 0) && Sum(s[..i]) == Sum(s)
    ensures s[j] == 0
  {
    SumMono(s, i, j);
    SumOne(s, j);
    SumMono(s, j + 1, |s|);
    assert s[..|s|] == s;
  }

  // ---- Ranks ----

  /** x is the k-th smallest of the values. */
  ghost predicate IsKth(vs: seq<nat>, k: int, x: nat) {
    NumBelow(vs, x) < k <= NumBelow(vs, x + 1)
  }

  lemma KthUnique(vs: seq<nat>, k: int, x: nat, y: nat)
    requires IsKth(vs, k, x) && IsKth(vs, k, y)
    ensures x == y
  {
    if x < y { NumBelowMono(vs, x + 1, y); }
    if y < x { NumBelowMono(vs, y + 1, x); }
  }

  lemma {:induction false} BelowNext(vs: seq<nat>, x: nat)
    ensures NumBelow(vs, x + 1) >= NumBelow(vs, x)
    ensures NumBelow(vs, x + 1) > NumBelow(vs, x) ==> x in vs
  {
    if vs != [] {
      BelowNext(vs[..|vs| - 1], x);
      assert forall y :: y in vs[..|vs| - 1] ==> y in vs;
    }
  }

  /** Between two bounds that a rank separates lies a value of that rank. */
  lemma {:induction false} KthBetween(vs: seq<nat>, k: int, lo: nat, hi: nat) returns (x: nat)
    requires lo <= hi && NumBelow(vs, lo) < k <= NumBelow(vs, hi)
    ensures lo <= x < hi && IsKth(vs, k, x) && x in vs
    decreases hi - lo
  {
    assert lo < hi;
    BelowNext(vs, lo);
    if k <= NumBelow(vs, lo + 1) { x := lo; } else { x := KthBetween(vs, k, lo + 1, hi); }
  }

  /** What the counters say about rank k: the highest value of the cell where the running
      count reaches k. */
  function RankFrom(g: Geometry, counts: seq<int>, k: int, i: nat): int
    requires i <= |counts|
    decreases |counts| - i
  {
    if i == |counts| then 0
    else if Sum(counts[..i + 1]) >= k then Low(g, i + 1) - 1
    else RankFrom(g, counts, k, i + 1)
  }

  /** The counters agree with the list of values. */
  ghost predicate Agree(g: Geometry, counts: seq<int>, vs: seq<nat>) {
    && |counts| == g.CountsLen()
    && (forall v :: v in vs ==> IndexFor(g, v) < |counts|)
    && (forall i :: 0 <= i < |counts| ==> counts[i] == NumIn(g, vs, i))
  }

  lemma {:induction false} RankFromIs(g: Geometry, counts: seq<int>, vs: seq<nat>, k: int, i: nat) returns (x: nat)
    requires Agree(g, counts, vs) && i <= |counts| && Sum(counts[..i]) < k <= |vs|
    ensures x in vs && IsKth(vs, k, x) && RankFrom(g, counts, k, i) == HighestEquivalent(g, x)
    decreases |counts| - i
  {
    hide IndexFor, NumIn, NumBelow, Low, HighestEquivalent;
    SumIsBelow(g, counts, vs, i);
    x := 0;
    if i == |counts| {
      forall j | 0 <= j < |vs| ensures vs[j] < Low(g, i) { assert vs[j] in vs; BelowCell(g, vs[j], i); }
      AllBelow(vs, Low(g, i));
    } else {
      SumIsBelow(g, counts, vs, i + 1);
      if Sum(counts[..i + 1]) >= k {
        LowMono(g, i, i + 1);
        x := KthBetween(vs, k, Low(g, i), Low(g, i + 1));
        IndexIff(g, x, i);
        EquivalentCell(g, x);
      } else {
        x := RankFromIs(g, counts, vs, k, i + 1);
      }
    }
  }

  /** For every list of values that the counters agree with, rank k is answered by the
      highest equivalent of its k-th smallest value, within the promised precision. */
  lemma RankIsKth(g: Geometry, counts: seq<int>, vs: seq<nat>, k: int) returns (x: nat)
    requires g.Ok() && Agree(g, counts, vs) && 1 <= k <= |vs|
    ensures x in vs && forall y: nat :: IsKth(vs, k, y) <==> y == x
    ensures var r := RankFrom(g, counts, k, 0);
            && r == HighestEquivalent(g, x) && r >= x
            && (r - x < Pow2(g.unit) || (r - x) * Pow10(g.figures) < x)
  {
    hide IndexFor, NumIn, NumBelow, Low, HighestEquivalent, Pow2, Pow10;
    assert counts[..0] == [];
    x := RankFromIs(g, counts, vs, k, 0);
    forall y: nat | IsKth(vs, k, y) ensures y == x { KthUnique(vs, k, x, y); }
    RelativeError(g, x);
  }

  // ---- Queries ----

  /** count_at_percentile, with exact arithmetic */
  function PercentileRank(percentile: real, total: nat): (k: nat)
  {
    var requested := if percentile < 100.0 then percentile else 100.0;
    var k := (requested / 100.0 * total as real + 0.5).Floor;
    if k > 1 then k else 1
  }

  /** A percentile stands for a rank that exists, the nearest one to its share of the values. */
  lemma RankOfPercentile(percentile: real, total: nat)
    requires total > 0
    ensures 1 <= PercentileRank(percentile, total) <= total
    ensures percentile <= 100.0 ==>
      var share, k := percentile / 100.0 * total as real, PercentileRank(percentile, total);
      share < k as real + 0.5 && (k > 1 ==> k as real - 0.5 <= share)
    ensures percentile <= 0.0 ==> PercentileRank(percentile, total) == 1
    ensures percentile >= 100.0 ==> PercentileRank(percentile, total) == total
  {
    var n := total as real;
    var requested := if percentile < 100.0 then percentile else 100.0;
    ShareBounds(requested / 100.0, n);
  }

  lemma ShareBounds(x: real, n: real)
    requires x <= 1.0 && n >= 0.0
    ensures x * n <= n && (x <= 0.0 ==> x * n <= 0.0)
  {
  }

  /** hdr_value_at_percentile */
  method ValueAtPercentile(h: Histogram, percentile: real) returns (r: int)
    requires h.Valid()
    ensures r == RankFrom(h.g, h.counts[..], PercentileRank(percentile, h.total), 0)
    ensures Agree(h.g, h.counts[..], h.recorded) && h.total == |h.recorded|
  {
    hide IndexFor, NumIn, Sum, NumBelow, Low, RankFrom;
    r := ValueAtRank(h, PercentileRank(percentile, h.total));
    h.Totals(h.counts.Length);
  }

  /** The loop of hdr_value_at_percentile, for a rank. */
  method ValueAtRank(h: Histogram, rank: int) returns (r: int)
    requires h.Valid()
    ensures r == RankFrom(h.g, h.counts[..], if rank > 1 then rank else 1, 0)
    ensures Agree(h.g, h.counts[..], h.recorded)
  {
    hide IndexFor, NumIn, Sum, NumBelow, Low;
    var k := if rank > 1 then rank else 1;
    assert h.counts[..0] == [] && Sum([]) == 0 by { SumEmpty(); }
    var iter := new Iter(h);
    var total := 0;
    var more := iter.Next();
    while more
      invariant iter.Valid() && fresh(iter) && iter.h == h && h.Valid() && 0 <= total < k
      invariant more ==> iter.Pos() >= 0 && total == Sum(h.counts[..iter.Pos()])
      invariant !more ==> iter.countTo >= h.total && total == iter.countTo
      invariant RankFrom(h.g, h.counts[..], k, 0) == RankFrom(h.g, h.counts[..], k, if more then iter.Pos() else iter.Pos() + 1)
      decreases h.counts.Length - iter.Pos(), more
    {
      total := total + iter.countAt;
      SumOne(h.counts[..], iter.Pos());
      SameSums(h.counts, iter.Pos());
      if total >= k {
        IndexOnto(h.g, iter.Pos());
        EquivalentCell(h.g, iter.value);
        return HighestEquivalent(h.g, iter.value);
      }
      more := iter.Next();
    }
    h.Exhausted(iter.Pos() + 1);
    NeverReached(h.g, h.counts[..], k, iter.Pos() + 1);
    r := 0;
  }

  lemma SumEmpty()
    ensures Sum([]) == 0
  {
  }

  lemma SameSums(a: array<int>, i: nat)
    requires i < a.Length
    ensures a[..][..i] == a[..i] && a[..][..i + 1] == a[..i + 1]
  {
  }

  lemma {:induction false} NeverReached(g: Geometry, s: seq<int>, k: int, i: nat)
    requires i <= |s| && (forall j :: i <= j < |s| ==> s[j] == 0) && Sum(s[..i]) < k
    ensures RankFrom(g, s, k, i) == 0
    decreases |s| - i
  {
    if i < |s| {
      SumOne(s, i);
      NeverReached(g, s, k, i + 1);
    }
  }

  ghost predicate IsLeast(vs: seq<nat>, m: nat) {
    m in vs && forall v :: v in vs ==> m <= v
  }

  ghost predicate IsGreatest(vs: seq<nat>, m: nat) {
    m in vs && forall v :: v in vs ==> v <= m
  }

  lemma {:induction false} Least(vs: seq<nat>) returns (m: nat)
    requires vs != []
    ensures IsLeast(vs, m)
  {
    m := vs[0];
    if |vs| > 1 {
      var n := Least(vs[1..]);
      assert forall v :: v in vs ==> v == vs[0] || v in vs[1..];
      if n < m { m := n; }
    }
  }

  lemma {:induction false} Greatest(vs: seq<nat>) returns (m: nat)
    requires vs != []
    ensures IsGreatest(vs, m)
  {
    m := vs[0];
    if |vs| > 1 {
      var n := Greatest(vs[1..]);
      assert forall v :: v in vs ==> v == vs[0] || v in vs[1..];
      if n > m { m := n; }
    }
  }

  lemma {:induction false} InCell(g: Geometry, vs: seq<nat>, v: nat)
    requires v in vs
    ensures NumIn(g, vs, IndexFor(g, v)) > 0
  {
    var n := |vs| - 1;
    if v != vs[n] {
      assert v in vs[..n];
      InCell(g, vs[..n], v);
    }
  }

  lemma {:induction false} CellMember(g: Geometry, vs: seq<nat>, i: int) returns (v: nat)
    requires NumIn(g, vs, i) > 0
    ensures v in vs && IndexFor(g, v) == i
  {
    var n := |vs| - 1;
    if IndexFor(g, vs[n]) == i {
      v := vs[n];
    } else {
      v := CellMember(g, vs[..n], i);
    }
  }

  /** The first non-empty cell is that of the least value. */
  lemma FirstCell(g: Geometry, vs: seq<nat>, i: nat) returns (m: nat)
    requires NumIn(g, vs, i) > 0 && forall j: nat :: j < i ==> NumIn(g, vs, j) == 0
    ensures IsLeast(vs, m) && LowestEquivalent(g, m) == Low(g, i)
  {
    var v := CellMember(g, vs, i);
    m := Least(vs);
    InCell(g, vs, m);
    IndexMono(g, m, v);
    EquivalentCell(g, m);
  }

  lemma LastCell(g: Geometry, vs: seq<nat>, i: nat) returns (m: nat)
    requires NumIn(g, vs, i) > 0 && forall v :: v in vs && IndexFor(g, v) > i ==> NumIn(g, vs, IndexFor(g, v)) == 0
    ensures IsGreatest(vs, m) && LowestEquivalent(g, m) == Low(g, i)
  {
    var v := CellMember(g, vs, i);
    m := Greatest(vs);
    InCell(g, vs, m);
    IndexMono(g, v, m);
    EquivalentCell(g, m);
  }

  /** hdr_min */
  method Min(h: Histogram) returns (r: int)
    requires h.Valid()
    ensures h.recorded == [] ==> r == 0
    ensures h.recorded != [] ==> exists m :: IsLeast(h.recorded, m) && r == LowestEquivalent(h.g, m)
  {
    hide IndexFor, NumIn, Sum, NumBelow, Low, LowestEquivalent, IsLeast;
    r := 0;
    SumEmpty();
    assert h.counts[..0] == [];
    var iter := new Iter(h);
    var more := iter.Next();
    while more
      invariant iter.Valid() && fresh(iter) && iter.h == h && h.Valid() && r == 0
      invariant more ==> iter.Pos() >= 0 && Sum(h.counts[..iter.Pos()]) == 0
      invariant !more ==> iter.countTo >= h.total && iter.countTo == 0
      invariant forall j :: 0 <= j < iter.Pos() ==> h.counts[j] == 0
      decreases h.counts.Length - iter.Pos(), more
    {
      SumOne(h.counts[..], iter.Pos());
      SameSums(h.counts, iter.Pos());
      if iter.countTo != 0 {
        ghost var m := FirstCell(h.g, h.recorded, iter.Pos());
        return iter.value;
      }
      more := iter.Next();
    }
  }

  /** hdr_max */
  method MaxValue(h: Histogram) returns (r: int)
    requires h.Valid()
    ensures h.recorded == [] ==> r == 0
    ensures h.recorded != [] ==> exists m :: IsGreatest(h.recorded, m) && r == LowestEquivalent(h.g, m)
  {
    hide IndexFor, NumIn, Sum, NumBelow, Low, LowestEquivalent, HighestEquivalent, IsGreatest;
    var max := 0;
    ghost var last := -1;
    var iter := new Iter(h);
    SumEmpty();
    assert h.counts[..0] == [];
    var more := iter.Next();
    while more
      invariant iter.Valid() && fresh(iter) && iter.h == h && h.Valid()
      invariant -1 <= last <= iter.Pos() && (more ==> last < iter.Pos())
      invariant if last == -1 then max == 0 else h.counts[last] > 0 && max == Low(h.g, last + 1) - 1
      invariant forall j :: last < j < iter.Pos() ==> h.counts[j] == 0
      invariant !more ==> iter.countTo >= h.total && forall j :: last < j <= iter.Pos() ==> h.counts[j] == 0
      decreases h.counts.Length - iter.Pos(), more
    {
      if 0 != iter.countAt {
        max := iter.highest;
        last := iter.Pos();
      }
      more := iter.Next();
    }
    h.Exhausted(iter.Pos() + 1);
    if last == -1 {
      if h.recorded != [] {
        IndexOf(h.g, h.recorded[0]);
        InCell(h.g, h.recorded, h.recorded[0]);
      }
      LowestZero(h.g);
    } else {
      TopOfCell(h.g, last);
      forall v | v in h.recorded && IndexFor(h.g, v) > last ensures NumIn(h.g, h.recorded, IndexFor(h.g, v)) == 0 {
        var k :| 0 <= k < |h.recorded| && h.recorded[k] == v;
      }
      ghost var m := LastCell(h.g, h.recorded, last);
      assert h.recorded != [] by { MemberOf(h.g, h.recorded, last); }
    }
    r := LowestEquivalent(h.g, max);
  }

  lemma MemberOf(g: Geometry, vs: seq<nat>, i: int)
    requires NumIn(g, vs, i) > 0
    ensures vs != []
  {
  }

  lemma TopOfCell(g: Geometry, i: nat)
    ensures Low(g, i + 1) - 1 >= 0 && LowestEquivalent(g, Low(g, i + 1) - 1) == Low(g, i)
  {
    LowMono(g, i, i + 1);
    IndexIff(g, Low(g, i + 1) - 1, i);
    EquivalentCell(g, Low(g, i + 1) - 1);
  }

  lemma LowestZero(g: Geometry)
    ensures LowestEquivalent(g, 0) == 0
  {
    LowMono(g, 0, 1);
    LowZero(g);
    IndexIff(g, 0, 0);
    EquivalentCell(g, 0);
  }

  // ---- Coordinated omission ----

  /** The values missing between v and the interval d, largest first. */
  function Missing(m: int, d: int): seq<nat>
    requires d > 0
    decreases m
  {
    if m >= d then [m] + Missing(m - d, d) else []
  }

  function Backfill(v: nat, d: int): seq<nat> {
    if d <= 0 || v <= d then [] else Missing(v - d, d)
  }

  lemma {:induction false} MissingIs(m: int, d: int)
    requires d > 0
    ensures |Missing(m, d)| == if m >= d then m / d else 0
    ensures forall k :: 0 <= k < |Missing(m, d)| ==> d <= Missing(m, d)[k] == m - k * d <= m
    decreases m
  {
    if m >= d {
      MissingIs(m - d, d);
      DivLess(m, d);
      forall k | 0 < k < |Missing(m, d)| ensures d <= Missing(m, d)[k] == m - k * d <= m {
        assert Missing(m, d)[k] == Missing(m - d, d)[k - 1];
        MulAdd(k - 1, 1, d);
      }
    }
  }

  lemma DivLess(m: int, d: int)
    requires m >= d > 0
    ensures m / d == (if m - d >= d then (m - d) / d else 0) + 1
  {
    DivIs(m, d);
    var q := m / d;
    MulAdd(q, -1, d);
    if m - d >= d {
      DivIs(m - d, d);
      var p := (m - d) / d;
      MulAdd(p, 1, d);
      if p + 1 < q { MulLe(p + 2, q, d); MulAdd(p + 1, 1, d); }
      if q < p + 1 { MulLe(q + 1, p + 1, d); MulAdd(q, 1, d); }
    } else {
      if q >= 2 { MulLe(2, q, d); }
    }
  }

  /** The backfill of v is v - d, v - 2d, ... down to the last one of at least d. */
  lemma BackfillIs(v: nat, d: int)
    requires d > 0
    ensures |Backfill(v, d)| == if v > d then (if v - d >= d then (v - d) / d else 0) else 0
    ensures forall k :: 0 <= k < |Backfill(v, d)| ==> d <= Backfill(v, d)[k] == v - (k + 1) * d < v
  {
    if v > d {
      MissingIs(v - d, d);
      forall k | 0 <= k < |Backfill(v, d)| ensures d <= Backfill(v, d)[k] == v - (k + 1) * d < v { MulAdd(k, 1, d); }
    }
  }

  /** hdr_record_corrected_value: everything is recorded, or nothing. */
  method RecordCorrected(h: Histogram, v: nat, interval: int) returns (ok: bool)
    requires h.Valid()
    modifies h, h.counts
    ensures h.Valid() && ok == (IndexFor(h.g, v) < h.counts.Length)
    ensures h.recorded == if ok then old(h.recorded) + [v] + Backfill(v, interval) else old(h.recorded)
  {
    hide IndexFor;
    ok := h.Record(v);
    if !ok { return; }
    if interval <= 0 || v <= interval { return; }
    ghost var base := h.recorded;
    var missing := v - interval;
    while missing >= interval
      invariant h.Valid() && missing <= v && h.recorded + Missing(missing, interval) == base + Missing(v - interval, interval)
    {
      IndexMono(h.g, missing, v);
      ok := h.Record(missing);
      if !ok { return; }
      missing := missing - interval;
    }
  }

  // ---- Merging ----

  /** The first cells of s have been added to was. */
  ghost predicate Merged(was: seq<int>, now: seq<int>, s: seq<int>, done: nat) {
    |was| == |now| == |s| && forall i :: 0 <= i < |s| ==> now[i] == was[i] + if i < done then s[i] else 0
  }

  lemma MergedStep(was: seq<int>, now: seq<int>, next: seq<int>, s: seq<int>, i: nat)
    requires Merged(was, now, s, i) && i < |s| && |next| == |now|
    requires forall j :: 0 <= j < |s| ==> next[j] == now[j] + if j == i then s[i] else 0
    ensures Merged(was, next, s, i + 1)
  {
  }

  lemma MergedSkip(was: seq<int>, now: seq<int>, s: seq<int>, i: nat, done: nat)
    requires Merged(was, now, s, i) && i <= done <= |s| && forall j :: i <= j < done ==> s[j] == 0
    ensures Merged(was, now, s, done)
  {
  }

  lemma SameSize(h: Histogram, from: Histogram)
    requires h.Valid() && from.Valid()
    ensures h.g == from.g ==> h.counts.Length == from.counts.Length
  {
  }

  /** One cell of hdr_add. */
  method AddCell(h: Histogram, v: nat, count: nat, ghost i: nat, ghost s: seq<int>, ghost was: seq<int>) returns (dropped: int)
    requires h.Valid() && i < |s| && s[i] == count
    modifies h, h.counts
    ensures h.Valid() && h.total + dropped == old(h.total) + count
    ensures old(IndexFor(h.g, v) == i && Merged(was, h.counts[..], s, i)) ==> dropped == 0 && Merged(was, h.counts[..], s, i + 1)
  {
    hide IndexFor, Histogram.Valid, Merged;
    ghost var now := h.counts[..];
    var ok := h.RecordValues(v, count);
    dropped := if ok then 0 else count;
    if IndexFor(h.g, v) == i && Merged(was, now, s, i) {
      MergedLength(was, now, s, i);
      MergedStep(was, now, h.counts[..], s, i);
    }
  }

  lemma MergedLength(was: seq<int>, now: seq<int>, s: seq<int>, done: nat)
    requires Merged(was, now, s, done)
    ensures |was| == |now| == |s|
  {
  }

  /** hdr_add */
  method Add(h: Histogram, from: Histogram) returns (dropped: int)
    requires h.Valid() && from.Valid() && h != from && h.counts != from.counts
    modifies h, h.counts
    ensures h.Valid() && from.Valid()
    ensures h.total + dropped == old(h.total) + from.total
    ensures h.g == from.g ==> dropped == 0 && Merged(old(h.counts[..]), h.counts[..], from.counts[..], from.counts.Length)
  {
    hide IndexFor, NumIn, Sum, NumBelow, Low, Histogram.Valid, Iter.Valid, Merged;
    SumEmpty();
    assert from.counts[..0] == [];
    dropped := 0;
    var iter := new Iter(from);
    var more := iter.NextRecorded();
    ghost var done := if more then iter.Pos() else from.counts.Length;
    ghost var s, was := from.counts[..], h.counts[..];
    SumZeros(s, 0, done);
    SameSize(h, from);
    if h.g == from.g { MergedStart(was, s, done); }
    from.Totals(from.counts.Length);
    assert s == from.counts[..from.counts.Length];
    while more
      invariant iter.Valid() && fresh(iter) && iter.h == from && from.Valid() && h.Valid() && from.counts[..] == s
      invariant more ==> 0 <= iter.Pos() < |s| && 0 < iter.countAt == s[iter.Pos()] && iter.value == Low(from.g, iter.Pos())
      invariant done == if more then iter.Pos() else |s|
      invariant h.total + dropped == old(h.total) + Sum(s[..done])
      invariant h.g == from.g ==> dropped == 0 && Merged(was, h.counts[..], s, done)
      decreases from.counts.Length - iter.Pos(), more
    {
      var v, count := iter.value, iter.countAt;
      ghost var i := iter.Pos();
      IndexOnto(from.g, i);
      SumOne(s, i);
      var lost := AddCell(h, v, count, i, s, was);
      dropped := dropped + lost;
      more := iter.NextRecorded();
      done := if more then iter.Pos() else |s|;
      SumZeros(s, i + 1, done);
      if h.g == from.g { MergedSkip(was, h.counts[..], s, i + 1, done); }
    }
  }

  lemma MergedStart(was: seq<int>, s: seq<int>, done: nat)
    requires |was| == |s| && done <= |s| && forall j :: 0 <= j < done ==> s[j] == 0
    ensures Merged(was, was, s, done)
  {
  }

  lemma {:induction false} SumZeros(s: seq<int>, i: nat, j: nat)
    requires i <= j <= |s| && forall k :: i <= k < j ==> s[k] == 0
    ensures Sum(s[..i]) == Sum(s[..j])
    decreases j - i
  {
    if i < j {
      SumZeros(s, i, j - 1);
      SumOne(s, j - 1);
    }
  }

  /** Merged counters agree with the concatenated lists, so every rank of the merge is that
      of recording all values into one histogram. */
  lemma MergedAgree(g: Geometry, a: seq<int>, b: seq<int>, c: seq<int>, vs: seq<nat>, ws: seq<nat>)
    requires Agree(g, a, vs) && Agree(g, b, ws) && Merged(a, c, b, |b|)
    ensures Agree(g, c, vs + ws)
  {
    hide IndexFor, NumIn;
    forall i | 0 <= i < |c| ensures c[i] == NumIn(g, vs + ws, i) { NumInAppend(g, vs, ws, i); }
  }
}
