/** The timeline's index arithmetic (src/utils/interpolated_years.ts): the
    continuous years take one index each; every modeled year is preceded by
    `padding` interpolated points. */
module Timeline {
  import opened Common
  import opened MathHelpers
  import opened Seqs

  /** `Math.round(a / d)` for a positive divisor: the integer nearest to the
      quotient, halves rounded up. */
  function RoundQuotient(a: int, d: int): (r: int)
    requires d > 0
    ensures 2 * r * d <= 2 * a + d < 2 * (r + 1) * d
  {
    (2 * a + d) / (2 * d)
  }

  /** Multiplying by a natural number keeps the order: the non-linear step the
      bounds on `RoundQuotient` and on the block positions rest on. */
  lemma MulMonotone(a: int, b: int, c: nat)
    requires a <= b
    ensures a * c <= b * c
  {
  }

  /** Euclidean division has one quotient. */
  lemma DivUnique(a: int, b: int, q: int, rem: int)
    requires b > 0 && a == q * b + rem && 0 <= rem < b
    ensures a / b == q
  {
    var t := a / b - q;
    assert t * b == rem - a % b;
    if t >= 1 {
      MulMonotone(1, t, b);
    } else if t <= -1 {
      MulMonotone(t, -1, b);
    }
  }

  lemma RoundExact(k: int, d: int)
    requires d > 0
    ensures RoundQuotient(k * d, d) == k
  {
    assert 2 * (k * d) + d == k * (2 * d) + d;
    DivUnique(2 * (k * d) + d, 2 * d, k, d);
  }

  /** `Array.prototype.indexOf`: the first position of `x`, or -1. */
  function IndexOf(s: seq<int>, x: int): (r: int)
    ensures -1 <= r < |s|
    ensures r == -1 <==> x !in s
    ensures r >= 0 ==> s[r] == x && x !in s[..r]
  {
    if s == [] then -1
    else if s[0] == x then 0
    else
      var k := IndexOf(s[1..], x);
      assert s[1..][..(if k < 0 then 0 else k)] == s[1..(if k < 0 then 1 else k + 1)];
      if k < 0 then -1 else k + 1
  }

  /** The index sequence `Range(0, n).toArray()`. */
  function Prefix(n: nat): (r: seq<int>)
    ensures |r| == n && forall i :: 0 <= i < n ==> r[i] == i
  {
    seq(n, i requires 0 <= i < n => i)
  }

  /** The indices pushed for one data point: `padding` interpolated points from
      `start` on, then the real point, which repeats the last index because the
      counter is advanced only after interpolated points. */
  function IndexBlock(start: int, padding: nat): (r: seq<int>)
    ensures |r| == padding + 1
    ensures forall j :: 0 <= j < padding ==> r[j] == start + j
    ensures r[padding] == start + padding
  {
    seq(padding + 1, j requires 0 <= j <= padding => start + j)
  }

  /** The indices pushed for the first `k` data points after the continuous ones. */
  function IndexBlocks(n: nat, padding: nat, k: nat): seq<int> {
    if k == 0 then [] else IndexBlocks(n, padding, k - 1) + IndexBlock(n + (k - 1) * padding, padding)
  }

  /** The weight of the current point at the `j`-th of `padding` interpolated points. */
  function Ratio(j: nat, padding: nat): real {
    (j + 1) as real / (padding + 1) as real
  }

  /** The values pushed for one data point: `padding` points of `lerp(previous,
      current, (j + 1) / (padding + 1))`, then `current` itself. */
  function ValueBlock(previous: real, current: real, padding: nat): (r: seq<real>)
    ensures |r| == padding + 1
    ensures r[padding] == current
  {
    seq(padding + 1, j requires 0 <= j <= padding =>
      if j < padding then Lerp(previous, current, Ratio(j, padding)) else current)
  }

  /** The values pushed for the first `k` data points after the `n` continuous ones. */
  function ValueBlocks(data: seq<real>, n: nat, padding: nat, k: nat): seq<real>
    requires n >= 1 && n + k <= |data|
  {
    if k == 0 then [] else ValueBlocks(data, n, padding, k - 1) + ValueBlock(data[n + k - 2], data[n + k - 1], padding)
  }

  lemma {:induction false} IndexBlocksLength(n: nat, padding: nat, k: nat)
    ensures |IndexBlocks(n, padding, k)| == k * (padding + 1)
  {
    if k > 0 {
      IndexBlocksLength(n, padding, k - 1);
    }
  }

  lemma {:induction false} ValueBlocksLength(data: seq<real>, n: nat, padding: nat, k: nat)
    requires n >= 1 && n + k <= |data|
    ensures |ValueBlocks(data, n, padding, k)| == k * (padding + 1)
  {
    if k > 0 {
      ValueBlocksLength(data, n, padding, k - 1);
    }
  }

  /** The `j`-th index pushed for data point `m` after the continuous ones is
      `n + m * padding + j`. */
  lemma {:induction false} IndexBlocksAt(n: nat, padding: nat, k: nat, m: nat, j: nat)
    requires m < k && j <= padding
    ensures m * (padding + 1) + j < |IndexBlocks(n, padding, k)|
    ensures IndexBlocks(n, padding, k)[m * (padding + 1) + j] == n + m * padding + j
  {
    IndexBlocksLength(n, padding, k - 1);
    IndexBlocksLength(n, padding, k);
    if m < k - 1 {
      IndexBlocksAt(n, padding, k - 1, m, j);
      MulMonotone(m + 1, k - 1, padding + 1);
    } else {
      assert m * (padding + 1) == |IndexBlocks(n, padding, k - 1)|;
    }
  }

  lemma {:induction false} ValueBlocksAt(data: seq<real>, n: nat, padding: nat, k: nat, m: nat, j: nat)
    requires n >= 1 && n + k <= |data| && m < k && j <= padding
    ensures m * (padding + 1) + j < |ValueBlocks(data, n, padding, k)|
    ensures ValueBlocks(data, n, padding, k)[m * (padding + 1) + j] ==
      ValueBlock(data[n + m - 1], data[n + m], padding)[j]
  {
    ValueBlocksLength(data, n, padding, k - 1);
    ValueBlocksLength(data, n, padding, k);
    var before := ValueBlocks(data, n, padding, k - 1);
    var block := ValueBlock(data[n + k - 2], data[n + k - 1], padding);
    assert ValueBlocks(data, n, padding, k) == before + block;
    var at := m * (padding + 1) + j;
    if m < k - 1 {
      ValueBlocksAt(data, n, padding, k - 1, m, j);
      MulMonotone(m + 1, k - 1, padding + 1);
      assert (before + block)[at] == before[at];
    } else {
      assert at == |before| + j;
      assert (before + block)[at] == block[j];
    }
  }

  /** The `j`-th value pushed for data point `m` after the continuous ones: an
      interpolation between the previous and the current point with weight
      `(j + 1) / (padding + 1)`, or the current point itself at the end of its block. */
  lemma InterpolatedValueAt(data: seq<real>, n: nat, padding: nat, k: nat, m: nat, j: nat)
    requires n >= 1 && n + k <= |data| && m < k && j <= padding
    ensures m * (padding + 1) + j < |ValueBlocks(data, n, padding, k)|
    ensures ValueBlocks(data, n, padding, k)[m * (padding + 1) + j] ==
      if j < padding then Lerp(data[n + m - 1], data[n + m], Ratio(j, padding))
      else data[n + m]
  {
    ValueBlocksAt(data, n, padding, k, m, j);
  }

  /** Each element of `s` after the first is its predecessor or one more. */
  predicate UnitSteps(s: seq<int>)
    decreases |s|
  {
    |s| < 2 || (s[0] <= s[1] <= s[0] + 1 && UnitSteps(s[1..]))
  }

  /** What unit steps mean at each position. */
  lemma {:induction false} UnitStepsAt(s: seq<int>, i: nat)
    requires UnitSteps(s) && 0 < i < |s|
    ensures s[i - 1] <= s[i] <= s[i - 1] + 1
  {
    if i > 1 {
      UnitStepsAt(s[1..], i - 1);
    }
  }

  /** Unit steps at each position are unit steps. */
  lemma {:induction false} UnitStepsOfEach(s: seq<int>)
    requires forall i, j :: 0 <= i < j < |s| && j == i + 1 ==> s[i] <= s[j] <= s[i] + 1
    ensures UnitSteps(s)
  {
    if |s| >= 2 {
      var t := s[1..];
      assert forall i, j :: 0 <= i < j < |t| && j == i + 1 ==> t[i] == s[i + 1] && t[j] == s[j + 1];
      UnitStepsOfEach(t);
    }
  }

  /** Two sequences of unit steps joined by a unit step make one. */
  lemma {:induction false} UnitStepsConcat(a: seq<int>, b: seq<int>)
    requires UnitSteps(a)
    requires UnitSteps(b)
    requires a != [] && b != [] ==> a[|a| - 1] <= b[0] <= a[|a| - 1] + 1
    ensures UnitSteps(a + b)
  {
    if a == [] {
      assert a + b == b;
    } else {
      ConsSplit(a, b);
      UnitStepsConcat(a[1..], b);
      if |a| == 1 {
        assert a[1..] + b == b;
      } else {
        assert (a[1..] + b)[0] == a[1];
      }
    }
  }

  /** The last index after `k` data points: `n - 1` for none, else that of the
      last data point itself. */
  lemma IndicesLast(n: nat, padding: nat, k: nat, base: int)
    requires base == k * padding
    requires n + k > 0
    ensures var s := Prefix(n) + IndexBlocks(n, padding, k);
      s != [] && s[|s| - 1] == n + base - (if k == 0 then 1 else 0)
  {
    var s := Prefix(n) + IndexBlocks(n, padding, k);
    if k > 0 {
      var b := IndexBlock(n + (k - 1) * padding, padding);
      assert s == Prefix(n) + IndexBlocks(n, padding, k - 1) + b;
      assert s[|s| - 1] == b[padding];
      assert (k - 1) * padding + padding == base;
    }
  }

  /** The continuous indices grow by one. */
  lemma PrefixSteps(n: nat)
    ensures UnitSteps(Prefix(n))
  {
    var p := Prefix(n);
    forall i, j | 0 <= i < j < n && j == i + 1 ensures p[i] <= p[j] <= p[i] + 1 {
      assert p[i] == i && p[j] == j;
    }
    UnitStepsOfEach(p);
  }

  /** Inside a block the indices grow by one. */
  lemma IndexBlockSteps(start: int, padding: nat)
    ensures UnitSteps(IndexBlock(start, padding))
  {
    var b := IndexBlock(start, padding);
    forall i, j | 0 <= i < j < |b| && j == i + 1 ensures b[i] <= b[j] <= b[i] + 1 {
      assert b[i] == start + i && b[j] == start + j;
    }
    UnitStepsOfEach(b);
  }

  /** Consecutive indices grow by one inside a block and repeat across a block
      boundary, so the index sequence never decreases. */
  lemma {:induction false} IndicesSteps(n: nat, padding: nat, k: nat)
    ensures UnitSteps(Prefix(n) + IndexBlocks(n, padding, k))
  {
    if k == 0 {
      assert Prefix(n) + IndexBlocks(n, padding, k) == Prefix(n);
      PrefixSteps(n);
    } else {
      IndicesSteps(n, padding, k - 1);
      IndicesStep(n, padding, k);
    }
  }

  /** The block of one more data point keeps the index sequence in unit steps. */
  lemma IndicesStep(n: nat, padding: nat, k: nat)
    requires k > 0 && UnitSteps(Prefix(n) + IndexBlocks(n, padding, k - 1))
    ensures UnitSteps(Prefix(n) + IndexBlocks(n, padding, k))
  {
    var base := (k - 1) * padding;
    var a := Prefix(n) + IndexBlocks(n, padding, k - 1);
    IndicesSnoc(n, padding, k, base);
    IndicesJunction(n, padding, k, base);
    JoinBlock(a, n + base, padding);
    UnitStepsEqual(Prefix(n) + IndexBlocks(n, padding, k), a + IndexBlock(n + base, padding));
  }

  /** The block of data point `k - 1` starts at the last index before it, or one after. */
  lemma IndicesJunction(n: nat, padding: nat, k: nat, base: int)
    requires k > 0 && base == (k - 1) * padding
    ensures var a := Prefix(n) + IndexBlocks(n, padding, k - 1);
      a != [] ==> a[|a| - 1] == n + base || a[|a| - 1] == n + base - 1
  {
    if n + (k - 1) > 0 {
      IndicesLast(n, padding, k - 1, base);
    } else {
      assert Prefix(n) + IndexBlocks(n, padding, k - 1) == [];
    }
  }

  /** Unit steps are a property of the elements alone. */
  lemma UnitStepsEqual(s: seq<int>, t: seq<int>)
    requires s == t && UnitSteps(t)
    ensures UnitSteps(s)
  {
  }

  /** A block whose first index repeats or follows the last one keeps unit steps. */
  lemma JoinBlock(a: seq<int>, start: int, padding: nat)
    requires UnitSteps(a)
    requires a != [] ==> a[|a| - 1] == start || a[|a| - 1] == start - 1
    ensures UnitSteps(a + IndexBlock(start, padding))
  {
    IndexBlockSteps(start, padding);
    UnitStepsConcat(a, IndexBlock(start, padding));
  }

  /** The indices after `k` data points are those after `k - 1`, then the block of
      the last one. */
  lemma IndicesSnoc(n: nat, padding: nat, k: nat, base: int)
    requires k > 0 && base == (k - 1) * padding
    ensures Prefix(n) + IndexBlocks(n, padding, k) == (Prefix(n) + IndexBlocks(n, padding, k - 1)) + IndexBlock(n + base, padding)
  {
    ConcatAssociative(Prefix(n), IndexBlocks(n, padding, k - 1), IndexBlock(n + base, padding));
  }

  /** One more data point on the index sequence: its padding indices, then its own. */
  lemma IndexStep(n: nat, padding: nat, k: nat, indices: seq<int>)
    requires indices == Prefix(n) + IndexBlocks(n, padding, k)
    ensures var start := n + k * padding;
      indices + IndexBlock(start, padding)[..padding] + [start + padding] == Prefix(n) + IndexBlocks(n, padding, k + 1)
  {
    var block := IndexBlock(n + k * padding, padding);
    assert block == block[..padding] + [block[padding]];
  }

  /** One more data point on the value sequence: its interpolated values, then its own. */
  lemma ValueStep(data: seq<real>, n: nat, padding: nat, k: nat, values: seq<real>)
    requires n >= 1 && n + k < |data|
    requires values == data[..n] + ValueBlocks(data, n, padding, k)
    ensures var block := ValueBlock(data[n + k - 1], data[n + k], padding);
      values + block[..padding] + [data[n + k]] == data[..n] + ValueBlocks(data, n, padding, k + 1)
  {
    var block := ValueBlock(data[n + k - 1], data[n + k], padding);
    assert block == block[..padding] + [block[padding]];
  }

  /** The `forEach` over the padding points of one data point: pushes `padding`
      indices counting up from `index` and the interpolated values between
      `previous` and `current`, advancing the index once per point. */
  method PushPadding(indices: seq<int>, values: seq<real>, index: int, previous: real, current: real, padding: nat)
    returns (indices': seq<int>, values': seq<real>, index': int)
    ensures indices' == indices + IndexBlock(index, padding)[..padding]
    ensures values' == values + ValueBlock(previous, current, padding)[..padding]
    ensures index' == index + padding
  {
    indices', values', index' := indices, values, index;
    var i := 0;
    while i < padding
      invariant 0 <= i <= padding
      invariant index' == index + i
      invariant indices' == indices + IndexBlock(index, padding)[..i]
      invariant values' == values + ValueBlock(previous, current, padding)[..i]
    {
      var ratio := Ratio(i, padding);
      var lerp := Lerp(previous, current, ratio);
      indices' := indices' + [index'];
      values' := values' + [lerp];
      index' := index' + 1;
      i := i + 1;
      assert IndexBlock(index, padding)[..i] == IndexBlock(index, padding)[..i - 1] + [index' - 1];
      assert ValueBlock(previous, current, padding)[..i] == ValueBlock(previous, current, padding)[..i - 1] + [lerp];
    }
  }

  /** The timeline of `InterpolatedYears`: the continuous years, the modeled years
      and the number of padding points before each modeled year. */
  class InterpolatedYears {
    var continuous: seq<int>
    var modeled: seq<int>
    var padding: nat
    /** How many indices the padded timeline has. */
    var totalYearsPadded: int

    ghost predicate Valid()
      reads this
    {
      totalYearsPadded == |continuous| + (padding + 1) * |modeled|
    }

    constructor(continuousYears: seq<int>, modeledYears: seq<int>, paddingYears: nat)
      ensures continuous == continuousYears && modeled == modeledYears && padding == paddingYears
      ensures totalYearsPadded == |continuousYears| + (paddingYears + 1) * |modeledYears|
      ensures Valid()
    {
      continuous := continuousYears;
      modeled := modeledYears;
      padding := paddingYears;
      totalYearsPadded := |continuousYears| + (paddingYears + 1) * |modeledYears|;
    }

    /** `indexToYear`: the continuous year at a continuous index; past them, the
        modeled year whose block the index falls in, clamped to the modeled years.
        `None` is `undefined`: a negative index, or no modeled year to return. */
    function IndexToYear(index: int): (r: Option<int>)
      reads this
      ensures 0 <= index < |continuous| ==> r == Some(continuous[index])
      ensures index < 0 ==> r.None?
      ensures index >= |continuous| ==> (r.Some? <==> |modeled| > 0)
      ensures index >= |continuous| && r.Some? ==> r.value in modeled
    {
      if index < |continuous| then
        if index >= 0 then Some(continuous[index]) else None
      else
        var numModeled := RoundQuotient(index - (|continuous| - 1), padding + 1);
        var modeledIndex := Clamp(numModeled - 1, 0, |modeled| - 1);
        if 0 <= modeledIndex < |modeled| then Some(modeled[modeledIndex]) else None
    }

    /** `yearToIndex`: a year up to the last continuous one is counted from the
        first continuous year; a later year is placed after the padding of its
        position among the modeled years, with `indexOf`'s -1 for a year that is
        not modeled. */
    function YearToIndex(year: int): (r: int)
      reads this
      ensures |continuous| > 0 && year <= continuous[|continuous| - 1] ==> r == year - continuous[0]
      ensures !(|continuous| > 0 && year <= continuous[|continuous| - 1]) ==>
        r == |continuous| + padding + IndexOf(modeled, year) * (padding + 1)
    {
      if |continuous| > 0 && year <= continuous[|continuous| - 1] then year - continuous[0]
      else
        var start := |continuous| + padding;
        start + IndexOf(modeled, year) * (padding + 1)
    }

    /** Continuous years one apart from each other. */
    ghost predicate ConsecutiveContinuous()
      reads this
    {
      forall i :: 0 <= i < |continuous| ==> continuous[i] == continuous[0] + i
    }

    /** For consecutive continuous years, a continuous year's index is its distance
        from the first one, and the index maps back to the year. */
    lemma ContinuousRoundTrip(i: nat)
      requires ConsecutiveContinuous() && i < |continuous|
      ensures YearToIndex(continuous[i]) == i
      ensures IndexToYear(YearToIndex(continuous[i])) == Some(continuous[i])
    {
      assert continuous[|continuous| - 1] == continuous[0] + |continuous| - 1;
    }

    /** For distinct modeled years after the continuous ones, the `k`-th modeled
        year sits after `k + 1` paddings, and its index maps back to it. */
    lemma ModeledRoundTrip(k: nat)
      requires k < |modeled|
      requires forall a, b :: 0 <= a < b < |modeled| ==> modeled[a] != modeled[b]
      requires |continuous| > 0 ==> modeled[k] > continuous[|continuous| - 1]
      ensures YearToIndex(modeled[k]) == |continuous| + padding + k * (padding + 1)
      ensures IndexToYear(YearToIndex(modeled[k])) == Some(modeled[k])
    {
      var y := modeled[k];
      assert IndexOf(modeled, y) == k;
      var index := |continuous| + padding + k * (padding + 1);
      assert index - (|continuous| - 1) == (k + 1) * (padding + 1);
      RoundExact(k + 1, padding + 1);
    }

    /** A year after the continuous ones that is not modeled lands on the last
        continuous index, because `indexOf` gives -1. */
    lemma UnmodeledYear(year: int)
      requires |continuous| > 0 && year > continuous[|continuous| - 1] && year !in modeled
      ensures YearToIndex(year) == |continuous| - 1
    {
    }

    /** `interpolate(data)`: the continuous indices and data, then for each later
        data point `padding` interpolated points and the point itself. The first
        interpolation needs a previous point, a continuous one. */
    method Interpolate(data: seq<real>) returns (indices: seq<int>, values: seq<real>)
      requires |data| > |continuous| ==> |continuous| > 0
      ensures var n := |continuous|;
        indices == Prefix(n) + (if |data| > n then IndexBlocks(n, padding, |data| - n) else [])
      ensures var n := |continuous|;
        values == (if |data| > n then data[..n] + ValueBlocks(data, n, padding, |data| - n)
                   else data)
    {
      var n := |continuous|;
      indices := Prefix(n);
      if |data| <= n {
        // `data.slice(n)` is empty: the slice of the data is all of it.
        values := data;
        assert indices == Prefix(n) + [];
        return;
      }
      values := data[..n];
      var index := n;
      var previous := data[n - 1];
      var rest := data[n..];
      var k := 0;
      while k < |rest|
        invariant 0 <= k <= |rest|
        invariant index == n + k * padding
        invariant indices == Prefix(n) + IndexBlocks(n, padding, k)
        invariant values == data[..n] + ValueBlocks(data, n, padding, k)
        invariant previous == data[n + k - 1]
      {
        var current := rest[k];
        assert current == data[n + k];
        ghost var blocks, valueBlocks := indices, values;
        indices, values, index := PushPadding(indices, values, index, previous, current, padding);
        indices := indices + [index];
        values := values + [current];
        IndexStep(n, padding, k, blocks);
        ValueStep(data, n, padding, k, valueBlocks);
        assert n + (k + 1) * padding == n + k * padding + padding;
        previous := current;
        k := k + 1;
      }
    }

    /** The interpolated arrays have one entry per index of the padded timeline:
        with one data point per continuous and per modeled year, that is
        `totalYearsPadded`. */
    lemma InterpolatedLength(data: seq<real>)
      requires Valid() && |continuous| > 0 && |data| == |continuous| + |modeled|
      ensures var n := |continuous|;
        var k := |data| - n;
        && |Prefix(n) + IndexBlocks(n, padding, k)| == totalYearsPadded
        && (k > 0 ==> |data[..n] + ValueBlocks(data, n, padding, k)| == totalYearsPadded)
    {
      var n := |continuous|;
      IndexBlocksLength(n, padding, |data| - n);
      if |data| > n {
        ValueBlocksLength(data, n, padding, |data| - n);
      }
    }
  }
}
