/** The year constants of the front end and the timeline they make
    (src/models/constants.ts). */
module Constants {
  import opened Text
  import opened Seqs

  /** The reference year of the temperature deltas. */
  const REFERENCE_YEAR: nat := 1990
  const MIN_CONTINUOUS_YEAR: nat := REFERENCE_YEAR
  const MAX_CONTINUOUS_YEAR: nat := 2035
  const FUTURE_SCENARIO_YEAR1: nat := 2050
  const FUTURE_SCENARIO_YEAR2: nat := 2100
  const BEGIN_MODELED_YEAR: nat := 2014

  /** `[...Array(count).keys()].map(x => first + x)`. */
  function YearRange(first: nat, count: nat): (r: seq<nat>)
    ensures |r| == count
    ensures forall i :: 0 <= i < count ==> r[i] == first + i
  {
    seq(count, i requires 0 <= i < count => first + i)
  }

  /** JavaScript's string order: `a` is a prefix of `b`, or `a` has the smaller code
      unit where they first differ. */
  predicate StringLe(a: string, b: string) {
    a == [] || (b != [] && (a[0] < b[0] || (a[0] == b[0] && StringLe(a[1..], b[1..]))))
  }

  /** The comparison `Array.prototype.sort` uses when given no comparator: the
      decimal texts of the numbers, in string order. */
  predicate DefaultSortLe(x: nat, y: nat) {
    StringLe(NatToString(x), NatToString(y))
  }

  /** `TIMELINE_YEARS`: the continuous years and the two scenario years, sorted
      with the default (string) comparison. */
  function TimelineYears(): (r: seq<nat>)
    ensures |r| == 48
  {
    Sort(YearRange(MIN_CONTINUOUS_YEAR, MAX_CONTINUOUS_YEAR - MIN_CONTINUOUS_YEAR + 1)
           + [FUTURE_SCENARIO_YEAR1, FUTURE_SCENARIO_YEAR2], DefaultSortLe)
  }

  lemma {:induction false} StringLeSnoc(x: string, y: string, c: char, d: char)
    requires |x| == |y|
    requires StringLe(x, y)
    requires x == y ==> c <= d
    ensures StringLe(x + [c], y + [d])
  {
    if x != [] {
      assert (x + [c])[1..] == x[1..] + [c];
      assert (y + [d])[1..] == y[1..] + [d];
      if x[0] == y[0] {
        StringLeSnoc(x[1..], y[1..], c, d);
      }
    }
  }

  /** The decimal text determines the number. */
  lemma NatToStringInjective(a: nat, b: nat)
    requires NatToString(a) == NatToString(b)
    ensures a == b
  {
    NatToStringRoundTrip(a);
    NatToStringRoundTrip(b);
  }

  lemma {:induction false} NatToStringLength(a: nat, b: nat)
    requires a <= b
    ensures |NatToString(a)| <= |NatToString(b)|
    decreases b
  {
    if a >= 10 {
      NatToStringLength(a / 10, b / 10);
    }
  }

  /** For numbers with the same count of digits, string order is numeric order. */
  lemma {:induction false} SameLengthOrder(a: nat, b: nat)
    requires a <= b && |NatToString(a)| == |NatToString(b)|
    ensures DefaultSortLe(a, b)
    decreases b
  {
    if b >= 10 {
      assert a >= 10;
      SameLengthOrder(a / 10, b / 10);
      if NatToString(a / 10) == NatToString(b / 10) {
        NatToStringInjective(a / 10, b / 10);
      }
      StringLeSnoc(NatToString(a / 10), NatToString(b / 10), DigitChar(a % 10), DigitChar(b % 10));
    }
  }

  lemma FourDigits(n: nat)
    requires 1000 <= n <= 9999
    ensures |NatToString(n)| == 4
  {
    assert |NatToString(n / 1000)| == 1;
    assert |NatToString(n / 100)| == 2;
    assert |NatToString(n / 10)| == 3;
  }

  /** The years before sorting, already in order. */
  lemma UnsortedOrdered()
    ensures Ordered(YearRange(MIN_CONTINUOUS_YEAR, MAX_CONTINUOUS_YEAR - MIN_CONTINUOUS_YEAR + 1)
                      + [FUTURE_SCENARIO_YEAR1, FUTURE_SCENARIO_YEAR2], DefaultSortLe)
  {
    var s := YearRange(MIN_CONTINUOUS_YEAR, MAX_CONTINUOUS_YEAR - MIN_CONTINUOUS_YEAR + 1)
               + [FUTURE_SCENARIO_YEAR1, FUTURE_SCENARIO_YEAR2];
    forall i | 0 < i < |s| ensures DefaultSortLe(s[i - 1], s[i]) {
      FourDigits(s[i - 1]);
      FourDigits(s[i]);
      SameLengthOrder(s[i - 1], s[i]);
    }
  }

  /** Sorting by text changes nothing: the timeline is every continuous year from
      the reference year to 2035 followed by 2050 and 2100. */
  lemma TimelineYearsUnchanged()
    ensures TimelineYears() == YearRange(REFERENCE_YEAR, 46) + [2050, 2100]
  {
    UnsortedOrdered();
    SortOfOrdered(YearRange(MIN_CONTINUOUS_YEAR, MAX_CONTINUOUS_YEAR - MIN_CONTINUOUS_YEAR + 1)
                    + [FUTURE_SCENARIO_YEAR1, FUTURE_SCENARIO_YEAR2], DefaultSortLe);
  }

  /** A run of consecutive years followed by two later years is strictly increasing. */
  lemma RangeThenTwoIncreasing(first: nat, count: nat, x: nat, y: nat)
    requires first + count <= x < y
    ensures var t := YearRange(first, count) + [x, y];
      forall i, j :: 0 <= i < j < |t| ==> t[i] < t[j]
  {
    var r := YearRange(first, count);
    var t := r + [x, y];
    forall i, j | 0 <= i < j < |t| ensures t[i] < t[j] {
      if j < count {
        assert t[i] == r[i] && t[j] == r[j];
      } else if i < count {
        assert t[i] == r[i];
      }
    }
  }

  /** The timeline has 48 years; it starts at the reference year and 2035 is
      followed only by the two scenario years. */
  lemma TimelineYearsShape()
    ensures var t := TimelineYears();
      && |t| == 48
      && t[0] == REFERENCE_YEAR == MIN_CONTINUOUS_YEAR
      && t[45] == MAX_CONTINUOUS_YEAR && t[46..] == [FUTURE_SCENARIO_YEAR1, FUTURE_SCENARIO_YEAR2]
  {
    TimelineYearsUnchanged();
  }

  /** Although sorted as text, the timeline is strictly increasing as numbers. */
  lemma TimelineYearsIncreasing()
    ensures var t := TimelineYears();
      forall i, j :: 0 <= i < j < |t| ==> t[i] < t[j]
  {
    TimelineYearsUnchanged();
    RangeThenTwoIncreasing(REFERENCE_YEAR, 46, 2050, 2100);
  }

  /** The timeline holds exactly the years 1990 to 2035, 2050 and 2100. */
  lemma TimelineYearsMembers(y: nat)
    ensures y in TimelineYears() <==> (REFERENCE_YEAR <= y <= MAX_CONTINUOUS_YEAR || y == 2050 || y == 2100)
  {
    var r := YearRange(REFERENCE_YEAR, 46);
    var t := r + [2050, 2100];
    if REFERENCE_YEAR <= y <= MAX_CONTINUOUS_YEAR {
      assert t[y - REFERENCE_YEAR] == r[y - REFERENCE_YEAR] == y;
    }
    if y in t && y !in [2050, 2100] {
      assert y in r;
    }
    TimelineYearsUnchanged();
  }
}
