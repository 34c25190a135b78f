/** The nearest-rank percentile every summary uses (engine/smoke.py, `percentile`). */
module OrderStatistics {
  import opened Seqs
  import opened Sorting
  import RealMul

  predicate RealLe(a: real, b: real) {
    a <= b
  }

  function Ceil(x: real): (n: int)
    ensures n as real - 1.0 < x <= n as real
  {
    -((-x).Floor)
  }

  function Fraction(pct: real): real {
    pct / 100.0
  }

  /** `pct / 100.0 * n`: how many of `n` values a percentile has to cover. */
  function Share(pct: real, n: nat): real {
    Fraction(pct) * n as real
  }

  /** The 0-based position `min(max(ceil(share) - 1, 0), n - 1)`. */
  function Position(share: real, n: nat): (i: nat)
    requires n > 0
    ensures i < n
  {
    var rank := Ceil(share);
    if rank < 1 then 0 else if rank > n then n - 1 else rank - 1
  }

  function Percentile(values: seq<real>, pct: real): Option<real> {
    if values == [] then None
    else
      var ordered := Sort(values, RealLe);
      SortPermutes(values, RealLe);
      Some(ordered[Position(Share(pct, |values|), |ordered|)])
  }

  lemma RealOrder()
    ensures TotalPreorder(RealLe) && Antisymmetric(RealLe)
  {}

  function AtMost(values: seq<real>, t: real): nat {
    Count(v => v <= t, values)
  }

  /** In a sorted list, at least k + 1 values are at most t exactly when the one at position k is. */
  lemma {:induction false} SortedCount(s: seq<real>, t: real, k: nat)
    requires Sorted(s, RealLe) && k < |s|
    ensures s[k] <= t <==> AtMost(s, t) > k
  {
    var p := (v: real) => v <= t;
    if k == 0 {
      if s[0] > t {
        NoneBelow(s, t);
      }
    } else {
      SortedCount(s[1..], t, k - 1);
      if s[0] > t {
        NoneBelow(s, t);
      }
    }
  }

  lemma {:induction false} NoneBelow(s: seq<real>, t: real)
    requires forall i :: 0 <= i < |s| ==> s[i] > t
    ensures AtMost(s, t) == 0
  {
    if s != [] {
      NoneBelow(s[1..], t);
    }
  }

  /**
   * What the percentile means: it is at most `t` exactly when at least the share `pct` of the values is.
   */
  lemma PercentileBelow(values: seq<real>, pct: real, t: real)
    requires values != [] && 0.0 < pct <= 100.0
    ensures Percentile(values, pct).Some?
    ensures Percentile(values, pct).value <= t <==> AtMost(values, t) as real >= Share(pct, |values|)
  {
    var s, n := Sort(values, RealLe), |values|;
    SortPermutes(values, RealLe);
    RealOrder();
    SortSorts(values, RealLe);
    CountPermuted(v => v <= t, s, values);
    ShareInRange(pct, n);
    var k := Position(Share(pct, n), n);
    SortedCount(s, t, k);
    assert AtMost(s, t) == AtMost(values, t);
  }

  lemma ShareInRange(pct: real, n: nat)
    requires 0.0 < pct <= 100.0 && n > 0
    ensures 0.0 < Share(pct, n) <= n as real
    ensures Position(Share(pct, n), n) == Ceil(Share(pct, n)) - 1
  {
    RealMul.Positive(Fraction(pct), n as real);
    RealMul.Monotone(Fraction(pct), 1.0, n as real);
  }

  /** It is one of the values. */
  lemma PercentileIsAValue(values: seq<real>, pct: real)
    requires values != []
    ensures Percentile(values, pct).Some? && Percentile(values, pct).value in values
  {
    var s := Sort(values, RealLe);
    SortPermutes(values, RealLe);
    SameMultiset(s, values);
    assert s[Position(Share(pct, |values|), |s|)] in s;
  }

  /** Percentiles grow with the percentage. */
  lemma PercentileMonotone(values: seq<real>, low: real, high: real)
    requires values != [] && 0.0 < low <= high <= 100.0
    ensures Percentile(values, low).value <= Percentile(values, high).value
  {
    var t := Percentile(values, high).value;
    PercentileBelow(values, high, t);
    PercentileBelow(values, low, t);
    ShareMonotone(low, high, |values|);
  }

  lemma ShareMonotone(low: real, high: real, n: nat)
    requires low <= high
    ensures Share(low, n) <= Share(high, n)
  {
    RealMul.Monotone(Fraction(low), Fraction(high), n as real);
  }

  /** And does not depend on the order the values came in. */
  lemma PercentileOrderFree(a: seq<real>, b: seq<real>, pct: real)
    requires multiset(a) == multiset(b)
    ensures Percentile(a, pct) == Percentile(b, pct)
  {
    RealOrder();
    SameMultiset(a, b);
    SortOrderFree(a, b, RealLe);
  }
}
