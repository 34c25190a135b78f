/** Filtering, counting, mapping and summing over sequences: the comprehensions of the source. */
module Seqs {
  datatype Option<+T> = None | Some(value: T)

  function Map<A, B>(f: A -> B, s: seq<A>): (r: seq<B>)
    ensures |r| == |s| && forall i :: 0 <= i < |s| ==> r[i] == f(s[i])
  {
    seq(|s|, i requires 0 <= i < |s| => f(s[i]))
  }

  /** `[y for x in s if (y := f(x)) is not None]`, in order. */
  function FilterMap<A, B>(f: A -> Option<B>, s: seq<A>): seq<B> {
    if s == [] then []
    else match f(s[0])
      case Some(b) => [b] + FilterMap(f, s[1..])
      case None => FilterMap(f, s[1..])
  }

  function Filter<A>(p: A -> bool, s: seq<A>): seq<A> {
    if s == [] then []
    else if p(s[0]) then [s[0]] + Filter(p, s[1..])
    else Filter(p, s[1..])
  }

  function Count<A>(p: A -> bool, s: seq<A>): nat {
    if s == [] then 0 else (if p(s[0]) then 1 else 0) + Count(p, s[1..])
  }

  function One(b: bool): int {
    if b then 1 else 0
  }

  function Sum(xs: seq<real>): real {
    if xs == [] then 0.0 else xs[0] + Sum(xs[1..])
  }

  /** `max(xs, default=0.0)`. */
  function MaxOf(xs: seq<real>): (m: real)
    ensures xs == [] ==> m == 0.0
    ensures xs != [] ==> m in xs && forall x :: x in xs ==> x <= m
  {
    if xs == [] then 0.0
    else if |xs| == 1 then xs[0]
    else
      var m := MaxOf(xs[1..]);
      assert xs == [xs[0]] + xs[1..];
      if xs[0] > m then xs[0] else m
  }

  ghost predicate NoDuplicates<A>(s: seq<A>) {
    forall i, j :: 0 <= i < j < |s| ==> s[i] != s[j]
  }

  lemma {:induction false} FilterMapConcat<A, B>(f: A -> Option<B>, s: seq<A>, t: seq<A>)
    ensures FilterMap(f, s + t) == FilterMap(f, s) + FilterMap(f, t)
  {
    if s == [] {
      assert s + t == t;
    } else {
      assert (s + t)[0] == s[0] && (s + t)[1..] == s[1..] + t;
      FilterMapConcat(f, s[1..], t);
    }
  }

  lemma {:induction false} CountConcat<A>(p: A -> bool, s: seq<A>, t: seq<A>)
    ensures Count(p, s + t) == Count(p, s) + Count(p, t)
  {
    if s == [] {
      assert s + t == t;
    } else {
      assert (s + t)[0] == s[0] && (s + t)[1..] == s[1..] + t;
      CountConcat(p, s[1..], t);
    }
  }

  lemma {:induction false} SumConcat(a: seq<real>, b: seq<real>)
    ensures Sum(a + b) == Sum(a) + Sum(b)
  {
    if a == [] {
      assert a + b == b;
    } else {
      assert (a + b)[1..] == a[1..] + b;
      SumConcat(a[1..], b);
    }
  }

  /** A filter keeps exactly the elements that satisfy it. */
  lemma {:induction false} FilterElements<A>(p: A -> bool, s: seq<A>)
    ensures forall x :: x in Filter(p, s) <==> x in s && p(x)
    ensures |Filter(p, s)| == Count(p, s) <= |s|
  {
    if s != [] {
      FilterElements(p, s[1..]);
      assert s == [s[0]] + s[1..];
    }
  }

  /** Counting with a weaker predicate never gives less. */
  lemma {:induction false} CountMonotone<A>(p: A -> bool, q: A -> bool, s: seq<A>)
    requires forall x :: x in s && p(x) ==> q(x)
    ensures Count(p, s) <= Count(q, s) <= |s|
  {
    if s != [] {
      CountMonotone(p, q, s[1..]);
    }
  }

  /** Replacing one element changes the count by what that element contributes. */
  lemma {:induction false} CountUpdate<A>(p: A -> bool, s: seq<A>, i: nat, x: A)
    requires i < |s|
    ensures Count(p, s[i := x]) == Count(p, s) - One(p(s[i])) + One(p(x))
  {
    var u := s[i := x];
    if i == 0 {
      assert u[1..] == s[1..];
    } else {
      assert u[1..] == s[1..][i - 1 := x];
      CountUpdate(p, s[1..], i - 1, x);
    }
  }

  lemma {:induction false} CountSome<A>(p: A -> bool, s: seq<A>, k: nat)
    requires k < |s| && p(s[k])
    ensures Count(p, s) > 0
  {
    if k > 0 {
      CountSome(p, s[1..], k - 1);
    }
  }

  lemma {:induction false} CountTwice<A>(p: A -> bool, s: seq<A>, j: nat, k: nat)
    requires j < k < |s| && p(s[j]) && p(s[k])
    ensures Count(p, s) >= 2
  {
    if j > 0 {
      CountTwice(p, s[1..], j - 1, k - 1);
    } else {
      CountSome(p, s[1..], k - 1);
    }
  }

  lemma {:induction false} CountNone<A>(p: A -> bool, s: seq<A>)
    requires forall i :: 0 <= i < |s| ==> !p(s[i])
    ensures Count(p, s) == 0
  {
    if s != [] {
      CountNone(p, s[1..]);
    }
  }

  /** Taking out one occurrence of an element. */
  lemma TakeOut<A>(x: A, t: seq<A>) returns (before: seq<A>, after: seq<A>)
    requires x in multiset(t)
    ensures t == before + ([x] + after)
    ensures multiset(before + after) == multiset(t) - multiset{x}
  {
    var k :| 0 <= k < |t| && t[k] == x;
    before, after := t[..k], t[k + 1..];
    assert t == before + ([x] + after);
  }

  /** Reordering the input reorders the output, and nothing else. */
  lemma {:induction false} FilterMapPermuted<A, B>(f: A -> Option<B>, s: seq<A>, t: seq<A>)
    requires multiset(s) == multiset(t)
    ensures multiset(FilterMap(f, s)) == multiset(FilterMap(f, t))
    decreases |s|
  {
    if s == [] {
      assert |multiset(t)| == 0;
    } else {
      assert s == [s[0]] + s[1..];
      var before, after := TakeOut(s[0], t);
      FilterMapPermuted(f, s[1..], before + after);
      FilterMapConcat(f, before, after);
      FilterMapConcat(f, before, [s[0]] + after);
      assert ([s[0]] + after)[1..] == after;
    }
  }

  lemma {:induction false} CountPermuted<A>(p: A -> bool, s: seq<A>, t: seq<A>)
    requires multiset(s) == multiset(t)
    ensures Count(p, s) == Count(p, t)
    decreases |s|
  {
    if s == [] {
      assert |multiset(t)| == 0;
    } else {
      assert s == [s[0]] + s[1..];
      var before, after := TakeOut(s[0], t);
      CountPermuted(p, s[1..], before + after);
      CountConcat(p, before, after);
      CountConcat(p, before, [s[0]] + after);
      assert ([s[0]] + after)[1..] == after;
    }
  }
}
