/**
 * The comparison functions of the closure/FFI example: the C-style
 * three-way comparators over `i32`, the context comparator with its
 * threshold, the exchange sort that stands in for `qsort_r`, and the
 * `Comparator` implementations.
 */
module Comparators {

  import opened Wrappers

  /** `std::cmp::Ordering`. */
  datatype Ordering = Less | Equal | Greater

  /** `a.cmp(&b)`. */
  function Cmp(a: int, b: int): (o: Ordering)
    ensures o == Less <==> a < b
    ensures o == Greater <==> a > b
  {
    if a < b then Less else if a == b then Equal else Greater
  }

  /** `Ordering as c_int`: -1, 0 or 1. */
  function AsCInt(o: Ordering): int
  {
    match o
    case Less => -1
    case Equal => 0
    case Greater => 1
  }

  /** The opposite ordering. */
  function Flip(o: Ordering): Ordering
  {
    match o
    case Less => Greater
    case Equal => Equal
    case Greater => Less
  }

  /** `compare_ascending`: -1, 0 or 1 as `a` is below, equal to or above `b`. */
  function CompareAscending(a: i32, b: i32): (r: int)
    ensures r == -1 <==> a < b
    ensures r == 0 <==> a == b
    ensures r == 1 <==> a > b
  {
    AsCInt(Cmp(a, b))
  }

  /** `compare_descending`: the negation of the ascending comparison. */
  function CompareDescending(a: i32, b: i32): (r: int)
    ensures r == -CompareAscending(a, b)
  {
    AsCInt(Cmp(b, a))
  }

  /** `SortContext`: the captured environment passed through the context pointer. */
  datatype SortContext = SortContext(reverse: bool, threshold: i32)

  /**
   * `compare_with_context`: a value above the threshold compares as greater
   * (checked for `a` first), otherwise the ascending or, with `reverse`, the
   * descending comparison.
   */
  function CompareWithContext(a: i32, b: i32, ctx: SortContext): (r: int)
    ensures a > ctx.threshold ==> r == 1
    ensures a <= ctx.threshold && b > ctx.threshold ==> r == -1
    ensures a <= ctx.threshold && b <= ctx.threshold && !ctx.reverse ==> r == CompareAscending(a, b)
    ensures a <= ctx.threshold && b <= ctx.threshold && ctx.reverse ==> r == -CompareAscending(a, b)
  {
    if a > ctx.threshold then 1
    else if b > ctx.threshold then -1
    else if ctx.reverse then AsCInt(Cmp(b, a))
    else AsCInt(Cmp(a, b))
  }

  /** `v` is one of the values being sorted. */
  ghost predicate Member(v: i32, vals: multiset<i32>)
  {
    v in vals
  }

  /**
   * A comparator behaves as an order on the values `vals`: `compare > 0`
   * one way means `<= 0` the other way, and `<= 0` is transitive.
   */
  ghost predicate ConsistentOn(compare: (i32, i32, SortContext) -> int, ctx: SortContext, vals: multiset<i32>)
  {
    && (forall x, y {:trigger Member(x, vals), Member(y, vals)} ::
          Member(x, vals) && Member(y, vals) && compare(x, y, ctx) > 0 ==> compare(y, x, ctx) <= 0)
    && (forall x, y, z {:trigger Member(x, vals), Member(y, vals), Member(z, vals)} ::
          Member(x, vals) && Member(y, vals) && Member(z, vals) && compare(x, y, ctx) <= 0 && compare(y, z, ctx) <= 0
          ==> compare(x, z, ctx) <= 0)
  }

  /** On values at or below the threshold, the context comparator is consistent. */
  lemma ContextCompareConsistent(ctx: SortContext, vals: multiset<i32>)
    requires forall v :: v in vals ==> v <= ctx.threshold
    ensures ConsistentOn(CompareWithContext, ctx, vals)
  {
  }

  /** Two values above the threshold each compare greater than the other. */
  lemma AboveThresholdIsInconsistent(ctx: SortContext, a: i32, b: i32)
    requires a > ctx.threshold && b > ctx.threshold
    ensures CompareWithContext(a, b, ctx) > 0 && CompareWithContext(b, a, ctx) > 0
  {
  }

  /** Every element before `i` compares `<= 0` against every later element. */
  ghost predicate SettledBefore(s: seq<i32>, i: int, compare: (i32, i32, SortContext) -> int, ctx: SortContext)
  {
    forall p, q :: 0 <= p < i && p < q < |s| ==> compare(s[p], s[q], ctx) <= 0
  }

  /** `s[i]` compares `<= 0` against `s[i+1..j]`. */
  ghost predicate HeadBelow(s: seq<i32>, i: int, j: int, compare: (i32, i32, SortContext) -> int, ctx: SortContext)
    requires 0 <= i < |s|
  {
    forall q :: i < q < j && q < |s| ==> compare(s[i], s[q], ctx) <= 0
  }

  /** Every element of the array is sorted: each compares `<= 0` against every later one. */
  ghost predicate SortedBy(s: seq<i32>, compare: (i32, i32, SortContext) -> int, ctx: SortContext)
  {
    forall p, q :: 0 <= p < q < |s| ==> compare(s[p], s[q], ctx) <= 0
  }

  /**
   * `qsort_with_context`: for each `i`, swap `array[i]` with every later
   * element that compares below it. Only swaps, so the result is a
   * permutation; with a consistent comparator it is sorted.
   */
  method QsortWithContext(a: array<i32>, ctx: SortContext, compare: (i32, i32, SortContext) -> int)
    modifies a
    ensures multiset(a[..]) == old(multiset(a[..]))
    ensures ConsistentOn(compare, ctx, old(multiset(a[..]))) ==> SortedBy(a[..], compare, ctx)
  {
    ghost var vals := multiset(a[..]);
    ghost var consistent := ConsistentOn(compare, ctx, vals);
    var n := a.Length;
    for i := 0 to n
      invariant multiset(a[..]) == vals
      invariant consistent ==> SettledBefore(a[..], i, compare, ctx)
    {
      for j := i + 1 to n
        invariant multiset(a[..]) == vals
        invariant consistent ==> SettledBefore(a[..], i, compare, ctx)
        invariant consistent ==> HeadBelow(a[..], i, j, compare, ctx)
      {
        if compare(a[i], a[j], ctx) > 0 {
          SwapForward(a, i, j, ctx, compare, vals, consistent);
        }
      }
      if consistent {
        SettleNext(a[..], i, compare, ctx);
      }
    }
  }

  /** Once `s[i]` is below all later elements, the prefix settled grows by one. */
  lemma SettleNext(s: seq<i32>, i: int, compare: (i32, i32, SortContext) -> int, ctx: SortContext)
    requires 0 <= i < |s|
    requires SettledBefore(s, i, compare, ctx) && HeadBelow(s, i, |s|, compare, ctx)
    ensures SettledBefore(s, i + 1, compare, ctx)
  {
  }

  /** The swap `array.swap(i, j)` of the sort, with what it preserves. */
  method SwapForward(a: array<i32>, i: nat, j: nat, ctx: SortContext,
                     compare: (i32, i32, SortContext) -> int,
                     ghost vals: multiset<i32>, ghost consistent: bool)
    requires i < j < a.Length
    requires multiset(a[..]) == vals
    requires consistent ==> ConsistentOn(compare, ctx, vals)
    requires compare(a[i], a[j], ctx) > 0
    requires consistent ==> SettledBefore(a[..], i, compare, ctx) && HeadBelow(a[..], i, j, compare, ctx)
    modifies a
    ensures a[..] == old(a[..])[i := old(a[j])][j := old(a[i])]
    ensures multiset(a[..]) == vals
    ensures consistent ==> SettledBefore(a[..], i, compare, ctx) && HeadBelow(a[..], i, j + 1, compare, ctx)
  {
    ghost var before := a[..];
    a[i], a[j] := a[j], a[i];
    assert a[..] == before[i := before[j]][j := before[i]];
    if consistent {
      SwapLemma(before, a[..], i, j, compare, ctx, vals);
    }
  }

  /** The ordering facts behind one swap. */
  lemma SwapLemma(before: seq<i32>, after: seq<i32>, i: int, j: int,
                  compare: (i32, i32, SortContext) -> int, ctx: SortContext, vals: multiset<i32>)
    requires 0 <= i < j < |before|
    requires after == before[i := before[j]][j := before[i]]
    requires vals == multiset(before)
    requires ConsistentOn(compare, ctx, vals)
    requires compare(before[i], before[j], ctx) > 0
    requires SettledBefore(before, i, compare, ctx) && HeadBelow(before, i, j, compare, ctx)
    ensures SettledBefore(after, i, compare, ctx) && HeadBelow(after, i, j + 1, compare, ctx)
  {
    assert Member(before[i], vals) && Member(before[j], vals);
    forall p, q | 0 <= p < i && p < q < |after|
      ensures compare(after[p], after[q], ctx) <= 0
    {
      if q == i {
        assert compare(before[p], before[j], ctx) <= 0;
      } else if q == j {
        assert compare(before[p], before[i], ctx) <= 0;
      } else {
        assert compare(before[p], before[q], ctx) <= 0;
      }
    }
    forall q | i < q < j + 1 && q < |after|
      ensures compare(after[i], after[q], ctx) <= 0
    {
      if q < j {
        assert Member(before[q], vals);
        assert compare(before[i], before[q], ctx) <= 0;
      }
    }
  }

  /** `s` is in ascending order. */
  predicate Ascending(s: seq<i32>)
  {
    forall p, q :: 0 <= p < q < |s| ==> s[p] <= s[q]
  }

  /** `s` is in descending order. */
  predicate Descending(s: seq<i32>)
  {
    forall p, q :: 0 <= p < q < |s| ==> s[p] >= s[q]
  }

  /** With the threshold comparator, sorted by it means ascending or descending. */
  lemma ContextSortedMeans(s: seq<i32>, ctx: SortContext)
    requires forall k :: 0 <= k < |s| ==> s[k] <= ctx.threshold
    requires SortedBy(s, CompareWithContext, ctx)
    ensures !ctx.reverse ==> Ascending(s)
    ensures ctx.reverse ==> Descending(s)
  {
    forall p, q | 0 <= p < q < |s|
      ensures if ctx.reverse then s[p] >= s[q] else s[p] <= s[q]
    {
      assert CompareWithContext(s[p], s[q], ctx) <= 0;
    }
  }

  /**
   * Sorting with the threshold comparator when no value exceeds the
   * threshold: ascending, or descending with `reverse`.
   */
  method SortWithinThreshold(a: array<i32>, ctx: SortContext)
    requires forall k :: 0 <= k < a.Length ==> a[k] <= ctx.threshold
    modifies a
    ensures multiset(a[..]) == old(multiset(a[..]))
    ensures forall k :: 0 <= k < a.Length ==> a[k] <= ctx.threshold
    ensures !ctx.reverse ==> Ascending(a[..])
    ensures ctx.reverse ==> Descending(a[..])
  {
    ghost var before := a[..];
    BoundedElements(before, ctx.threshold);
    ContextCompareConsistent(ctx, multiset(before));
    QsortWithContext(a, ctx, CompareWithContext);
    BoundedElements(a[..], ctx.threshold);
    ContextSortedMeans(a[..], ctx);
  }

  /** Every element of `s` is at most `t` exactly when every value in its multiset is. */
  lemma BoundedElements(s: seq<i32>, t: int)
    ensures (forall k :: 0 <= k < |s| ==> s[k] <= t) <==> (forall v :: v in multiset(s) ==> v <= t)
  {
    if forall k :: 0 <= k < |s| ==> s[k] <= t {
      forall v | v in multiset(s) ensures v <= t {
        var k :| 0 <= k < |s| && s[k] == v;
      }
    }
    if forall v :: v in multiset(s) ==> v <= t {
      forall k | 0 <= k < |s| ensures s[k] <= t {
        assert s[k] in multiset(s);
      }
    }
  }

  /** The array `solution_2_context_pointer` sorts. */
  const DemoArray: seq<i32> := [5, 2, 8, 1, 9, 3]

  /** No value of the demo array exceeds 10. */
  lemma DemoWithinTen()
    ensures forall k :: 0 <= k < |DemoArray| ==> DemoArray[k] <= 10
  {
    forall k | 0 <= k < |DemoArray| ensures DemoArray[k] <= 10 {
      if k < 3 {
        assert DemoArray[k] == 5 || DemoArray[k] == 2 || DemoArray[k] == 8;
      } else {
        assert DemoArray[k] == 1 || DemoArray[k] == 9 || DemoArray[k] == 3;
      }
    }
  }

  /** `solution_2_context_pointer`: threshold 10 sorts the demo array ascending, then descending. */
  method ContextSortDemo() returns (ascending: seq<i32>, descending: seq<i32>)
    ensures multiset(ascending) == multiset(DemoArray) && multiset(descending) == multiset(DemoArray)
    ensures Ascending(ascending) && Descending(descending)
  {
    var a := new i32[6] [5, 2, 8, 1, 9, 3];
    assert a[..] == DemoArray;
    DemoWithinTen();
    SortWithinThreshold(a, SortContext(false, 10));
    ascending := a[..];
    SortWithinThreshold(a, SortContext(true, 10));
    descending := a[..];
  }

  // ---------------------------------------------------------------------------
  // The `Comparator` implementations
  // ---------------------------------------------------------------------------

  /** The three `Comparator` implementations. */
  datatype Comparator = AscendingComparator | DescendingComparator | ModuloComparator(modulo: i32)

  /** The quotient of Rust's `/` on integers, which truncates toward zero. */
  function TruncQuot(a: int, m: int): int
    requires m != 0
  {
    var am := if m < 0 then -m else m;
    var qa := if a >= 0 then a / am else -((-a) / am);
    if m < 0 then -qa else qa
  }

  /**
   * Rust's `%` on `i32`: the remainder of truncating division, smaller than
   * the divisor in magnitude and with the sign of `a`.
   */
  function TruncRem(a: int, m: int): (r: int)
    requires m != 0
    ensures a == TruncQuot(a, m) * m + r
    ensures (if m < 0 then -m else m) > (if r < 0 then -r else r)
    ensures a >= 0 ==> r >= 0
    ensures a <= 0 ==> r <= 0
  {
    TruncDivision(a, m);
    var am := if m < 0 then -m else m;
    if a >= 0 then a % am else -((-a) % am)
  }

  /** Truncating division splits `a` into quotient and remainder, case by sign. */
  lemma TruncDivision(a: int, m: int)
    requires m != 0
    ensures var am := if m < 0 then -m else m;
      var r := if a >= 0 then a % am else -((-a) % am);
      a == TruncQuot(a, m) * m + r && 0 <= (if a >= 0 then a % am else (-a) % am) < am
  {
    var am := if m < 0 then -m else m;
    var n := if a >= 0 then a else -a;
    var q0, r0 := n / am, n % am;
    assert n == q0 * am + r0;
    if m > 0 {
      if a >= 0 {
        assert TruncQuot(a, m) == q0;
      } else {
        assert TruncQuot(a, m) == -q0;
        NegMul(q0, m);
      }
    } else {
      if a >= 0 {
        assert TruncQuot(a, m) == -q0;
        NegMul(q0, am);
      } else {
        assert TruncQuot(a, m) == q0;
        NegMul(q0, am);
      }
    }
  }

  /** Moving a sign across a product. */
  lemma NegMul(x: int, y: int)
    ensures (-x) * (-y) == x * y && (-x) * y == -(x * y) && x * (-y) == -(x * y)
  {
  }

  /** `%` panics for a zero divisor, and for `i32::MIN % -1`, which overflows. */
  predicate CanCompare(c: Comparator, a: i32, b: i32)
  {
    c.ModuloComparator? ==> c.modulo != 0 && !(c.modulo == -1 && (a == I32_MIN || b == I32_MIN))
  }

  /** `Comparator::compare`. */
  function Compare(c: Comparator, a: i32, b: i32): (o: Ordering)
    requires CanCompare(c, a, b)
    ensures c.AscendingComparator? ==> (o == Less <==> a < b) && (o == Greater <==> a > b)
    ensures c.DescendingComparator? ==> (o == Less <==> a > b) && (o == Greater <==> a < b)
    ensures c.ModuloComparator? ==>
      (o == Less <==> TruncRem(a, c.modulo) < TruncRem(b, c.modulo)) &&
      (o == Greater <==> TruncRem(a, c.modulo) > TruncRem(b, c.modulo))
  {
    match c
    case AscendingComparator => Cmp(a, b)
    case DescendingComparator => Cmp(b, a)
    case ModuloComparator(m) => Cmp(TruncRem(a, m), TruncRem(b, m))
  }

  /** The ascending and descending comparators are opposite orders, and the ascending one is a total order. */
  lemma AscendingDescendingOpposite(a: i32, b: i32, c: i32)
    ensures Compare(DescendingComparator, a, b) == Flip(Compare(AscendingComparator, a, b))
    ensures Compare(AscendingComparator, a, b) == Flip(Compare(AscendingComparator, b, a))
    ensures Compare(AscendingComparator, a, b) == Equal <==> a == b
    ensures Compare(AscendingComparator, a, b) != Greater && Compare(AscendingComparator, b, c) != Greater
      ==> Compare(AscendingComparator, a, c) != Greater
  {
  }

  /**
   * The modulo comparator orders by the truncating remainder: -4 and 2 are
   * different modulo 3 (-1 against 2) although their Euclidean remainders agree.
   */
  lemma ModuloIsTruncating()
    ensures TruncRem(-4, 3) == -1 && TruncRem(2, 3) == 2
    ensures Compare(ModuloComparator(3), -4, 2) == Less
    ensures (-4) % 3 == 2 % 3
  {
  }

  /** Values with equal remainders compare equal under the modulo comparator. */
  lemma ModuloEqualRemainders(m: i32, a: i32, b: i32)
    requires CanCompare(ModuloComparator(m), a, b)
    ensures Compare(ModuloComparator(m), a, b) == Equal <==> TruncRem(a, m) == TruncRem(b, m)
    ensures Compare(ModuloComparator(m), a, b) == Flip(Compare(ModuloComparator(m), b, a))
  {
  }
}
