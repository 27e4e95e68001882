/** The largest-remainder (Hamilton) apportionment of `applyLargestRemainderMethod`:
    share an integer `diff` among winners in proportion to their nets so that the
    integer shares add up to `diff` exactly.

    The Kotlin service computes each quota `net / total * diff` as a `Double`. Here the
    quota is the exact rational `net * diff / total` (with `total > 0`): its
    integer part is `(net * diff) / total` (Euclidean division by a positive
    divisor is the floor) when `diff >= 0`, and the ceiling
    `-((-(net * diff)) / total)` otherwise; its fractional remainder is kept as
    the exact numerator `net * diff - integerPart * total` over the common
    denominator `total`, so remainders compare exactly.

    The Kotlin adjustments map (keyed by the winners' distinct player
    ids, in insertion order) is a sequence aligned with the list of winners. */
module Apportionment {
  import opened Models
  import opened Seqs
  import opened Sorting

  /** Floor (diff >= 0) or ceiling (diff < 0) of the quota `net * diff / total`. */
  function IntegerPart(net: int, diff: int, total: int): (b: int)
    requires total > 0
    ensures diff >= 0 ==> b * total <= net * diff < b * total + total
    ensures diff < 0 ==> b * total - total < net * diff <= b * total
  {
    var x := net * diff;
    DivisionBounds(x, total);
    DivisionBounds(-x, total);
    if diff >= 0 then x / total else -((-x) / total)
  }

  lemma DivisionBounds(x: int, t: int)
    requires t > 0
    ensures (x / t) * t <= x < (x / t) * t + t
  {
  }

  /** Numerator (over `total`) of the quota's remainder `quota - integerPart`. */
  function Remainder(net: int, diff: int, total: int): (r: int)
    requires total > 0
    ensures diff >= 0 ==> 0 <= r < total
    ensures diff < 0 ==> -total < r <= 0
  {
    net * diff - IntegerPart(net, diff, total) * total
  }

  function IntegerParts(nets: seq<int>, diff: int, total: int): (r: seq<int>)
    requires total > 0
    ensures |r| == |nets|
  {
    seq(|nets|, i requires 0 <= i < |nets| => IntegerPart(nets[i], diff, total))
  }

  function Remainders(nets: seq<int>, diff: int, total: int): (r: seq<int>)
    requires total > 0
    ensures |r| == |nets|
  {
    seq(|nets|, i requires 0 <= i < |nets| => Remainder(nets[i], diff, total))
  }

  /** `+1` when distributing a non-negative amount, `-1` otherwise. */
  function StepOf(diff: int): int {
    if diff >= 0 then 1 else -1
  }

  /** Sort key of winner `i`: its remainder for a descending sort (diff >= 0),
      the negated remainder for the ascending sort (diff < 0). */
  function RemainderKey(rems: seq<int>, diff: int): int -> int {
    i => if 0 <= i < |rems| then (if diff >= 0 then rems[i] else -rems[i]) else 0
  }

  function Indices(n: nat): (r: seq<int>)
    ensures |r| == n && forall i :: 0 <= i < n ==> r[i] == i
  {
    seq(n, i requires 0 <= i < n => i)
  }

  /** `sortedByRemainder`, as indices into the winner list. */
  function SortedByRemainder(nets: seq<int>, diff: int, total: int): (order: seq<int>)
    requires total > 0
    ensures |order| == |nets|
    ensures forall p :: 0 <= p < |order| ==> 0 <= order[p] < |nets|
  {
    var order := SortedByDescending(Indices(|nets|), RemainderKey(Remainders(nets, diff, total), diff));
    SortedByDescendingSpec(Indices(|nets|), RemainderKey(Remainders(nets, diff, total), diff));
    assert forall p :: 0 <= p < |order| ==> order[p] in multiset(Indices(|nets|));
    order
  }

  /** How many winners the loop steps before `remainingToDistribute` reaches 0
      (all of them, if it never does). */
  function StepsTaken(shortfall: int, diff: int, n: nat): (m: nat)
    ensures m <= n
  {
    var c := if diff >= 0 then shortfall else -shortfall;
    if 0 <= c <= n then c else n
  }

  /** Adds `step` to each position named in `order`, in order. */
  function ApplySteps(adj: seq<int>, order: seq<int>, step: int): (r: seq<int>)
    ensures |r| == |adj|
  {
    if |order| == 0 then adj
    else
      var a := ApplySteps(adj, order[..|order| - 1], step);
      var i := order[|order| - 1];
      if 0 <= i < |a| then a[i := a[i] + step] else a
  }

  /** The result of `applyLargestRemainderMethod`: the adjustments, or the
      failure of its closing `require` (which the lemmas below show cannot happen
      when `total` is the sum of the winners' nets). */
  function LargestRemainder(nets: seq<int>, diff: int, total: int): (r: Result<seq<int>>)
    requires total > 0
    ensures r.Ok? ==> |r.value| == |nets| && Sum(r.value) == diff
    ensures r.Err? ==> r.error.IllegalArgument?
  {
    var bases := IntegerParts(nets, diff, total);
    var order := SortedByRemainder(nets, diff, total);
    var adj := ApplySteps(bases, order[..StepsTaken(diff - Sum(bases), diff, |order|)], StepOf(diff));
    if Sum(adj) == diff then Ok(adj) else Err(IllegalArgument(RemainderMismatch(diff, Sum(adj))))
  }

  method ApplyLargestRemainderMethod(nets: seq<int>, totalToDistribute: int, totalWinnings: int)
    returns (r: Result<seq<int>>)
    requires totalWinnings > 0
    ensures r == LargestRemainder(nets, totalToDistribute, totalWinnings)
  {
    var integerParts := IntegerParts(nets, totalToDistribute, totalWinnings);
    var sumOfIntegerParts := Sum(integerParts);
    var remainingToDistribute := totalToDistribute - sumOfIntegerParts;
    var sortedByRemainder := SortedByRemainder(nets, totalToDistribute, totalWinnings);
    assert |integerParts| == |nets|;
    var adjustments := DistributeRemainder(integerParts, sortedByRemainder, remainingToDistribute, totalToDistribute);
    var finalSum := Sum(adjustments);
    if finalSum != totalToDistribute {
      return Err(IllegalArgument(RemainderMismatch(totalToDistribute, finalSum)));
    }
    return Ok(adjustments);
  }

  /** The loop of `applyLargestRemainderMethod`: one unit (`+1`, or `-1` for a
      negative amount) to each winner in sorted order until the shortfall is
      used up or every winner has had one. */
  method DistributeRemainder(integerParts: seq<int>, sortedByRemainder: seq<int>, shortfall: int, totalToDistribute: int)
    returns (adjustments: seq<int>)
    requires forall p :: 0 <= p < |sortedByRemainder| ==> 0 <= sortedByRemainder[p] < |integerParts|
    ensures adjustments == ApplySteps(integerParts, sortedByRemainder[..StepsTaken(shortfall, totalToDistribute, |sortedByRemainder|)], StepOf(totalToDistribute))
  {
    adjustments := integerParts;
    var remainingToDistribute := shortfall;
    var step := if totalToDistribute >= 0 then 1 else -1;
    ghost var m := StepsTaken(shortfall, totalToDistribute, |sortedByRemainder|);
    var p := 0;
    while p < |sortedByRemainder|
      invariant 0 <= p <= m
      invariant remainingToDistribute == if step == 1 then shortfall - p else shortfall + p
      invariant adjustments == ApplySteps(integerParts, sortedByRemainder[..p], step)
    {
      if remainingToDistribute == 0 {
        break;
      }
      var id := sortedByRemainder[p];
      assert sortedByRemainder[..p + 1][..p] == sortedByRemainder[..p];
      adjustments := adjustments[id := adjustments[id] + step];
      remainingToDistribute := remainingToDistribute - step;
      p := p + 1;
    }
  }

  // ---------------------------------------------------------------------------
  // Arithmetic behind the exactness of the method

  lemma SumOfParts(nets: seq<int>, diff: int, total: int)
    requires total > 0
    ensures Sum(IntegerParts(nets, diff, total)) * total + Sum(Remainders(nets, diff, total)) == Sum(nets) * diff
  {
    LinearSum(IntegerParts(nets, diff, total), Remainders(nets, diff, total), nets, total, diff);
  }

  /** Summing `b[i] * t + r[i] == x[i] * d` over all i. */
  lemma {:induction false} LinearSum(b: seq<int>, r: seq<int>, x: seq<int>, t: int, d: int)
    requires |b| == |r| == |x|
    requires forall i :: 0 <= i < |x| ==> b[i] * t + r[i] == x[i] * d
    ensures Sum(b) * t + Sum(r) == Sum(x) * d
  {
    var n := |x|;
    if n > 0 {
      LinearSum(b[..n - 1], r[..n - 1], x[..n - 1], t, d);
      Distrib(Sum(b[..n - 1]), b[n - 1], t);
      Distrib(Sum(x[..n - 1]), x[n - 1], d);
    }
  }

  lemma Distrib(a: int, c: int, t: int)
    ensures (a + c) * t == a * t + c * t
  {
  }

  lemma MulAtLeast(a: int, t: int)
    requires a >= 1 && t > 0
    ensures a * t >= t
  {
  }

  lemma ProductSign(k: int, t: int, n: int)
    requires t > 0
    ensures k * t >= 0 ==> k >= 0
    ensures k * t < n * t ==> k < n
  {
    if k < 0 {
      MulAtLeast(-k, t);
      assert (-k) * t == -(k * t);
    }
    if k > n {
      MulAtLeast(k - n, t);
      Distrib(k - n, n, t);
    }
  }

  /** The integer parts miss `diff` by fewer units than there are winners, on
      the side the step direction corrects. */
  lemma Shortfall(nets: seq<int>, diff: int, total: int)
    requires total > 0 && Sum(nets) == total
    ensures var k := diff - Sum(IntegerParts(nets, diff, total));
      |nets| > 0 && (if diff >= 0 then 0 <= k < |nets| else 0 <= -k < |nets|)
  {
    var n := |nets|;
    var rems := Remainders(nets, diff, total);
    var k := diff - Sum(IntegerParts(nets, diff, total));
    SumOfParts(nets, diff, total);
    assert k * total == Sum(rems) by {
      Distrib(diff, -Sum(IntegerParts(nets, diff, total)), total);
      assert (-Sum(IntegerParts(nets, diff, total))) * total == -(Sum(IntegerParts(nets, diff, total)) * total);
    }
    assert n > 0;
    if diff >= 0 {
      SumNonNegative(rems);
      SumBelow(rems, total);
      ProductSign(k, total, n);
    } else {
      var negs := seq(n, i requires 0 <= i < n => -rems[i]);
      assert Sum(negs) == -Sum(rems) by { SumNegated(rems, negs); }
      SumNonNegative(negs);
      SumBelow(negs, total);
      assert (-k) * total == -(k * total);
      ProductSign(-k, total, n);
    }
  }

  lemma {:induction false} SumNegated(s: seq<int>, t: seq<int>)
    requires |t| == |s| && forall i :: 0 <= i < |s| ==> t[i] == -s[i]
    ensures Sum(t) == -Sum(s)
  {
    if |s| > 0 {
      SumNegated(s[..|s| - 1], t[..|t| - 1]);
    }
  }

  // ---------------------------------------------------------------------------
  // Facts about ApplySteps and the sorted order

  ghost predicate InRange(order: seq<int>, n: int) {
    forall p :: 0 <= p < |order| ==> 0 <= order[p] < n
  }

  lemma {:induction false} ApplyStepsSum(adj: seq<int>, order: seq<int>, step: int)
    requires InRange(order, |adj|)
    ensures Sum(ApplySteps(adj, order, step)) == Sum(adj) + |order| * step
  {
    if |order| > 0 {
      var a := ApplySteps(adj, order[..|order| - 1], step);
      ApplyStepsSum(adj, order[..|order| - 1], step);
      SumUpdate(a, order[|order| - 1], a[order[|order| - 1]] + step);
      assert (|order| - 1) * step + step == |order| * step;
    }
  }

  lemma {:induction false} ApplyStepsAt(adj: seq<int>, order: seq<int>, step: int, i: int)
    requires InRange(order, |adj|) && Distinct(order) && 0 <= i < |adj|
    ensures ApplySteps(adj, order, step)[i] == adj[i] + (if i in order then step else 0)
  {
    if |order| > 0 {
      var init := order[..|order| - 1];
      ApplyStepsAt(adj, init, step, i);
      assert order == init + [order[|order| - 1]];
      assert order[|order| - 1] !in init;
    }
  }

  /** The sorted order lists every winner once, larger remainders first
      (smaller first when diff < 0), ties in input order. */
  lemma OrderFacts(nets: seq<int>, diff: int, total: int)
    requires total > 0
    ensures var order := SortedByRemainder(nets, diff, total);
      && Distinct(order)
      && (forall i :: 0 <= i < |nets| ==> i in order)
      && ByKeyThenIndex(order, RemainderKey(Remainders(nets, diff, total), diff))
  {
    var n := |nets|;
    var key := RemainderKey(Remainders(nets, diff, total), diff);
    var order := SortedByRemainder(nets, diff, total);
    SortedByDescendingSpec(Indices(n), key);
    SortIsStable(Indices(n), key);
    forall i | 0 <= i < n ensures i in order {
      assert Indices(n)[i] == i;
      assert i in multiset(Indices(n));
    }
  }

  // ---------------------------------------------------------------------------
  // Properties of the apportionment

  /** The `require(finalSum == totalToDistribute)` never fires: when `total` is
      the sum of the winners' nets the adjustments add up to `diff` exactly. */
  lemma LargestRemainderIsExact(nets: seq<int>, diff: int, total: int)
    requires total > 0 && Sum(nets) == total
    ensures LargestRemainder(nets, diff, total).Ok?
    ensures |LargestRemainder(nets, diff, total).value| == |nets|
    ensures Sum(LargestRemainder(nets, diff, total).value) == diff
  {
    var bases := IntegerParts(nets, diff, total);
    var order := SortedByRemainder(nets, diff, total);
    var k := diff - Sum(bases);
    Shortfall(nets, diff, total);
    var m := StepsTaken(k, diff, |order|);
    assert m == if diff >= 0 then k else -k;
    assert InRange(order[..m], |bases|);
    ApplyStepsSum(bases, order[..m], StepOf(diff));
  }

  /** Each adjustment is the integer part of its quota, plus one step for exactly
      the first `|shortfall|` winners in remainder order. */
  lemma LargestRemainderShares(nets: seq<int>, diff: int, total: int, p: int)
    requires total > 0 && Sum(nets) == total
    requires 0 <= p < |nets|
    ensures LargestRemainder(nets, diff, total).Ok?
    ensures var order := SortedByRemainder(nets, diff, total);
      var k := diff - Sum(IntegerParts(nets, diff, total));
      var adj := LargestRemainder(nets, diff, total).value;
      |adj| == |nets| &&
      adj[order[p]] == IntegerPart(nets[order[p]], diff, total)
        + (if p < (if diff >= 0 then k else -k) then StepOf(diff) else 0)
  {
    var bases := IntegerParts(nets, diff, total);
    var order := SortedByRemainder(nets, diff, total);
    var k := diff - Sum(bases);
    LargestRemainderIsExact(nets, diff, total);
    Shortfall(nets, diff, total);
    OrderFacts(nets, diff, total);
    var m := StepsTaken(k, diff, |order|);
    var stepped := order[..m];
    assert Distinct(stepped) && InRange(stepped, |bases|);
    ApplyStepsAt(bases, stepped, StepOf(diff), order[p]);
    if p < m {
      assert order[p] == stepped[p];
    } else {
      assert order[p] !in stepped by {
        forall q | 0 <= q < m ensures stepped[q] != order[p] {
          assert stepped[q] == order[q];
        }
      }
    }
  }

  /** No winner's adjustment is more than one unit away from its exact share:
      `|adjustment * total - net * diff| <= total`, and it is the integer part or
      the integer part plus one step. */
  lemma LargestRemainderIsNearQuota(nets: seq<int>, diff: int, total: int, i: int)
    requires total > 0 && Sum(nets) == total
    requires 0 <= i < |nets|
    ensures LargestRemainder(nets, diff, total).Ok? && |LargestRemainder(nets, diff, total).value| == |nets|
    ensures var a := LargestRemainder(nets, diff, total).value[i];
      var b := IntegerPart(nets[i], diff, total);
      (a == b || a == b + StepOf(diff)) &&
      -total <= a * total - nets[i] * diff <= total
  {
    var order := SortedByRemainder(nets, diff, total);
    OrderFacts(nets, diff, total);
    assert i in order;
    var p :| 0 <= p < |order| && order[p] == i;
    LargestRemainderShares(nets, diff, total, p);
    var a := LargestRemainder(nets, diff, total).value[i];
    var b := IntegerPart(nets[i], diff, total);
    if a == b + StepOf(diff) {
      Distrib(b, StepOf(diff), total);
    }
  }

  /** A winner that receives the extra step has a remainder at least as large
      (at most as large, when diff < 0) as one that does not, and among equal
      remainders the stepped one comes first in the winner list. */
  lemma StepsFollowRemainderOrder(nets: seq<int>, diff: int, total: int, i: int, j: int)
    requires total > 0 && Sum(nets) == total
    requires 0 <= i < |nets| && 0 <= j < |nets|
    requires LargestRemainder(nets, diff, total).Ok?
    requires LargestRemainder(nets, diff, total).value[i] != IntegerPart(nets[i], diff, total)
    requires LargestRemainder(nets, diff, total).value[j] == IntegerPart(nets[j], diff, total)
    ensures var ri, rj := Remainder(nets[i], diff, total), Remainder(nets[j], diff, total);
      (diff >= 0 ==> ri >= rj) && (diff < 0 ==> ri <= rj) && (ri == rj ==> i < j)
  {
    var order := SortedByRemainder(nets, diff, total);
    var rems := Remainders(nets, diff, total);
    var key := RemainderKey(rems, diff);
    OrderFacts(nets, diff, total);
    assert i in order && j in order;
    var p :| 0 <= p < |order| && order[p] == i;
    var q :| 0 <= q < |order| && order[q] == j;
    RankOfStepped(nets, diff, total, p, q);
    assert key(order[p]) > key(order[q]) || (key(order[p]) == key(order[q]) && order[p] < order[q]);
    assert key(i) == (if diff >= 0 then rems[i] else -rems[i]);
    assert key(j) == (if diff >= 0 then rems[j] else -rems[j]);
  }

  /** The stepped winners precede the others in remainder order. */
  lemma RankOfStepped(nets: seq<int>, diff: int, total: int, p: int, q: int)
    requires total > 0 && Sum(nets) == total
    requires 0 <= p < |nets| && 0 <= q < |nets|
    requires var order := SortedByRemainder(nets, diff, total);
      && LargestRemainder(nets, diff, total).Ok?
      && LargestRemainder(nets, diff, total).value[order[p]] != IntegerPart(nets[order[p]], diff, total)
      && LargestRemainder(nets, diff, total).value[order[q]] == IntegerPart(nets[order[q]], diff, total)
    ensures p < q
  {
    LargestRemainderShares(nets, diff, total, p);
    LargestRemainderShares(nets, diff, total, q);
  }

  /** A single winner receives all of diff. */
  lemma SingleWinnerTakesAll(net: int, diff: int)
    requires net > 0
    ensures LargestRemainder([net], diff, net) == Ok([diff])
  {
    assert Sum([net]) == net by { SumSingleton(net); }
    LargestRemainderIsExact([net], diff, net);
    var adj := LargestRemainder([net], diff, net).value;
    assert adj == [adj[0]];
    SumSingleton(adj[0]);
  }

  /** 60/40 of 10_00 gives 6_00 and 4_00; two equal halves of 5_00 give 2_50 each. */
  lemma ProportionalExamples()
    ensures LargestRemainder([60_00, 40_00], 10_00, 100_00) == Ok([6_00, 4_00])
    ensures LargestRemainder([50_00, 50_00], 5_00, 100_00) == Ok([2_50, 2_50])
  {
    ExactQuotas([60_00, 40_00], 10_00, 100_00, [6_00, 4_00]);
    ExactQuotas([50_00, 50_00], 5_00, 100_00, [2_50, 2_50]);
  }

  /** When every quota is a whole number, each winner gets exactly its quota. */
  lemma ExactQuotas(nets: seq<int>, diff: int, total: int, quotas: seq<int>)
    requires total > 0 && Sum(nets) == total && |quotas| == |nets|
    requires forall i :: 0 <= i < |nets| ==> quotas[i] * total == nets[i] * diff
    ensures LargestRemainder(nets, diff, total) == Ok(quotas)
  {
    LargestRemainderIsExact(nets, diff, total);
    var adj := LargestRemainder(nets, diff, total).value;
    forall i | 0 <= i < |nets| ensures adj[i] == quotas[i] {
      OnlyExactParts(nets, diff, total, quotas, i);
      WholeQuota(nets[i], diff, total, quotas[i]);
    }
    assert adj == quotas;
  }

  /** A whole quota is its own integer part, with remainder 0. */
  lemma WholeQuota(net: int, diff: int, total: int, quota: int)
    requires total > 0 && quota * total == net * diff
    ensures IntegerPart(net, diff, total) == quota
    ensures Remainder(net, diff, total) == 0
  {
    QuotientUnique(IntegerPart(net, diff, total), quota, total, net * diff, diff >= 0);
  }

  lemma QuotientUnique(b: int, q: int, t: int, x: int, floor: bool)
    requires t > 0 && q * t == x
    requires floor ==> b * t <= x < b * t + t
    requires !floor ==> b * t - t < x <= b * t
    ensures b == q
  {
    if b < q {
      MulAtLeast(q - b, t);
      Distrib(q - b, b, t);
    } else if b > q {
      MulAtLeast(b - q, t);
      Distrib(b - q, q, t);
    }
  }

  /** With whole quotas every remainder is 0, so the shortfall is 0 and no
      winner is stepped. */
  lemma OnlyExactParts(nets: seq<int>, diff: int, total: int, quotas: seq<int>, i: int)
    requires total > 0 && Sum(nets) == total && |quotas| == |nets|
    requires forall i :: 0 <= i < |nets| ==> quotas[i] * total == nets[i] * diff
    requires 0 <= i < |nets|
    ensures LargestRemainder(nets, diff, total).Ok? && |LargestRemainder(nets, diff, total).value| == |nets|
    ensures LargestRemainder(nets, diff, total).value[i] == IntegerPart(nets[i], diff, total)
  {
    NoShortfall(nets, diff, total, quotas);
    var order := SortedByRemainder(nets, diff, total);
    OrderFacts(nets, diff, total);
    assert i in order;
    var p :| 0 <= p < |order| && order[p] == i;
    LargestRemainderShares(nets, diff, total, p);
  }

  /** With whole quotas the integer parts already add up to diff. */
  lemma NoShortfall(nets: seq<int>, diff: int, total: int, quotas: seq<int>)
    requires total > 0 && Sum(nets) == total && |quotas| == |nets|
    requires forall i :: 0 <= i < |nets| ==> quotas[i] * total == nets[i] * diff
    ensures Sum(IntegerParts(nets, diff, total)) == diff
  {
    var rems := Remainders(nets, diff, total);
    forall j | 0 <= j < |nets| ensures rems[j] == 0 {
      WholeQuota(nets[j], diff, total, quotas[j]);
    }
    SumZeros(rems);
    SumOfParts(nets, diff, total);
    QuotientUnique(Sum(IntegerParts(nets, diff, total)), diff, total, diff * total, true);
  }

  lemma {:induction false} SumZeros(s: seq<int>)
    requires forall i :: 0 <= i < |s| ==> s[i] == 0
    ensures Sum(s) == 0
  {
    if |s| > 0 {
      SumZeros(s[..|s| - 1]);
    }
  }
}
