/** Percentile tiers: each score is placed by the share of scores at or below it. */
module Tiers {
  import Common
  import Keyset
  import Sorting

  datatype Tier = D | C | B | A | S

  function Rank(t: Tier): nat {
    match t case D => 0 case C => 1 case B => 2 case A => 3 case S => 4
  }

  function TierForPercentile(percentile: real): Tier {
    if percentile >= 90.0 then S
    else if percentile >= 70.0 then A
    else if percentile >= 30.0 then B
    else if percentile >= 10.0 then C
    else D
  }

  /** Number of scores at or below `x`, in any order of the scores. */
  function CountAtOrBelow(scores: seq<real>, x: real): nat {
    if scores == [] then 0
    else (if scores[0] <= x then 1 else 0) + CountAtOrBelow(scores[1..], x)
  }

  function Percentile(count: nat, total: nat): real
    requires total > 0
  {
    count as real / total as real * 100.0
  }

  /** The specification: the tier of score `x` among `scores`. */
  function TierOf(scores: seq<real>, x: real): Tier
    requires scores != []
  {
    TierForPercentile(Percentile(CountAtOrBelow(scores, x), |scores|))
  }

  /** The positions of the scores at or below `x`. */
  ghost function AtOrBelow(scores: seq<real>, x: real): set<nat> {
    set j: nat | j < |scores| && scores[j] <= x
  }

  /**
   * The tier as a count: at least 90% of the scores at or below the score make an S, at least 70%
   * an A, 30% a B, 10% a C, and fewer a D.
   */
  ghost predicate TieredByCount(t: Tier, atOrBelow: nat, total: nat) {
    match t
    case S => 100 * atOrBelow >= 90 * total
    case A => 90 * total > 100 * atOrBelow >= 70 * total
    case B => 70 * total > 100 * atOrBelow >= 30 * total
    case C => 30 * total > 100 * atOrBelow >= 10 * total
    case D => 10 * total > 100 * atOrBelow
  }

  lemma {:induction false} CountPicks(scores: seq<real>, x: real) returns (at: seq<nat>)
    ensures Common.Picked(scores, y => y <= x, at) && |at| == CountAtOrBelow(scores, x)
  {
    hide Common.Picked;
    if scores == [] {
      at := [];
      Common.NothingPicked(scores, y => y <= x);
    } else {
      var rest := CountPicks(scores[1..], x);
      at := Common.Onward(scores[0] <= x, rest);
      Common.PickedOnward(scores, y => y <= x, rest);
    }
  }

  lemma TierIsCounted(scores: seq<real>, x: real)
    requires scores != []
    ensures TieredByCount(TierOf(scores, x), |AtOrBelow(scores, x)|, |scores|)
  {
    var at := CountPicks(scores, x);
    Keyset.PickedSize(scores, y => y <= x, at, AtOrBelow(scores, x));
    var count := CountAtOrBelow(scores, x);
    hide AtOrBelow, CountAtOrBelow;
    PercentileBelow(count, |scores|, 90);
    PercentileBelow(count, |scores|, 70);
    PercentileBelow(count, |scores|, 30);
    PercentileBelow(count, |scores|, 10);
  }

  // ------------------------------------------------- the sorted-copy algorithm

  predicate Sorted(s: seq<real>) {
    forall i, j :: 0 <= i < j < |s| ==> s[i] <= s[j]
  }

  predicate Below(a: real, b: real) {
    a < b
  }

  /** `[...scores].sort((a, b) => a - b)`. */
  function Sort(s: seq<real>): (r: seq<real>)
    ensures Sorted(r) && multiset(r) == multiset(s)
  {
    Sorting.SortOrdered(Below, s);
    var r := Sorting.Sort(Below, s);
    assert forall i, j :: 0 <= i < j < |r| ==> !Below(r[j], r[i]);
    r
  }

  lemma {:induction false} CountAppend(s: seq<real>, t: seq<real>, x: real)
    ensures CountAtOrBelow(s + t, x) == CountAtOrBelow(s, x) + CountAtOrBelow(t, x)
  {
    if s == [] {
      assert s + t == t;
    } else {
      CountAppend(s[1..], t, x);
      assert (s + t)[1..] == s[1..] + t;
    }
  }

  lemma {:induction false} CountTakeOut(s: seq<real>, i: nat, x: real)
    requires i < |s|
    ensures CountAtOrBelow(s, x) == (if s[i] <= x then 1 else 0) + CountAtOrBelow(s[..i] + s[i + 1..], x)
  {
    assert s == s[..i] + ([s[i]] + s[i + 1..]);
    CountAppend(s[..i], [s[i]] + s[i + 1..], x);
    CountAppend(s[..i], s[i + 1..], x);
  }

  lemma SameRest(s: seq<real>, t: seq<real>) returns (i: nat)
    requires multiset(s) == multiset(t) && s != []
    ensures i < |t| && t[i] == s[0] && multiset(s[1..]) == multiset(t[..i] + t[i + 1..])
  {
    assert s[0] in multiset(t);
    i :| 0 <= i < |t| && t[i] == s[0];
    var before, after := t[..i], t[i + 1..];
    assert t == before + ([t[i]] + after);
    assert multiset(t) == multiset(before) + (multiset{t[i]} + multiset(after));
    assert s == [s[0]] + s[1..];
    assert multiset(s) == multiset{s[0]} + multiset(s[1..]);
    assert multiset(s[1..]) == multiset(s) - multiset{s[0]};
    assert multiset(before + after) == multiset(before) + multiset(after);
  }

  /** The count does not depend on the order of the scores. */
  lemma {:induction false} CountIgnoresOrder(s: seq<real>, t: seq<real>, x: real)
    requires multiset(s) == multiset(t)
    ensures CountAtOrBelow(s, x) == CountAtOrBelow(t, x)
    decreases |s|
  {
    if s == [] {
      assert |t| == |multiset(t)| == 0;
    } else {
      var i := SameRest(s, t);
      CountIgnoresOrder(s[1..], t[..i] + t[i + 1..], x);
      CountTakeOut(t, i, x);
    }
  }

  lemma {:induction false} CountAll(s: seq<real>, x: real)
    requires forall y :: y in s ==> y <= x
    ensures CountAtOrBelow(s, x) == |s|
  {
    if s != [] {
      assert s[0] in s && forall y :: y in s[1..] ==> y in s;
      CountAll(s[1..], x);
    }
  }

  lemma {:induction false} CountNone(s: seq<real>, x: real)
    requires forall y :: y in s ==> y > x
    ensures CountAtOrBelow(s, x) == 0
  {
    if s != [] {
      assert s[0] in s && forall y :: y in s[1..] ==> y in s;
      CountNone(s[1..], x);
    }
  }

  /** The inner loop: count along the sorted copy and stop at the first larger entry. */
  method CountWithBreak(sorted: seq<real>, score: real) returns (count: nat)
    requires Sorted(sorted)
    ensures count == CountAtOrBelow(sorted, score)
  {
    count := 0;
    while count < |sorted|
      invariant count <= |sorted|
      invariant forall y :: y in sorted[..count] ==> y <= score
    {
      if sorted[count] > score {
        break;
      }
      assert sorted[..count + 1] == sorted[..count] + [sorted[count]];
      count := count + 1;
    }
    assert sorted == sorted[..count] + sorted[count..];
    CountAppend(sorted[..count], sorted[count..], score);
    CountAll(sorted[..count], score);
    if count < |sorted| {
      CountNone(sorted[count..], score);
    }
  }

  method AssignPercentileTiers(scores: seq<real>) returns (tiers: seq<Tier>)
    ensures |tiers| == |scores|
    ensures forall i :: 0 <= i < |scores| ==> tiers[i] == TierOf(scores, scores[i])
    ensures forall i :: 0 <= i < |scores| ==> TieredByCount(tiers[i], |AtOrBelow(scores, scores[i])|, |scores|)
  {
    tiers := [];
    if scores == [] {
      return;
    }
    var sorted := Sort(scores);
    assert |sorted| == |multiset(sorted)| == |scores|;
    for i := 0 to |scores|
      invariant |tiers| == i
      invariant forall k :: 0 <= k < i ==> tiers[k] == TierOf(scores, scores[k])
    {
      var count := CountWithBreak(sorted, scores[i]);
      CountIgnoresOrder(sorted, scores, scores[i]);
      tiers := tiers + [TierForPercentile(Percentile(count, |scores|))];
    }
    hide TieredByCount, AtOrBelow, TierOf;
    forall i | 0 <= i < |scores|
      ensures TieredByCount(tiers[i], |AtOrBelow(scores, scores[i])|, |scores|)
    {
      TierIsCounted(scores, scores[i]);
    }
  }

  // --------------------------------------------------------------- properties

  /** Tiers commute with permutation: a score's tier only depends on the bag of scores. */
  lemma TierIgnoresOrder(s: seq<real>, t: seq<real>, x: real)
    requires s != [] && multiset(s) == multiset(t)
    ensures t != [] && TierOf(s, x) == TierOf(t, x)
  {
    assert |s| == |multiset(s)| == |multiset(t)| == |t|;
    CountIgnoresOrder(s, t, x);
  }

  lemma {:induction false} CountGrows(s: seq<real>, x: real, y: real)
    requires x <= y
    ensures CountAtOrBelow(s, x) <= CountAtOrBelow(s, y) <= |s|
  {
    if s != [] {
      CountGrows(s[1..], x, y);
    }
  }

  /** `count / total * 100 < cut` without the division. */
  lemma PercentileBelow(count: nat, total: nat, cut: nat)
    requires total > 0
    ensures Percentile(count, total) < cut as real <==> 100 * count < cut * total
  {
    var p := Percentile(count, total);
    assert p * total as real == 100.0 * count as real;
    ScalingKeepsOrder(p, cut as real, total as real);
    assert cut as real * total as real == (cut * total) as real;
  }

  lemma ScalingKeepsOrder(a: real, b: real, n: real)
    requires n > 0.0
    ensures a < b <==> a * n < b * n
  {
    assert b * n - a * n == (b - a) * n;
    if b - a > 0.0 {
      assert (b - a) * n > 0.0;
    } else {
      assert (a - b) * n >= 0.0;
    }
  }

  /** A higher score never gets a lower tier; equal scores share one. */
  lemma TiersAreMonotone(s: seq<real>, x: real, y: real)
    requires s != [] && x <= y
    ensures Rank(TierOf(s, x)) <= Rank(TierOf(s, y))
  {
    CountGrows(s, x, y);
    var n := |s|;
    var cx, cy := CountAtOrBelow(s, x), CountAtOrBelow(s, y);
    PercentileBelow(cx, n, 10);
    PercentileBelow(cx, n, 30);
    PercentileBelow(cx, n, 70);
    PercentileBelow(cx, n, 90);
    PercentileBelow(cy, n, 10);
    PercentileBelow(cy, n, 30);
    PercentileBelow(cy, n, 70);
    PercentileBelow(cy, n, 90);
  }

  /** The maximum score is always S. */
  lemma MaximumIsS(s: seq<real>, x: real)
    requires s != [] && forall y :: y in s ==> y <= x
    ensures TierOf(s, x) == S
  {
    CountAll(s, x);
    PercentileBelow(|s|, |s|, 90);
  }

  /** How many of the entries of `part` are placed at tier `t` or lower among `scores`. */
  function AtMost(scores: seq<real>, part: seq<real>, t: Tier): nat
    requires scores != []
  {
    if part == [] then 0
    else (if Rank(TierOf(scores, part[0])) <= Rank(t) then 1 else 0) + AtMost(scores, part[1..], t)
  }

  /** Percentile at which tier `t` ends. */
  function Cut(t: Tier): nat
    requires t != S
  {
    match t case D => 10 case C => 30 case B => 70 case A => 90
  }

  lemma BelowCut(scores: seq<real>, x: real, t: Tier)
    requires scores != [] && t != S
    ensures Rank(TierOf(scores, x)) <= Rank(t) <==> 100 * CountAtOrBelow(scores, x) < Cut(t) * |scores|
  {
    PercentileBelow(CountAtOrBelow(scores, x), |scores|, Cut(t));
  }

  /** Some entry of a non-empty low group dominates the whole group. */
  lemma {:induction false} LowGroupIsDominated(scores: seq<real>, part: seq<real>, t: Tier) returns (top: real)
    requires scores != [] && AtMost(scores, part, t) > 0
    ensures top in part && Rank(TierOf(scores, top)) <= Rank(t)
    ensures AtMost(scores, part, t) <= CountAtOrBelow(part, top)
  {
    var low := Rank(TierOf(scores, part[0])) <= Rank(t);
    if AtMost(scores, part[1..], t) == 0 {
      top := part[0];
    } else {
      top := LowGroupIsDominated(scores, part[1..], t);
      if low && part[0] > top {
        CountGrows(part[1..], top, part[0]);
        top := part[0];
      }
    }
  }

  /** Fewer than 10% of the entries are D, 30% C or lower, 70% B or lower, 90% A or lower, for every non-empty input. */
  lemma LowTiersAreBounded(scores: seq<real>, t: Tier)
    requires scores != [] && t != S
    ensures 100 * AtMost(scores, scores, t) < Cut(t) * |scores|
  {
    if AtMost(scores, scores, t) > 0 {
      var top := LowGroupIsDominated(scores, scores, t);
      BelowCut(scores, top, t);
    } else {
      assert Cut(t) >= 10;
    }
  }
}
