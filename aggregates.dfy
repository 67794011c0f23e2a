/**
 The header figures and the summary bar of the hour tracker: total and
 average hours over the roster, and how many teachers fall in each of four
 hour ranges.
 */
module Aggregates {
  import opened HourStatus
  import opened Roster

  /** Below this many hours a teacher is counted as under-used. */
  const LowThreshold: real := 9.0

  /** The sum of the hours, accumulated from the first entry on. */
  function Total(s: seq<Entry>): (total: real)
    ensures (forall i :: 0 <= i < |s| ==> s[i].1 >= 0.0) ==> total >= 0.0
  {
    if s == [] then 0.0 else Total(s[..|s| - 1]) + s[|s| - 1].1
  }

  /** The mean hours of a non-empty roster. */
  function Average(s: seq<Entry>): (average: real)
    requires |s| > 0
    ensures (|s| as real) * average == Total(s)
    ensures (forall i :: 0 <= i < |s| ==> s[i].1 >= 0.0) ==> average >= 0.0
  {
    Total(s) / (|s| as real)
  }

  /** Taking out any one entry lowers the total by that entry's hours. */
  lemma {:induction false} TotalRemove(s: seq<Entry>, k: nat)
    requires k < |s|
    ensures Total(s) == Total(s[..k] + s[k + 1..]) + s[k].1
  {
    var n := |s| - 1;
    if k < n {
      var t := s[..k] + s[k + 1..];
      assert t[..|t| - 1] == s[..n][..k] + s[..n][k + 1..];
      assert t[|t| - 1] == s[n];
      TotalRemove(s[..n], k);
    } else {
      assert s[..k] + s[k + 1..] == s[..n];
    }
  }

  /** The total does not depend on the order of the entries, so the figures
      shown are the same whichever order the mapping lists its entries in. */
  lemma {:induction false} TotalPermutation(s: seq<Entry>, t: seq<Entry>)
    requires multiset(s) == multiset(t)
    ensures Total(s) == Total(t)
    decreases |s|
  {
    if s != [] {
      var n := |s| - 1;
      var k := MatchLast(s, t);
      TotalPermutation(s[..n], t[..k] + t[k + 1..]);
      TotalRemove(t, k);
    } else {
      assert |t| == |multiset(t)| == 0;
    }
  }

  /** Where the last entry of `s` sits in its permutation `t`, and what
      remains of both without it. */
  lemma MatchLast(s: seq<Entry>, t: seq<Entry>) returns (k: nat)
    requires |s| > 0 && multiset(s) == multiset(t)
    ensures k < |t| && t[k] == s[|s| - 1]
    ensures multiset(s[..|s| - 1]) == multiset(t[..k] + t[k + 1..])
  {
    var n := |s| - 1;
    assert s[n] in multiset(t);
    k :| 0 <= k < |t| && t[k] == s[n];
    assert s == s[..n] + [s[n]];
    assert t == t[..k] + [t[k]] + t[k + 1..];
    assert multiset(s) == multiset(s[..n]) + multiset{s[n]};
    assert multiset(t) == multiset(t[..k]) + multiset{t[k]} + multiset(t[k + 1..]);
    assert multiset(t[..k] + t[k + 1..]) == multiset(t[..k]) + multiset(t[k + 1..]);
    assert multiset(s[..n]) == multiset(s) - multiset{s[n]};
    assert multiset(t[..k] + t[k + 1..]) == multiset(t) - multiset{t[k]};
  }

  /** If everyone worked more than `x` hours, the total exceeds |s| times `x`. */
  lemma {:induction false} TotalAbove(s: seq<Entry>, x: real)
    requires |s| > 0
    requires forall i :: 0 <= i < |s| ==> s[i].1 > x
    ensures Total(s) > (|s| as real) * x
  {
    var n := |s| - 1;
    if n > 0 {
      var init := s[..n];
      assert forall i :: 0 <= i < |init| ==> init[i] == s[i];
      TotalAbove(init, x);
      ScaleStep(n, x);
    }
  }

  lemma ScaleStep(n: nat, x: real)
    ensures ((n + 1) as real) * x == (n as real) * x + x
  {
  }

  /** Not every teacher is above the average: the above-average marker never
      appears on every card. */
  lemma NotAllAboveAverage(s: seq<Entry>)
    requires |s| > 0
    ensures exists i :: 0 <= i < |s| && !(s[i].1 > Average(s))
  {
    assert (|s| as real) * Average(s) == Total(s);
    if forall i :: 0 <= i < |s| ==> s[i].1 > Average(s) {
      TotalAbove(s, Average(s));
      assert false;
    }
  }

  /** The four ranges of the summary bar. */
  datatype Range = Under9 | From9To12 | From12To15 | From15

  /** The filter condition of each range, as the summary bar writes it. */
  predicate InRange(hours: real, r: Range) {
    match r
    case Under9 => hours < 9.0
    case From9To12 => hours >= 9.0 && hours < 12.0
    case From12To15 => hours >= 12.0 && hours < 15.0
    case From15 => hours >= 15.0
  }

  /** Every hours value lies in exactly one range. */
  lemma RangesPartition(hours: real)
    ensures exists r :: InRange(hours, r)
    ensures forall r1, r2 :: InRange(hours, r1) && InRange(hours, r2) ==> r1 == r2
  {
    if hours < LowThreshold { assert InRange(hours, Under9); }
    else if hours < NearThreshold { assert InRange(hours, From9To12); }
    else if hours < WeeklyLimit { assert InRange(hours, From12To15); }
    else { assert InRange(hours, From15); }
  }

  /** The two upper ranges are the "Near" and "Exceeded" status bands; the
      two lower ones together are the "Available" band. */
  lemma RangesRefineStatus(hours: real)
    ensures InRange(hours, From15) <==> StatusOf(hours) == Exceeded
    ensures InRange(hours, From12To15) <==> StatusOf(hours) == Near
    ensures InRange(hours, Under9) || InRange(hours, From9To12) <==> StatusOf(hours) == Available
  {
  }

  /** The length of the roster filtered to one range: none when no entry is
      in range, all when every entry is. */
  function CountIn(s: seq<Entry>, r: Range): (n: nat)
    ensures n <= |s|
    ensures n == 0 <==> forall i :: 0 <= i < |s| ==> !InRange(s[i].1, r)
    ensures n == |s| <==> forall i :: 0 <= i < |s| ==> InRange(s[i].1, r)
  {
    if s == [] then 0
    else
      var init := s[..|s| - 1];
      assert forall i :: 0 <= i < |init| ==> init[i] == s[i];
      CountIn(init, r) + (if InRange(s[|s| - 1].1, r) then 1 else 0)
  }

  /** The counts of the summary bar. */
  datatype Histogram = Histogram(under9: nat, from9To12: nat, from12To15: nat, over15: nat)

  function HistogramOf(s: seq<Entry>): (h: Histogram)
    ensures h.under9 == CountIn(s, Under9) && h.from9To12 == CountIn(s, From9To12)
    ensures h.from12To15 == CountIn(s, From12To15) && h.over15 == CountIn(s, From15)
    ensures h.under9 + h.from9To12 + h.from12To15 + h.over15 == |s|
  {
    RangeCountsSum(s);
    Histogram(CountIn(s, Under9), CountIn(s, From9To12), CountIn(s, From12To15), CountIn(s, From15))
  }

  /** The four counts add up to the roster size: no teacher is counted twice
      or left out. */
  lemma {:induction false} RangeCountsSum(s: seq<Entry>)
    ensures CountIn(s, Under9) + CountIn(s, From9To12) + CountIn(s, From12To15) + CountIn(s, From15) == |s|
  {
    if s != [] {
      RangeCountsSum(s[..|s| - 1]);
    }
  }

  /** Like the total, the counts do not depend on the order of the entries. */
  lemma {:induction false} CountPermutation(s: seq<Entry>, t: seq<Entry>, r: Range)
    requires multiset(s) == multiset(t)
    ensures CountIn(s, r) == CountIn(t, r)
    decreases |s|
  {
    if s != [] {
      var n := |s| - 1;
      var k := MatchLast(s, t);
      CountPermutation(s[..n], t[..k] + t[k + 1..], r);
      CountRemove(t, k, r);
    } else {
      assert |t| == |multiset(t)| == 0;
    }
  }

  lemma {:induction false} CountRemove(s: seq<Entry>, k: nat, r: Range)
    requires k < |s|
    ensures CountIn(s, r) == CountIn(s[..k] + s[k + 1..], r) + (if InRange(s[k].1, r) then 1 else 0)
  {
    var n := |s| - 1;
    if k < n {
      var t := s[..k] + s[k + 1..];
      assert t[..|t| - 1] == s[..n][..k] + s[..n][k + 1..];
      assert t[|t| - 1] == s[n];
      CountRemove(s[..n], k, r);
    } else {
      assert s[..k] + s[k + 1..] == s[..n];
    }
  }
}
