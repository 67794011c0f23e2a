/**
 The roster of the hour tracker: the entries of the name-to-hours mapping,
 sorted in place with a comparator that puts priority teachers first and
 otherwise orders by descending hours.
 */
module Roster {
  import opened Priority

  /** One entry of the mapping: a teacher's name and weekly hours. */
  type Entry = (string, real)

  /** The entries of `m`, each exactly once, in some order. */
  ghost predicate IsEntriesOf(es: seq<Entry>, m: map<string, real>) {
    |es| == |m| && forall e :: multiset(es)[e] == if e in m.Items then 1 else 0
  }

  /** The mapping's entries, listed in an order the model leaves open. */
  method EntriesOf(m: map<string, real>) returns (es: seq<Entry>)
    ensures IsEntriesOf(es, m)
  {
    es := [];
    var rest := m.Keys;
    while rest != {}
      invariant rest <= m.Keys
      invariant |es| + |rest| == |m|
      invariant forall e :: multiset(es)[e] == if e in m.Items && e.0 !in rest then 1 else 0
      decreases rest
    {
      var k :| k in rest;
      es := es + [(k, m[k])];
      rest := rest - {k};
    }
  }

  /** Each listed entry is a name of the mapping with its hours, and no
      name is listed twice. */
  lemma EntriesAreFromMap(es: seq<Entry>, m: map<string, real>)
    requires IsEntriesOf(es, m)
    ensures forall i :: 0 <= i < |es| ==> es[i].0 in m && m[es[i].0] == es[i].1
    ensures forall i, j :: 0 <= i < j < |es| ==> es[i].0 != es[j].0
  {
    forall i | 0 <= i < |es| ensures es[i] in m.Items {
      assert es[i] in multiset(es);
    }
    forall i, j | 0 <= i < j < |es| ensures es[i].0 != es[j].0 {
      assert es == es[..i] + [es[i]] + es[i + 1..j] + [es[j]] + es[j + 1..];
      if es[i].0 == es[j].0 {
        assert false;
      }
    }
  }

  /** Two listings of the same mapping are permutations of each other. */
  lemma EntriesPermutation(s: seq<Entry>, t: seq<Entry>, m: map<string, real>)
    requires IsEntriesOf(s, m) && IsEntriesOf(t, m)
    ensures multiset(s) == multiset(t)
  {
    assert forall e :: multiset(s)[e] == multiset(t)[e];
  }

  /** The sort comparator: negative when `a` goes first, positive when `b`
      does, and otherwise the difference of the hours, larger first. */
  function Compare(a: Entry, b: Entry): (order: real)
    ensures order < 0.0 <==>
      (IsPriority(a.0) && !IsPriority(b.0)) || (IsPriority(a.0) == IsPriority(b.0) && a.1 > b.1)
    ensures order > 0.0 <==>
      (!IsPriority(a.0) && IsPriority(b.0)) || (IsPriority(a.0) == IsPriority(b.0) && a.1 < b.1)
    ensures order == 0.0 <==> IsPriority(a.0) == IsPriority(b.0) && a.1 == b.1
  {
    var aIsPriority := IsPriority(a.0);
    var bIsPriority := IsPriority(b.0);
    if aIsPriority && !bIsPriority then -1.0
    else if !aIsPriority && bIsPriority then 1.0
    else b.1 - a.1
  }

  /** `a` may stand before `b` in the sorted roster. */
  predicate Precedes(a: Entry, b: Entry) {
    Compare(a, b) <= 0.0
  }

  /** Swapping the arguments flips the comparator's sign. */
  lemma CompareAntisymmetric(a: Entry, b: Entry)
    ensures Compare(a, b) == -Compare(b, a)
  {
  }

  /** The comparator is consistent: `Precedes` is a total preorder. */
  lemma PrecedesTotalPreorder(a: Entry, b: Entry, c: Entry)
    ensures Precedes(a, b) || Precedes(b, a)
    ensures Precedes(a, b) && Precedes(b, c) ==> Precedes(a, c)
  {
  }

  /** Every pair of the roster is in comparator order. */
  ghost predicate Sorted(s: seq<Entry>) {
    forall i, j :: 0 <= i < j < |s| ==> Precedes(s[i], s[j])
  }

  /** Priority teachers come first, and within each class the hours never increase. */
  ghost predicate PriorityFirst(s: seq<Entry>) {
    forall i, j :: 0 <= i < j < |s| && IsPriority(s[j].0) ==> IsPriority(s[i].0)
  }

  ghost predicate HoursDescendWithinClass(s: seq<Entry>) {
    forall i, j :: 0 <= i < j < |s| && IsPriority(s[i].0) == IsPriority(s[j].0) ==> s[i].1 >= s[j].1
  }

  /** Being sorted under the comparator means exactly: priority first, then
      descending hours within each class. */
  lemma SortedIff(s: seq<Entry>)
    ensures Sorted(s) <==> PriorityFirst(s) && HoursDescendWithinClass(s)
  {
    if PriorityFirst(s) && HoursDescendWithinClass(s) {
      forall i, j | 0 <= i < j < |s| ensures Precedes(s[i], s[j]) {
        if IsPriority(s[j].0) { assert IsPriority(s[i].0); }
      }
    }
    if Sorted(s) {
      forall i, j | 0 <= i < j < |s| && IsPriority(s[j].0) ensures IsPriority(s[i].0) {
        assert Precedes(s[i], s[j]);
      }
      forall i, j | 0 <= i < j < |s| && IsPriority(s[i].0) == IsPriority(s[j].0)
        ensures s[i].1 >= s[j].1
      {
        assert Precedes(s[i], s[j]);
      }
    }
  }

  /** No two entries of `s` tie under the comparator, and they are in order. */
  ghost predicate StrictlySorted(s: seq<Entry>) {
    forall i, j :: 0 <= i < j < |s| ==> !Precedes(s[j], s[i])
  }

  /** When no two entries tie, the sorted order is unique: every sorted
      permutation of a strictly sorted roster is that roster. */
  lemma {:induction false} SortedOrderUnique(s: seq<Entry>, t: seq<Entry>)
    requires StrictlySorted(s) && Sorted(t) && multiset(s) == multiset(t)
    ensures s == t
    decreases |s|
  {
    if s == [] {
      assert |t| == |multiset(t)| == 0;
    } else {
      SameFirst(s, t);
      SameRest(s, t);
      SortedOrderUnique(s[1..], t[1..]);
      assert s == [s[0]] + s[1..] && t == [t[0]] + t[1..];
    }
  }

  lemma SameFirst(s: seq<Entry>, t: seq<Entry>)
    requires StrictlySorted(s) && Sorted(t) && multiset(s) == multiset(t) && s != []
    ensures t != [] && t[0] == s[0]
  {
    assert s[0] in multiset(t);
    var m :| 0 <= m < |t| && t[m] == s[0];
    assert t[0] in multiset(s);
    var k :| 0 <= k < |s| && s[k] == t[0];
    if k != 0 {
      assert false;
    }
  }

  lemma SameRest(s: seq<Entry>, t: seq<Entry>)
    requires StrictlySorted(s) && Sorted(t) && multiset(s) == multiset(t)
    requires s != [] && t != [] && s[0] == t[0]
    ensures StrictlySorted(s[1..]) && Sorted(t[1..]) && multiset(s[1..]) == multiset(t[1..])
  {
    var sr, tr := s[1..], t[1..];
    forall i, j | 0 <= i < j < |sr| ensures !Precedes(sr[j], sr[i]) {
      assert sr[i] == s[i + 1] && sr[j] == s[j + 1];
    }
    forall i, j | 0 <= i < j < |tr| ensures Precedes(tr[i], tr[j]) {
      assert tr[i] == t[i + 1] && tr[j] == t[j + 1];
    }
    TailPermutation(s, t);
  }

  lemma TailPermutation(s: seq<Entry>, t: seq<Entry>)
    requires multiset(s) == multiset(t) && s != [] && t != [] && s[0] == t[0]
    ensures multiset(s[1..]) == multiset(t[1..])
  {
    assert s == [s[0]] + s[1..] && t == [t[0]] + t[1..];
    assert multiset(s[1..]) == multiset(s) - multiset{s[0]};
    assert multiset(t[1..]) == multiset(t) - multiset{t[0]};
  }

  /** Sorts the entries in place: the result is a permutation of the input
      in comparator order. */
  method SortRoster(a: array<Entry>)
    modifies a
    ensures Sorted(a[..])
    ensures multiset(a[..]) == old(multiset(a[..]))
  {
    var i := 0;
    while i < a.Length
      invariant 0 <= i <= a.Length
      invariant Sorted(a[..i])
      invariant multiset(a[..]) == old(multiset(a[..]))
    {
      InsertLast(a, i);
      i := i + 1;
    }
  }

  /** Moves `a[i]` left into the sorted prefix `a[..i]`. */
  method InsertLast(a: array<Entry>, i: nat)
    requires i < a.Length
    requires Sorted(a[..i])
    modifies a
    ensures Sorted(a[..i + 1])
    ensures multiset(a[..]) == old(multiset(a[..]))
  {
    var j := i;
    StartInsert(a[..], i);
    while j > 0 && !Precedes(a[j - 1], a[j])
      invariant 0 <= j <= i
      invariant multiset(a[..]) == old(multiset(a[..]))
      invariant InsertionState(a[..], j, i)
    {
      SwapStep(a[..], j, i);
      a[j - 1], a[j] := a[j], a[j - 1];
      j := j - 1;
    }
    FinishInsert(a[..], j, i);
  }

  /** While `s[j]` moves left: the other entries of `s[..i + 1]` are in
      order, and `s[j]` may stand before everything to its right. */
  ghost predicate InsertionState(s: seq<Entry>, j: nat, i: nat) {
    j <= i < |s|
    && (forall p, q :: 0 <= p < q <= i && p != j && q != j ==> Precedes(s[p], s[q]))
    && (forall q :: j < q <= i ==> Precedes(s[j], s[q]))
  }

  lemma StartInsert(s: seq<Entry>, i: nat)
    requires i < |s| && Sorted(s[..i])
    ensures InsertionState(s, i, i)
  {
    forall p, q | 0 <= p < q < i ensures Precedes(s[p], s[q]) {
      assert s[p] == s[..i][p] && s[q] == s[..i][q];
    }
  }

  lemma SwapStep(s: seq<Entry>, j: nat, i: nat)
    requires InsertionState(s, j, i) && 0 < j && !Precedes(s[j - 1], s[j])
    ensures InsertionState(s[j - 1 := s[j]][j := s[j - 1]], j - 1, i)
  {
    var t := s[j - 1 := s[j]][j := s[j - 1]];
    PrecedesTotalPreorder(s[j - 1], s[j], s[j]);
    forall q | j - 1 < q <= i ensures Precedes(t[j - 1], t[q]) {
      if q > j {
        PrecedesTotalPreorder(s[j], s[j - 1], s[q]);
      }
    }
  }

  lemma FinishInsert(s: seq<Entry>, j: nat, i: nat)
    requires InsertionState(s, j, i) && (j == 0 || Precedes(s[j - 1], s[j]))
    ensures Sorted(s[..i + 1])
  {
    forall p | 0 <= p < j ensures Precedes(s[p], s[j]) {
      PrecedesTotalPreorder(s[p], s[j - 1], s[j]);
    }
    var prefix := s[..i + 1];
    forall p, q | 0 <= p < q < |prefix| ensures Precedes(prefix[p], prefix[q]) {
      assert prefix[p] == s[p] && prefix[q] == s[q];
    }
  }
}
