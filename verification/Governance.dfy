/**
 What the scheduled witnesses decide together: the majority version, the next hardfork, and the
 median of each chain property.
 */
module Governance {
  import opened Counting
  import opened Options

  /** Counts the occurrences of each value, as the tallies do. */
  method Tally<T(==, !new)>(s: seq<T>) returns (tally: map<T, nat>)
    ensures forall x :: x in tally <==> x in s
    ensures forall x :: x in tally ==> tally[x] == CountIf(s, Is(x))
  {
    tally := map[];
    for i := 0 to |s|
      invariant forall x :: x in tally <==> x in s[..i]
      invariant forall x :: x in tally ==> tally[x] == CountIf(s[..i], Is(x))
    {
      assert s[..i + 1] == s[..i] + [s[i]];
      forall x ensures CountIf(s[..i + 1], Is(x)) == CountIf(s[..i], Is(x)) + if s[i] == x then 1 else 0 {
        CountAppend(s[..i], s[i], Is(x));
      }
      if s[i] !in tally {
        CountNone(s[..i], Is(s[i]));
      }
      tally := tally[s[i] := if s[i] in tally then tally[s[i]] + 1 else 1];
    }
    assert s[..|s|] == s;
  }

  // ----- Majority version -----

  /** The greatest version that enough witnesses run, or run something newer than. */
  ghost predicate IsMajorityVersion(versions: seq<nat>, required: nat, v: nat) {
    && v in versions && CountIf(versions, AtLeast(v)) >= required
    && forall u :: u in versions && u > v ==> CountIf(versions, AtLeast(u)) < required
  }

  ghost predicate HasMajority(versions: seq<nat>, required: nat) {
    exists v :: v in versions && CountIf(versions, AtLeast(v)) >= required
  }

  method Greatest(s: set<nat>) returns (m: nat)
    requires s != {}
    ensures m in s && forall x :: x in s ==> x <= m
  {
    m :| m in s;
    var rest := s - {m};
    while rest != {}
      invariant rest <= s && m in s && forall x :: x in s && x !in rest ==> x <= m
      decreases rest
    {
      var x :| x in rest;
      rest := rest - {x};
      if m < x {
        m := x;
      }
    }
  }

  /** Too few witnesses run at least any version that is at least `bound`. */
  ghost predicate NoMajorityFrom(versions: seq<nat>, required: nat, bound: nat) {
    forall u :: u in versions && u >= bound ==> CountIf(versions, AtLeast(u)) < required
  }

  lemma NoneAbove(versions: seq<nat>, required: nat, bound: nat)
    requires forall u :: u in versions ==> u < bound
    ensures CountIf(versions, AtLeast(bound)) == 0 && NoMajorityFrom(versions, required, bound)
  {
    CountNone(versions, AtLeast(bound));
  }

  lemma NoMajorityHere(versions: seq<nat>, required: nat, bound: nat, next: nat)
    requires NoMajorityFrom(versions, required, bound) && CountIf(versions, AtLeast(next)) < required
    requires forall u :: u in versions && u < bound ==> u <= next
    ensures NoMajorityFrom(versions, required, next)
  {
  }

  /** When nothing lies between `next` and `bound`, the witnesses on at least `next` are those on
      at least `bound` and those on `next`. */
  lemma NextVersion(versions: seq<nat>, bound: nat, next: nat)
    requires next < bound && forall x :: x in versions && x < bound ==> x <= next
    ensures CountIf(versions, AtLeast(next)) == CountIf(versions, AtLeast(bound)) + CountIf(versions, Is(next))
  {
    CountSplit(versions, AtLeast(next), AtLeast(bound), Is(next));
  }

  /** Walks the versions from the newest down until enough witnesses run at least that one. */
  method MajorityVersion(versions: seq<nat>, required: nat, current: nat) returns (v: nat)
    ensures if HasMajority(versions, required) then IsMajorityVersion(versions, required, v) else v == current
  {
    var tally := Tally(versions);
    var onVersion := 0;
    var rest := tally.Keys;
    ghost var bound := UpperBound(versions);
    NoneAbove(versions, required, bound);
    while rest != {}
      invariant forall x :: x in rest <==> x in tally && x < bound
      invariant onVersion == CountIf(versions, AtLeast(bound)) && NoMajorityFrom(versions, required, bound)
      decreases rest
    {
      var next := Greatest(rest);
      NextVersion(versions, bound, next);
      onVersion := onVersion + tally[next];
      if onVersion >= required {
        return next;
      }
      NoMajorityHere(versions, required, bound, next);
      hide NoMajorityFrom;
      rest, bound := rest - {next}, next;
    }
    return current;
  }

  ghost function UpperBound(s: seq<nat>): (b: nat)
    ensures forall x :: x in s ==> x < b
  {
    if s == [] then 0
    else
      var b := UpperBound(s[1..]);
      assert forall x :: x in s ==> x == s[0] || x in s[1..];
      if b <= s[0] then s[0] + 1 else b
  }

  // ----- Hardfork vote -----

  /** A hardfork version together with the time it is to happen, in the order of the tally. */
  datatype HardforkVote = HardforkVote(version: nat, time: nat)

  predicate Before(a: HardforkVote, b: HardforkVote) {
    a.version < b.version || (a.version == b.version && a.time < b.time)
  }

  method First(s: set<HardforkVote>) returns (m: HardforkVote)
    requires s != {}
    ensures m in s && forall x :: x in s && x != m ==> Before(m, x)
  {
    m :| m in s;
    var rest := s - {m};
    while rest != {}
      invariant rest <= s && m in s && m !in rest && forall x :: x in s && x !in rest && x != m ==> Before(m, x)
      decreases rest
    {
      var x :| x in rest;
      rest := rest - {x};
      if Before(x, m) {
        m := x;
      }
    }
  }

  /** The first vote, in tally order, that enough witnesses cast. */
  method WinningHardfork(votes: seq<HardforkVote>, required: nat) returns (winner: Option<HardforkVote>)
    ensures winner.Some? ==>
              && winner.value in votes && CountIf(votes, Is(winner.value)) >= required
              && forall u :: u in votes
                   && (u.version < winner.value.version || (u.version == winner.value.version && u.time < winner.value.time))
                   ==> CountIf(votes, Is(u)) < required
    ensures winner.None? ==> forall u :: u in votes ==> CountIf(votes, Is(u)) < required
  {
    var tally := Tally(votes);
    var rest := tally.Keys;
    while rest != {}
      invariant rest <= tally.Keys
      invariant forall u :: u in tally && u !in rest ==> CountIf(votes, Is(u)) < required
      decreases rest
    {
      var next := First(rest);
      if tally[next] >= required {
        forall u | u in votes && Before(u, next) ensures CountIf(votes, Is(u)) < required {
          assert u !in rest;
        }
        return Some(next);
      }
      rest := rest - {next};
    }
    return None;
  }

  /** When the requirement is more than half of the slate, no two different votes can both meet it. */
  lemma WinnerIsUnique(votes: seq<HardforkVote>, required: nat, a: HardforkVote, b: HardforkVote)
    requires 2 * required > |votes|
    requires CountIf(votes, Is(a)) >= required && CountIf(votes, Is(b)) >= required
    ensures a == b
  {
    if a != b {
      CountDisjoint(votes, Is(a), Is(b));
    }
  }

  // ----- Medians -----

  ghost predicate Sorted(s: seq<int>) {
    forall i, j :: 0 <= i < j < |s| ==> s[i] <= s[j]
  }

  /** A value of the slate with at most half of the values below it and more than half of them at
      or below it. */
  ghost predicate IsMedian(values: seq<int>, m: int) {
    && m in values
    && CountIf(values, Below(m)) <= |values| / 2 < CountIf(values, Below(m + 1))
  }

  /** No other value fits: the median depends on nothing but the values. */
  lemma MedianIsUnique(values: seq<int>, a: int, b: int)
    requires IsMedian(values, a) && IsMedian(values, b)
    ensures a == b
  {
    if a < b {
      CountMonotone(values, Below(a + 1), Below(b));
    } else if b < a {
      CountMonotone(values, Below(b + 1), Below(a));
    }
  }

  /** The median lies in every interval that holds a strict majority of the values. */
  lemma MedianInMajorityInterval(values: seq<int>, m: int, lo: int, hi: int)
    requires IsMedian(values, m) && 2 * CountIf(values, Between(lo, hi)) > |values|
    ensures lo <= m <= hi
  {
    if m < lo {
      CountMonotone(values, Below(m + 1), Below(lo));
      CountDisjoint(values, Below(lo), Between(lo, hi));
    } else if hi < m {
      CountMonotone(values, Between(lo, hi), Below(m));
    }
  }

  /** Sorts a copy of the values and takes the middle one, the upper middle of an even number. */
  method Median(values: seq<int>) returns (median: int)
    requires values != []
    ensures IsMedian(values, median)
  {
    var sorted := SortValues(values);
    median := sorted[|sorted| / 2];
    assert median in multiset(sorted);
    CountPermuted(values, sorted, Below(median));
    CountPermuted(values, sorted, Below(median + 1));
    SortedRank(sorted, median);
    SortedRank(sorted, median + 1);
  }

  method SortValues(values: seq<int>) returns (sorted: seq<int>)
    ensures Sorted(sorted) && multiset(sorted) == multiset(values) && |sorted| == |values|
  {
    sorted := [];
    for i := 0 to |values|
      invariant Sorted(sorted) && multiset(sorted) == multiset(values[..i]) && |sorted| == i
    {
      assert values[..i + 1] == values[..i] + [values[i]];
      InsertAdds(sorted, values[i]);
      InsertSorted(sorted, values[i]);
      sorted := Insert(sorted, values[i]);
    }
    assert values[..|values|] == values;
  }

  function Insert(s: seq<int>, x: int): seq<int> {
    if s == [] || x <= s[0] then [x] + s else [s[0]] + Insert(s[1..], x)
  }

  lemma {:induction false} InsertAdds(s: seq<int>, x: int)
    ensures multiset(Insert(s, x)) == multiset(s) + multiset{x} && |Insert(s, x)| == |s| + 1
  {
    if s != [] && x > s[0] {
      InsertAdds(s[1..], x);
      assert s == [s[0]] + s[1..];
    }
  }

  lemma {:induction false} InsertSorted(s: seq<int>, x: int)
    requires Sorted(s)
    ensures Sorted(Insert(s, x)) && Insert(s, x) != []
    ensures Insert(s, x)[0] == if s == [] || x <= s[0] then x else s[0]
  {
    if s != [] && x > s[0] {
      InsertSorted(s[1..], x);
      SortedCons(s[0], Insert(s[1..], x));
    }
  }

  lemma SortedCons(x: int, s: seq<int>)
    requires Sorted(s) && s != [] && x <= s[0]
    ensures Sorted([x] + s)
  {
  }

  /** In a sorted list the values below `v` are exactly the first ones. */
  lemma {:induction false} SortedRank(s: seq<int>, v: int)
    requires Sorted(s)
    ensures CountIf(s, Below(v)) <= |s|
    ensures forall i :: 0 <= i < |s| ==> (s[i] < v <==> i < CountIf(s, Below(v)))
  {
    if s == [] {
    } else {
      if s[0] >= v {
        CountNone(s, Below(v));
      } else {
        SortedRank(s[1..], v);
      }
    }
  }
}
