/** How many elements of a list satisfy a predicate. */
module Counting {

  ghost function CountIf<T>(s: seq<T>, p: T -> bool): nat {
    if s == [] then 0 else (if p(s[0]) then 1 else 0) + CountIf(s[1..], p)
  }

  ghost function Is<T(!new)>(x: T): T -> bool { y => y == x }
  ghost function AtLeast(v: nat): nat -> bool { x => x >= v }
  ghost function Below(v: int): int -> bool { x => x < v }
  ghost function Between(lo: int, hi: int): int -> bool { x => lo <= x <= hi }

  lemma {:induction false} CountAppend<T>(s: seq<T>, y: T, p: T -> bool)
    ensures CountIf(s + [y], p) == CountIf(s, p) + if p(y) then 1 else 0
  {
    if s == [] {
      assert s + [y] == [y];
      assert [y][1..] == [];
    } else {
      assert (s + [y])[1..] == s[1..] + [y];
      CountAppend(s[1..], y, p);
    }
  }

  /** The count is the number of places where the predicate holds. */
  lemma {:induction false} CountIsSize<T>(s: seq<T>, p: T -> bool)
    ensures CountIf(s, p) == |set i | 0 <= i < |s| && p(s[i])|
  {
    if s == [] {
    } else {
      var front, last := s[..|s| - 1], |s| - 1;
      var places := set i | 0 <= i < |front| && p(front[i]);
      assert s == front + [s[last]];
      CountIsSize(front, p);
      CountAppend(front, s[last], p);
      assert (set i | 0 <= i < |s| && p(s[i])) == if p(s[last]) then places + {last} else places;
    }
  }

  lemma {:induction false} CountNone<T>(s: seq<T>, p: T -> bool)
    requires forall x :: x in s ==> !p(x)
    ensures CountIf(s, p) == 0
  {
    if s == [] {
    } else {
      assert forall x :: x in s[1..] ==> x in s;
      CountNone(s[1..], p);
    }
  }

  lemma {:induction false} CountMonotone<T>(s: seq<T>, p: T -> bool, q: T -> bool)
    requires forall x :: x in s && p(x) ==> q(x)
    ensures CountIf(s, p) <= CountIf(s, q)
  {
    if s == [] {
    } else {
      assert forall x :: x in s[1..] ==> x in s;
      CountMonotone(s[1..], p, q);
    }
  }

  /** Counts over disjoint predicates add up to at most the length. */
  lemma {:induction false} CountDisjoint<T>(s: seq<T>, p: T -> bool, q: T -> bool)
    requires forall x :: x in s ==> !(p(x) && q(x))
    ensures CountIf(s, p) + CountIf(s, q) <= |s|
  {
    if s == [] {
    } else {
      assert forall x :: x in s[1..] ==> x in s;
      CountDisjoint(s[1..], p, q);
    }
  }

  lemma {:induction false} CountSplit<T>(s: seq<T>, p: T -> bool, q: T -> bool, r: T -> bool)
    requires forall x :: x in s ==> (p(x) <==> q(x) || r(x)) && !(q(x) && r(x))
    ensures CountIf(s, p) == CountIf(s, q) + CountIf(s, r)
  {
    if s == [] {
    } else {
      assert forall x :: x in s[1..] ==> x in s;
      CountSplit(s[1..], p, q, r);
    }
  }

  lemma {:induction false} CountWithout<T>(s: seq<T>, k: nat, p: T -> bool)
    requires k < |s|
    ensures CountIf(s, p) == CountIf(s[..k] + s[k + 1..], p) + if p(s[k]) then 1 else 0
  {
    if k == 0 {
      assert s[..k] + s[k + 1..] == s[1..];
    } else {
      CountWithout(s[1..], k - 1, p);
      assert (s[..k] + s[k + 1..])[1..] == s[1..][..k - 1] + s[1..][k..];
    }
  }

  lemma MultisetWithout<T>(s: seq<T>, k: nat)
    requires k < |s|
    ensures multiset(s[..k] + s[k + 1..]) == multiset(s) - multiset{s[k]}
  {
    assert s == s[..k] + [s[k]] + s[k + 1..];
  }

  /** A permutation of a list with the first element taken out of both. */
  lemma TakeFirstOut<T>(s: seq<T>, t: seq<T>) returns (k: nat)
    requires multiset(s) == multiset(t) && s != []
    ensures k < |t| && t[k] == s[0]
    ensures multiset(s[1..]) == multiset(t[..k] + t[k + 1..])
  {
    assert s[0] in multiset(t);
    k :| 0 <= k < |t| && t[k] == s[0];
    MultisetWithout(s, 0);
    MultisetWithout(t, k);
    var rest, rest' := s[1..], t[..k] + t[k + 1..];
    assert s[..0] + rest == rest;
    assert multiset(rest) == multiset(s) - multiset{s[0]};
    assert multiset(rest') == multiset(t) - multiset{s[0]};
  }

  /** Counting does not depend on the order. */
  lemma {:induction false} CountPermuted<T>(s: seq<T>, t: seq<T>, p: T -> bool)
    requires multiset(s) == multiset(t)
    ensures CountIf(s, p) == CountIf(t, p)
    decreases |s|
  {
    if s == [] {
      assert |multiset(t)| == 0;
    } else {
      var k := TakeFirstOut(s, t);
      CountWithout(t, k, p);
      CountPermuted(s[1..], t[..k] + t[k + 1..], p);
    }
  }
}
