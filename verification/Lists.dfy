/** Lists without repetition, and the bags they make. */
module Lists {
  ghost predicate Distinct<T>(s: seq<T>) {
    forall i, j :: 0 <= i < j < |s| ==> s[i] != s[j]
  }

  lemma OnceInBag<T>(s: seq<T>, x: T)
    requires Distinct(s) && x in s
    ensures multiset(s)[x] == 1
  {
    var i :| 0 <= i < |s| && s[i] == x;
    assert s == s[..i] + [x] + s[i + 1..];
    assert x !in s[..i] && x !in s[i + 1..];
  }

  lemma TwiceInBag<T>(s: seq<T>, i: nat, j: nat)
    requires i < j < |s| && s[i] == s[j]
    ensures multiset(s)[s[i]] >= 2
  {
    assert s == s[..j] + [s[j]] + s[j + 1..];
    assert s[i] in s[..j];
  }

  /** A list whose bag is inside that of a list without repetition has none. */
  lemma FewerStayDistinct<T>(s: seq<T>, more: seq<T>)
    requires Distinct(more) && multiset(s) <= multiset(more)
    ensures Distinct(s) && forall x :: x in s ==> x in more
  {
    forall x | x in s
      ensures multiset(s)[x] == 1 && x in more
    {
      assert x in multiset(s) && x in multiset(more);
      OnceInBag(more, x);
    }
    forall i, j | 0 <= i < j < |s|
      ensures s[i] != s[j]
    {
      if s[i] == s[j] {
        TwiceInBag(s, i, j);
      }
    }
  }
}
