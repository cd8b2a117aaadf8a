/**
 The Merkle root of a block's transactions: the in-place pairwise reduction against the
 level-by-level definition, and what an equal root says about the transactions.
 */
module MerkleRoots {

  /** One level up: neighbours are hashed in pairs, an odd one at the end is carried up. */
  function NextLevel<D>(pair: (D, D) -> D, ids: seq<D>): (up: seq<D>)
    ensures |up| == (|ids| + 1) / 2
  {
    if |ids| < 2 then ids else [pair(ids[0], ids[1])] + NextLevel(pair, ids[2..])
  }

  function Root<D>(pair: (D, D) -> D, ids: seq<D>): D
    requires ids != []
    decreases |ids|
  {
    if |ids| == 1 then ids[0] else Root(pair, NextLevel(pair, ids))
  }

  lemma {:induction false} NextLevelAt<D>(pair: (D, D) -> D, ids: seq<D>, k: nat)
    requires 2 * k < |ids|
    ensures NextLevel(pair, ids)[k] == if 2 * k + 1 < |ids| then pair(ids[2 * k], ids[2 * k + 1]) else ids[2 * k]
    decreases |ids|
  {
    if k == 0 {
    } else {
      NextLevelAt(pair, ids[2..], k - 1);
    }
  }

  /** Reduces the first `n` slots one level in place and returns how many are left. The slot
      written is never ahead of the slots still to be read. */
  method ReduceOnce<D>(pair: (D, D) -> D, ids: array<D>, n: nat) returns (k: nat)
    requires 1 < n <= ids.Length
    modifies ids
    ensures k == (n + 1) / 2 && ids[..k] == NextLevel(pair, old(ids[..n]))
  {
    ghost var level := ids[..n];
    k := ReducePairs(pair, ids, n, level);
    NextLevelLength(n);
    if n % 2 == 1 {
      NextLevelAt(pair, level, k);
      ids[k] := ids[n - 1];
      k := k + 1;
    }
    assert ids[..k] == NextLevel(pair, level);
  }

  lemma NextLevelLength(n: nat)
    ensures n / 2 == if n % 2 == 1 then (n + 1) / 2 - 1 else (n + 1) / 2
    ensures n % 2 == 1 ==> 2 * (n / 2) == n - 1
  {
  }

  method ReducePairs<D>(pair: (D, D) -> D, ids: array<D>, n: nat, ghost level: seq<D>) returns (k: nat)
    requires 1 < n <= ids.Length && level == ids[..n]
    modifies ids
    ensures k == n / 2
    ensures forall j :: 0 <= j < k ==> ids[j] == NextLevel(pair, level)[j]
    ensures n % 2 == 1 ==> ids[n - 1] == level[n - 1]
  {
    k := 0;
    var i, iMax := 0, n - n % 2;
    ghost var up := NextLevel(pair, level);
    while i < iMax
      invariant i == 2 * k && i <= iMax
      invariant forall j :: 0 <= j < k ==> ids[j] == up[j]
      invariant forall j :: i <= j < n ==> ids[j] == level[j]
    {
      NextLevelAt(pair, level, k);
      ids[k] := pair(ids[i], ids[i + 1]);
      i, k := i + 2, k + 1;
    }
  }

  method CalculateMerkleRoot<T, D, C>(transactions: seq<T>, digest: T -> D, pair: (D, D) -> D, seal: D -> C, empty: C)
    returns (root: C)
    ensures root == if transactions == [] then empty else seal(Root(pair, Digests(digest, transactions)))
  {
    if |transactions| == 0 {
      return empty;
    }
    var ids := new D[|transactions|](i requires 0 <= i < |transactions| => digest(transactions[i]));
    var n := ids.Length;
    assert ids[..n] == Digests(digest, transactions);
    while n > 1
      invariant 1 <= n <= ids.Length
      invariant Root(pair, ids[..n]) == Root(pair, Digests(digest, transactions))
    {
      n := ReduceOnce(pair, ids, n);
    }
    return seal(ids[0]);
  }

  function Digests<T, D>(digest: T -> D, transactions: seq<T>): seq<D> {
    seq(|transactions|, i requires 0 <= i < |transactions| => digest(transactions[i]))
  }

  // ----- What an equal root says -----

  ghost predicate InjectivePair<D(!new)>(pair: (D, D) -> D) {
    forall a, b, c, d :: pair(a, b) == pair(c, d) ==> a == c && b == d
  }

  ghost predicate Injective<A(!new), B(!new)>(f: A -> B) {
    forall a, b :: f(a) == f(b) ==> a == b
  }

  lemma {:induction false} NextLevelInjective<D(!new)>(pair: (D, D) -> D, s: seq<D>, t: seq<D>)
    requires InjectivePair(pair) && |s| == |t| && NextLevel(pair, s) == NextLevel(pair, t)
    ensures s == t
    decreases |s|
  {
    if |s| >= 2 {
      var u, v := NextLevel(pair, s), NextLevel(pair, t);
      assert u[0] == v[0] && u[1..] == v[1..];
      assert pair(s[0], s[1]) == pair(t[0], t[1]);
      NextLevelInjective(pair, s[2..], t[2..]);
      assert s == [s[0], s[1]] + s[2..] && t == [t[0], t[1]] + t[2..];
    }
  }

  lemma {:induction false} RootInjective<D(!new)>(pair: (D, D) -> D, s: seq<D>, t: seq<D>)
    requires InjectivePair(pair) && |s| == |t| && s != [] && Root(pair, s) == Root(pair, t)
    ensures s == t
    decreases |s|
  {
    if |s| > 1 {
      RootInjective(pair, NextLevel(pair, s), NextLevel(pair, t));
      NextLevelInjective(pair, s, t);
    }
  }

  /** With hashes that do not collide, blocks with the same number of transactions and the same
      root have the same transactions in the same order. */
  lemma RootDeterminesTransactions<T(!new), D(!new), C(!new)>(digest: T -> D, pair: (D, D) -> D, seal: D -> C, s: seq<T>, t: seq<T>)
    requires Injective(digest) && InjectivePair(pair) && Injective(seal)
    requires |s| == |t| && s != []
    requires seal(Root(pair, Digests(digest, s))) == seal(Root(pair, Digests(digest, t)))
    ensures s == t
  {
    RootInjective(pair, Digests(digest, s), Digests(digest, t));
    forall i | 0 <= i < |s| ensures s[i] == t[i] {
      assert Digests(digest, s)[i] == Digests(digest, t)[i];
    }
  }

  // ----- Different numbers of leaves -----

  /** The tree splits at a power of two. */
  ghost predicate Splits(p: nat, n: nat)
    decreases p
  {
    p < n <= 2 * p && (p == 1 || (p % 2 == 0 && Splits(p / 2, (n + 1) / 2)))
  }

  lemma {:induction false} SplitPoint(n: nat) returns (p: nat)
    requires n >= 2
    ensures Splits(p, n)
  {
    if n == 2 {
      p := 1;
    } else {
      var half := SplitPoint((n + 1) / 2);
      p := 2 * half;
    }
  }

  lemma {:induction false} NextLevelOfSum<D>(pair: (D, D) -> D, s: seq<D>, t: seq<D>)
    requires |s| % 2 == 0
    ensures NextLevel(pair, s + t) == NextLevel(pair, s) + NextLevel(pair, t)
    decreases |s|
  {
    if s == [] {
      assert s + t == t;
    } else {
      assert (s + t)[2..] == s[2..] + t;
      NextLevelOfSum(pair, s[2..], t);
    }
  }

  lemma RootOfNextLevel<D>(pair: (D, D) -> D, s: seq<D>)
    requires s != []
    ensures Root(pair, NextLevel(pair, s)) == Root(pair, s)
  {
  }

  /** The root is the pair of the roots of the two parts. */
  lemma {:induction false} RootSplits<D>(pair: (D, D) -> D, s: seq<D>, t: seq<D>)
    requires s != [] && t != [] && Splits(|s|, |s + t|)
    ensures Root(pair, s + t) == pair(Root(pair, s), Root(pair, t))
    decreases |s|
  {
    if |s| == 1 {
      var both := s + t;
      assert both[2..] == [] && both == [s[0], t[0]];
      assert NextLevel(pair, both) == [pair(s[0], t[0])];
    } else {
      var u, v := NextLevel(pair, s), NextLevel(pair, t);
      NextLevelOfSum(pair, s, t);
      RootOfNextLevel(pair, s);
      RootOfNextLevel(pair, t);
      RootSplits(pair, u, v);
    }
  }

  /** Nothing tells a leaf from an inner hash: for any two numbers of leaves there are lists of those
      lengths with the same root, whatever the hash. */
  lemma {:induction false} RootsOfDifferentLengths<D>(pair: (D, D) -> D, leaf: D, m: nat, n: nat) returns (s: seq<D>, t: seq<D>)
    requires m >= 1 && n >= 1
    ensures |s| == m && |t| == n && Root(pair, s) == Root(pair, t)
    decreases m + n
  {
    if m == 1 {
      t := seq(n, _ => leaf);
      s := [Root(pair, t)];
    } else if n == 1 {
      s := seq(m, _ => leaf);
      t := [Root(pair, s)];
    } else {
      var p := SplitPoint(m);
      var q := SplitPoint(n);
      var s1, t1 := RootsOfDifferentLengths(pair, leaf, p, q);
      var s2, t2 := RootsOfDifferentLengths(pair, leaf, m - p, n - q);
      RootSplits(pair, s1, s2);
      RootSplits(pair, t1, t2);
      s, t := s1 + s2, t1 + t2;
    }
  }

  /** The root tells lists of `m` leaves from lists of `n` leaves. */
  ghost predicate RootDetermines<D(!new)>(pair: (D, D) -> D, m: nat, n: nat) {
    forall s, t :: s != [] && t != [] && |s| == m && |t| == n && Root(pair, s) == Root(pair, t) ==> s == t
  }

  /** With a pair hash that does not collide, the root determines the leaves exactly when their
      number is known. */
  lemma EqualLengthIsExact<D(!new)>(pair: (D, D) -> D, leaf: D, m: nat, n: nat)
    requires InjectivePair(pair) && m >= 1 && n >= 1
    ensures RootDetermines(pair, m, n) <==> m == n
  {
    if m == n {
      forall s: seq<D>, t: seq<D> | s != [] && t != [] && |s| == m && |t| == n && Root(pair, s) == Root(pair, t)
        ensures s == t
      {
        RootInjective(pair, s, t);
      }
    } else {
      var s, t := RootsOfDifferentLengths(pair, leaf, m, n);
      assert s != t;
    }
  }
}
