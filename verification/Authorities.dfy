/**
 Weighted-threshold authorities and what it means, independently of any evaluation order,
 for an account to have approved a transaction: the least set of accounts that contains the
 seeds and every account whose active authority is satisfied by the signing keys and by the
 accounts already in the set. The account graph may be cyclic.
 */
module Authorities {
  import opened Words

  type Weight = w: nat | w < 0x1_0000
  type PublicKey = nat
  type AccountName = string

  /** The two maps are listed in iteration order. */
  datatype Authority = Authority(threshold: Uint32,
                                 accounts: seq<(AccountName, Weight)>,
                                 keys: seq<(PublicKey, Weight)>)

  type AuthorityGetter = AccountName -> Authority

  /** Who can sign and who is approved from the start. */
  datatype Ledger = Ledger(getActive: AuthorityGetter,
                           signers: set<PublicKey>,
                           seeds: set<AccountName>)

  ghost function KeyWeight(keys: seq<(PublicKey, Weight)>, signers: set<PublicKey>): nat {
    if keys == [] then 0
    else (if keys[0].0 in signers then keys[0].1 else 0) + KeyWeight(keys[1..], signers)
  }

  ghost function AccountWeight(accounts: seq<(AccountName, Weight)>, approved: iset<AccountName>): nat {
    if accounts == [] then 0
    else (if accounts[0].0 in approved then accounts[0].1 else 0) + AccountWeight(accounts[1..], approved)
  }

  ghost predicate Satisfied(auth: Authority, signers: set<PublicKey>, approved: iset<AccountName>) {
    KeyWeight(auth.keys, signers) + AccountWeight(auth.accounts, approved) >= auth.threshold
  }

  /** The accounts approved by a derivation of height at most `d`. */
  ghost function Level(m: Ledger, d: nat): iset<AccountName> {
    if d == 0 then iset a | a in m.seeds
    else iset a: AccountName | a in m.seeds || Satisfied(m.getActive(a), m.signers, Level(m, d - 1))
  }

  ghost predicate Derivable(m: Ledger, a: AccountName) {
    exists d: nat :: a in Level(m, d)
  }

  ghost function Approved(m: Ledger): iset<AccountName> {
    iset a: AccountName | Derivable(m, a)
  }

  /** A set of accounts that contains the seeds and is closed under satisfaction. */
  ghost predicate Closed(m: Ledger, x: iset<AccountName>) {
    && (forall a :: a in m.seeds ==> a in x)
    && (forall a: AccountName :: Satisfied(m.getActive(a), m.signers, x) ==> a in x)
  }

  lemma {:induction false} KeyWeightMonotone(keys: seq<(PublicKey, Weight)>, s: set<PublicKey>, t: set<PublicKey>)
    requires s <= t
    ensures KeyWeight(keys, s) <= KeyWeight(keys, t)
  {
    if keys == [] {
    } else {
      KeyWeightMonotone(keys[1..], s, t);
    }
  }

  lemma {:induction false} AccountWeightMonotone(accounts: seq<(AccountName, Weight)>, x: iset<AccountName>, y: iset<AccountName>)
    requires forall i :: 0 <= i < |accounts| && accounts[i].0 in x ==> accounts[i].0 in y
    ensures AccountWeight(accounts, x) <= AccountWeight(accounts, y)
  {
    if accounts == [] {
    } else {
      assert forall i :: 0 <= i < |accounts[1..]| ==> accounts[1..][i] == accounts[i + 1];
      AccountWeightMonotone(accounts[1..], x, y);
    }
  }

  lemma {:induction false} LevelsGrow(m: Ledger, d: nat, e: nat)
    requires d <= e
    ensures Level(m, d) <= Level(m, e)
  {
    if d == 0 {
    } else {
      LevelsGrow(m, d - 1, e - 1);
      forall a | a in Level(m, d) ensures a in Level(m, e) {
        AccountWeightMonotone(m.getActive(a).accounts, Level(m, d - 1), Level(m, e - 1));
      }
    }
  }

  /** Finitely many accounts are listed, so one height serves them all. */
  lemma {:induction false} SupportHeight(m: Ledger, accounts: seq<(AccountName, Weight)>) returns (d: nat)
    ensures forall i :: 0 <= i < |accounts| && accounts[i].0 in Approved(m) ==> accounts[i].0 in Level(m, d)
  {
    if accounts == [] {
      d := 0;
    } else {
      d := SupportHeight(m, accounts[1..]);
      if Derivable(m, accounts[0].0) {
        var e: nat :| accounts[0].0 in Level(m, e);
        var top := if d < e then e else d;
        LevelsGrow(m, d, top);
        LevelsGrow(m, e, top);
        d := top;
      }
      forall i | 0 <= i < |accounts| && accounts[i].0 in Approved(m) ensures accounts[i].0 in Level(m, d) {
        if i > 0 {
          assert accounts[i] == accounts[1..][i - 1];
        }
      }
    }
  }

  /** `Approved` is the least set closed under satisfaction. */
  lemma ApprovedIsLeastClosed(m: Ledger)
    ensures Closed(m, Approved(m))
    ensures forall x :: Closed(m, x) ==> Approved(m) <= x
  {
    forall a | a in m.seeds ensures a in Approved(m) {
      assert a in Level(m, 0);
    }
    forall a: AccountName | Satisfied(m.getActive(a), m.signers, Approved(m)) ensures a in Approved(m) {
      var d := SupportHeight(m, m.getActive(a).accounts);
      AccountWeightMonotone(m.getActive(a).accounts, Approved(m), Level(m, d));
      assert a in Level(m, d + 1);
    }
    forall x | Closed(m, x) ensures Approved(m) <= x {
      forall a | a in Approved(m) ensures a in x {
        var d: nat :| a in Level(m, d);
        LevelInClosed(m, x, d);
      }
    }
  }

  lemma {:induction false} LevelInClosed(m: Ledger, x: iset<AccountName>, d: nat)
    requires Closed(m, x)
    ensures Level(m, d) <= x
  {
    if d == 0 {
    } else {
      LevelInClosed(m, x, d - 1);
      forall a | a in Level(m, d) ensures a in x {
        AccountWeightMonotone(m.getActive(a).accounts, Level(m, d - 1), x);
      }
    }
  }

  /** An account is approved exactly when it is a seed or its authority is satisfied. */
  lemma ApprovedUnfolds(m: Ledger, a: AccountName)
    ensures a in Approved(m) <==> a in m.seeds || Satisfied(m.getActive(a), m.signers, Approved(m))
  {
    ApprovedIsLeastClosed(m);
    if a in Approved(m) && a !in m.seeds {
      var d: nat :| a in Level(m, d);
      assert forall b :: b in Level(m, d - 1) ==> Derivable(m, b);
      AccountWeightMonotone(m.getActive(a).accounts, Level(m, d - 1), Approved(m));
    }
  }

  /** More signing keys never take an approval away. */
  lemma ApprovedMonotone(m: Ledger, n: Ledger)
    requires m.getActive == n.getActive && m.signers <= n.signers && m.seeds <= n.seeds
    ensures Approved(m) <= Approved(n)
  {
    ApprovedIsLeastClosed(m);
    ApprovedIsLeastClosed(n);
    forall a: AccountName | Satisfied(m.getActive(a), m.signers, Approved(n)) ensures a in Approved(n) {
      KeyWeightMonotone(m.getActive(a).keys, m.signers, n.signers);
    }
    assert Closed(m, Approved(n));
  }

  /** `u` lists every account that an authority reachable from `u` refers to. */
  ghost predicate References(getActive: AuthorityGetter, u: set<AccountName>) {
    forall a :: a in u ==> Mentions(getActive(a), u)
  }

  ghost predicate Mentions(auth: Authority, u: set<AccountName>) {
    forall i :: 0 <= i < |auth.accounts| ==> auth.accounts[i].0 in u
  }

  ghost function LevelWithin(m: Ledger, u: set<AccountName>, d: nat): set<AccountName> {
    set a | a in u && a in Level(m, d)
  }

  lemma StableStep(m: Ledger, u: set<AccountName>, d: nat)
    requires References(m.getActive, u)
    requires LevelWithin(m, u, d) == LevelWithin(m, u, d + 1)
    ensures LevelWithin(m, u, d + 1) == LevelWithin(m, u, d + 2)
  {
    LevelsGrow(m, d + 1, d + 2);
    forall a | a in u && a in Level(m, d + 2) ensures a in Level(m, d + 1) {
      if a !in m.seeds {
        var accounts := m.getActive(a).accounts;
        assert Mentions(m.getActive(a), u);
        forall i | 0 <= i < |accounts| && accounts[i].0 in Level(m, d + 1) ensures accounts[i].0 in Level(m, d) {
          assert accounts[i].0 in LevelWithin(m, u, d + 1);
        }
        AccountWeightMonotone(accounts, Level(m, d + 1), Level(m, d));
      }
    }
  }

  lemma {:induction false} StableForever(m: Ledger, u: set<AccountName>, d: nat, e: nat)
    requires References(m.getActive, u) && d <= e
    requires LevelWithin(m, u, d) == LevelWithin(m, u, d + 1)
    ensures LevelWithin(m, u, d) == LevelWithin(m, u, e)
    decreases e - d
  {
    if d < e {
      StableStep(m, u, d);
      StableForever(m, u, d + 1, e);
    }
  }

  /** Either the levels have stopped growing by height `d`, or each one added an account. */
  lemma {:induction false} GrowOrStable(m: Ledger, u: set<AccountName>, d: nat)
    requires References(m.getActive, u)
    ensures LevelWithin(m, u, d) == LevelWithin(m, u, d + 1) || |LevelWithin(m, u, d + 1)| > d
  {
    LevelsGrow(m, d, d + 1);
    if LevelWithin(m, u, d) != LevelWithin(m, u, d + 1) {
      assert LevelWithin(m, u, d) < LevelWithin(m, u, d + 1);
      SubsetCardinality(LevelWithin(m, u, d), LevelWithin(m, u, d + 1));
      if d > 0 {
        GrowOrStable(m, u, d - 1);
        if LevelWithin(m, u, d - 1) == LevelWithin(m, u, d) {
          StableStep(m, u, d - 1);
        }
      }
    }
  }

  lemma {:induction false} SubsetCardinality<T>(a: set<T>, b: set<T>)
    requires a <= b
    ensures |a| <= |b| && (a != b ==> |a| < |b|)
  {
    assert b == a + (b - a);
    assert |b| == |a| + |b - a|;
    if a != b {
      var x :| x in b - a;
      assert |b - a| > 0;
    }
  }

  /** Derivations never need to be higher than the number of accounts in play. */
  lemma HeightBound(m: Ledger, u: set<AccountName>, d: nat)
    requires References(m.getActive, u) && |u| <= d
    ensures forall a :: a in u && a in Approved(m) ==> a in Level(m, d)
  {
    GrowOrStable(m, u, d);
    SubsetCardinality(LevelWithin(m, u, d + 1), u);
    forall a | a in u && a in Approved(m) ensures a in Level(m, d) {
      var e: nat :| a in Level(m, e);
      if e <= d {
        LevelsGrow(m, e, d);
      } else {
        StableForever(m, u, d, e);
        assert a in LevelWithin(m, u, e);
      }
    }
  }

  /** The tree of accounts below a list is no higher than `d`. */
  ghost predicate TreeWithin(getActive: AuthorityGetter, accounts: seq<(AccountName, Weight)>, d: nat)
    decreases d, |accounts|
  {
    accounts == [] ||
    (d > 0 && TreeWithin(getActive, getActive(accounts[0].0).accounts, d - 1) && TreeWithin(getActive, accounts[1..], d))
  }

  /** Height `d` covers an authority: the accounts in play are no more than that, or the tree they
      form is no higher. */
  ghost predicate Covers(getActive: AuthorityGetter, auth: Authority, d: nat) {
    || TreeWithin(getActive, auth.accounts, d)
    || exists u :: References(getActive, u) && Mentions(auth, u) && |u| <= d
  }

  lemma {:induction false} TreeBound(m: Ledger, accounts: seq<(AccountName, Weight)>, d: nat)
    requires TreeWithin(m.getActive, accounts, d)
    ensures forall i :: 0 <= i < |accounts| && accounts[i].0 in Approved(m) ==> accounts[i].0 in Level(m, d)
    decreases d, |accounts|
  {
    if accounts == [] {
    } else {
      var a, rest := accounts[0].0, accounts[1..];
      TreeBound(m, m.getActive(a).accounts, d - 1);
      TreeBound(m, rest, d);
      ApprovedUnfolds(m, a);
      AccountWeightMonotone(m.getActive(a).accounts, Approved(m), Level(m, d - 1));
      assert forall i :: 0 < i < |accounts| ==> accounts[i] == rest[i - 1];
    }
  }

  /** Derivations below an authority never need to be higher than a height that covers it. */
  lemma CoveredHeight(m: Ledger, auth: Authority, d: nat)
    requires Covers(m.getActive, auth, d)
    ensures forall i :: 0 <= i < |auth.accounts| && auth.accounts[i].0 in Approved(m) ==> auth.accounts[i].0 in Level(m, d)
  {
    if TreeWithin(m.getActive, auth.accounts, d) {
      TreeBound(m, auth.accounts, d);
    } else {
      var u :| References(m.getActive, u) && Mentions(auth, u) && |u| <= d;
      HeightBound(m, u, d);
    }
  }
}
