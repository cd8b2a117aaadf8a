/**
 The membership limit: an authority with one member more than it allows is too large, because at the
 last level accounts that are not cached are passed over without being counted.
 */
module MembershipLimits {
  import opened Words
  import opened Authorities
  import opened AuthorityCheck
  import opened CheckSession
  import opened TransactionAuthority
  import opened RequiredSignatures
  import opened SignatureLimits
  import opened AccountLimits

  /** The conditions under which more signatures do no harm, but with `k` for the membership limit. */
  ghost predicate WithinButForMembers(req: Required, g: Getters, limits: Limits, k: Uint32) {
    !Mixed(req) && forall q :: Poses(req, g, q) ==> Covered(EnvFor(req, g, limits.(membership := k), {}), q)
  }

  /** Transactions whose authorities have at most `k` members are never harmed by a further
      signature. */
  ghost predicate HarmlessWithMembers(limits: Limits, k: Uint32) {
    forall req, g, within :: WithinButForMembers(req, g, limits, k) ==> Antitone(req, g, limits, within)
  }

  lemma {:induction false} FewerMembersFit(env: Env, k: Uint32, accounts: seq<(AccountName, Weight)>, left: nat)
    requires 0 < k <= env.maxMembership && AllFit(env.(maxMembership := k), accounts, left)
    ensures AllFit(env, accounts, left)
    decreases left, |accounts|
  {
    if left == 0 || accounts == [] {
    } else {
      FewerMembersFit(env, k, env.getActive(accounts[0].0).accounts, left - 1);
      FewerMembersFit(env, k, accounts[1..], left);
    }
  }

  lemma FewerMembersAreCovered(env: Env, k: Uint32, q: Query)
    requires 0 < k <= env.maxMembership && Covered(env.(maxMembership := k), q)
    ensures Covered(env, q)
  {
    hide Starts, AllFit, Covers;
    FewerMembersFit(env, k, QueryAuthority(env, q).accounts, env.maxRecursion);
  }

  // ----- An account that controls itself, with one member too many -----

  const LOOP: AccountName := "loop"

  /** Keys that nobody has, of no weight. */
  function Padding(lo: PublicKey, hi: PublicKey): seq<(PublicKey, Weight)>
    requires lo <= hi
    decreases hi - lo
  {
    if lo == hi then [] else [(lo, 0)] + Padding(lo + 1, hi)
  }

  /** One member more than `m`: padding, the account itself, and the target. */
  function Loop(m: nat): Authority
    requires m > 0
  {
    Authority(1, [(LOOP, 1), (TARGET, 1)], Padding(3, m + 2))
  }

  function LoopGetter(m: nat): AuthorityGetter
    requires m > 0
  {
    a => if a == LOOP then Loop(m) else if a == TARGET then KEY2 else IMPOSSIBLE
  }

  lemma {:induction false} PaddingIs(lo: PublicKey, hi: PublicKey)
    requires lo <= hi
    ensures |Padding(lo, hi)| == hi - lo && TotalWeight(Padding(lo, hi)) == 0
    decreases hi - lo
  {
    if lo == hi {
    } else {
      PaddingIs(lo + 1, hi);
      assert Padding(lo, hi)[1..] == Padding(lo + 1, hi);
    }
  }

  /** The padding is counted and changes nothing else. */
  lemma {:induction false} PaddingIsCounted(env: Env, lo: PublicKey, hi: PublicKey, membership: nat, st: State)
    requires 3 <= lo <= hi && env.available == {} && forall k :: k in st.provided ==> k < 3
    requires membership + (hi - lo) < env.maxMembership
    ensures ScanKeys(env, 1, Padding(lo, hi), 0, membership, st) == Next(0, membership + (hi - lo), st)
    decreases hi - lo
  {
    if lo == hi {
    } else {
      assert Padding(lo, hi)[1..] == Padding(lo + 1, hi);
      assert !CanSign(env, st.provided, lo);
      PaddingIsCounted(env, lo + 1, hi, membership + 1, st);
    }
  }

  ghost predicate InLoop(env: Env, st: State) {
    && env.maxMembership >= 2 && env.getActive == LoopGetter(env.maxMembership) && env.available == {}
    && (forall k :: k in st.provided ==> k < 3) && LOOP !in st.approvedBy
  }

  /** The loop is followed to the last level, where the target counts only if it is cached. */
  lemma {:induction false} LoopNeedsCache(env: Env, depth: nat, st: State)
    requires depth <= env.maxRecursion && InLoop(env, st) && Headroom(env, st.count, env.maxRecursion - depth)
    ensures var v := Check(env, Loop(env.maxMembership), depth, st);
            v.ok == (TARGET in st.approvedBy) && v.st.provided == st.provided
    decreases env.maxRecursion - depth
  {
    var m: nat := env.maxMembership;
    PaddingIsCounted(env, 3, m + 2, 0, st);
    CheckUnfolds(env, Loop(m), depth, st, Next(0, m - 1, st));
    if depth == env.maxRecursion {
      LastLevel(env, depth, m - 1, st);
    } else {
      HeadroomStarts(env, st.count, env.maxRecursion - depth);
      LoopNeedsCache(env, depth + 1, st.(count := Increment(st.count)));
    }
  }

  lemma LastLevel(env: Env, depth: nat, membership: nat, st: State)
    requires depth == env.maxRecursion && LOOP !in st.approvedBy
    ensures Conclude(1, ScanAccounts(env, 1, [(LOOP, 1), (TARGET, 1)], depth, 0, membership, st)) ==
            Verdict(TARGET in st.approvedBy, st)
  {
    var both: seq<(AccountName, Weight)> := [(LOOP, 1), (TARGET, 1)];
    var target := both[1..];
    assert target == [(TARGET, 1)] && target[1..] == [];
    assert ScanAccounts(env, 1, both, depth, 0, membership, st) == ScanAccounts(env, 1, target, depth, 0, membership, st);
  }

  lemma LoopHurts(limits: Limits)
    requires limits.recursion >= 1 && limits.membership >= 2
    requires limits.accountAuths == 0 || limits.accountAuths >= limits.recursion
    ensures ExtraKeyHurts(Both(TARGET, HeldBy(LOOP)), Everywhere(LoopGetter(limits.membership)), limits, MissingOther)
  {
    hide ExtraKeyHurts;
    var getter := LoopGetter(limits.membership);
    var env := EnvFor(Both(TARGET, HeldBy(LOOP)), Everywhere(getter), limits, {});
    assert LOOP[0] == 'l' && TARGET[0] == 't' && |TEMP| != |TARGET|;
    HeldLoopNeedsCache(env, Cached(TARGET));
    HeldLoopNeedsCache(env, UNCACHED);
    BothHurt(getter, limits, TARGET, HeldBy(LOOP));
  }

  lemma HeldLoopNeedsCache(env: Env, st: State)
    requires InLoop(env, st) && env.maxRecursion >= 1 && st.count == 0 && Headroom(env, 0, env.maxRecursion)
    ensures var v := Check(env, HeldBy(LOOP), 0, st);
            v.ok == (TARGET in st.approvedBy) && v.st.provided == st.provided
  {
    HeadroomStarts(env, 0, env.maxRecursion);
    CheckOneAccount(env, LOOP, 0, st);
    LoopNeedsCache(env, 1, st.(count := 1));
  }

  // ----- The bound is exact -----

  /** Two checks are started on every level. */
  lemma {:induction false} LoopStarts(env: Env, m: nat, left: nat)
    requires m >= 2 && env.getActive == LoopGetter(m) && m < env.maxMembership
    ensures AllFit(env, Loop(m).accounts, left) && Starts(env.getActive, Loop(m).accounts, left) == 2 * left
    decreases left
  {
    if left == 0 {
    } else {
      LoopStarts(env, m, left - 1);
      var target: seq<(AccountName, Weight)> := [(TARGET, 1)];
      assert Loop(m).accounts == [(LOOP, 1)] + target && target == target + [];
      TreeUnfolds(env, LOOP, 1, target, left);
      TreeUnfolds(env, TARGET, 1, [], left);
      NothingBelow(env, left);
      NothingBelow(env, left - 1);
      LoopFits(env, m);
      SmallOnesFit(env, TARGET);
    }
  }

  lemma LoopFits(env: Env, m: nat)
    requires m >= 2 && m < env.maxMembership
    ensures Fits(env, Loop(m))
  {
    hide Padding;
    PaddingIs(3, m + 2);
    TwoWeights((LOOP, 1), (TARGET, 1));
  }

  lemma TwoWeights(first: (AccountName, Weight), second: (AccountName, Weight))
    ensures TotalWeight([first, second]) == first.1 + second.1
  {
    var both := [first, second];
    var rest := both[1..];
    assert rest == [second] && rest[1..] == [];
    assert TotalWeight(rest) == second.1;
  }

  lemma LoopReferences(m: nat)
    requires m > 0
    ensures var u := {LOOP, TARGET};
            |u| == 2 && References(LoopGetter(m), u) && Mentions(HeldBy(LOOP), u) && Mentions(KeyOrAccount(TARGET), u)
  {
    assert LOOP[0] == 'l' && TARGET[0] == 't';
    var u := {LOOP, TARGET};
    assert u == {LOOP} + {TARGET};
    assert Mentions(Loop(m), u) && Mentions(KEY2, u);
  }

  lemma LoopQueries(env: Env, m: nat)
    requires m >= 2 && env.getActive == LoopGetter(m) && m < env.maxMembership && env.maxRecursion >= 2
    requires env.maxAccountAuths == 0 || env.maxAccountAuths >= 2 * env.maxRecursion - 1
    ensures Covered(env, ByAuthority(KeyOrAccount(TARGET))) && Covered(env, ByAuthority(HeldBy(LOOP)))
  {
    hide Fits, AllFit, Starts, TreeWithin, References, Mentions, Loop, LoopGetter;
    var left: nat := env.maxRecursion;
    LoopReferences(m);
    LoopStarts(env, m, left - 1);
    LoopFits(env, m);
    SmallOnesFit(env, TARGET);
    SmallOnesFit(env, LOOP);
    NothingBelow(env, left);
    NothingBelow(env, left - 1);
    LoopIs(m);
    TreeUnfolds(env, LOOP, 1, [], left);
    TreeUnfolds(env, TARGET, 1, [], left);
    assert HeldBy(LOOP).accounts == [(LOOP, 1)] + [] && KeyOrAccount(TARGET).accounts == [(TARGET, 1)] + [];
  }

  lemma LoopIs(m: nat)
    requires m > 0
    ensures LoopGetter(m)(LOOP) == Loop(m) && LoopGetter(m)(TARGET) == KEY2
  {
    assert LOOP[0] == 'l' && TARGET[0] == 't';
  }

  /** One member more than the membership limit is too many: there is a transaction with authorities
      no larger than that, and with no other limit in its way, that a further signature makes
      rejected. */
  lemma MembershipBoundIsTight(limits: Limits, k: Uint32)
    requires limits.recursion >= 2 && 2 <= limits.membership < k
    requires limits.accountAuths == 0 || limits.accountAuths >= 2 * limits.recursion - 1
    ensures var req, g := Both(TARGET, HeldBy(LOOP)), Everywhere(LoopGetter(limits.membership));
            WithinButForMembers(req, g, limits, k) && ExtraKeyHurts(req, g, limits, MissingOther)
  {
    hide ExtraKeyHurts, Covered;
    var m: nat := limits.membership;
    var req, g := Both(TARGET, HeldBy(LOOP)), Everywhere(LoopGetter(m));
    BothPose(LoopGetter(m), TARGET, HeldBy(LOOP));
    LoopQueries(EnvFor(req, g, limits.(membership := k), {}), m);
    LoopHurts(limits);
  }

  /** A further signature does no harm exactly up to the membership limit. */
  lemma MembershipBoundIsExact(limits: Limits, k: Uint32)
    requires limits.recursion >= 2 && limits.membership >= 2 && k > 0
    requires limits.accountAuths == 0 || limits.accountAuths >= 2 * limits.recursion - 1
    ensures HarmlessWithMembers(limits, k) <==> k <= limits.membership
  {
    hide Covered, Antitone, Verify, Poses;
    if k <= limits.membership {
      forall req, g, within | WithinButForMembers(req, g, limits, k)
        ensures Antitone(req, g, limits, within)
      {
        forall q | Poses(req, g, q)
          ensures Covered(EnvFor(req, g, limits, {}), q)
        {
          FewerMembersAreCovered(EnvFor(req, g, limits, {}), k, q);
        }
        EnoughDepthIsAntitone(req, g, limits, within);
      }
    } else {
      var req, g := Both(TARGET, HeldBy(LOOP)), Everywhere(LoopGetter(limits.membership));
      MembershipBoundIsTight(limits, k);
      assert WithinButForMembers(req, g, limits, k) && !Antitone(req, g, limits, {1, 2});
    }
  }

  /** All four bounds at the limits that signatures are verified with. */
  lemma DefaultBounds(k: nat, members: Uint32)
    requires members > 0
    ensures HarmlessUpTo(DEFAULT_LIMITS, k) <==> k <= 2
    ensures HarmlessNoHigherThan(DEFAULT_LIMITS, k) <==> k <= 2
    ensures HarmlessStarting(DEFAULT_LIMITS, k) <==> k <= 125
    ensures HarmlessWithMembers(DEFAULT_LIMITS, members) <==> members <= 40
  {
    hide HarmlessUpTo, HarmlessNoHigherThan, HarmlessStarting, HarmlessWithMembers;
    DepthBoundIsExact(DEFAULT_LIMITS, k);
    HeightBoundIsExact(DEFAULT_LIMITS, k);
    DefaultAccountBounds(k);
    MembershipBoundIsExact(DEFAULT_LIMITS, members);
  }
}
