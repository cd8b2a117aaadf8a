/**
 What the limits of a check cost: as soon as the depth is one short, a further signature can make an
 authority missing.
 */
module SignatureLimits {
  import opened Authorities
  import opened AuthorityCheck
  import opened CheckSession
  import opened TransactionAuthority
  import opened RequiredSignatures
  import opened AccountNames
  import opened Words

  // ----- Two demands, the first of which may or may not cache an account -----

  const IMPOSSIBLE := Authority(1, [], [])

  const KEY2 := Authority(1, [], [(2, 1)])

  /** The account that only key 2 can sign for. */
  const TARGET: AccountName := "target"

  function HeldBy(a: AccountName): Authority {
    Authority(1, [(a, 1)], [])
  }

  /** Key 1 satisfies this at once; otherwise account `a` has to be checked. */
  function KeyOrAccount(a: AccountName): Authority {
    Authority(1, [(a, 1)], [(1, 1)])
  }

  function Everywhere(getter: AuthorityGetter): Getters {
    Getters(getter, getter, getter)
  }

  /** The limits under which a single check one level down is possible. */
  predicate AllowsOneCheck(limits: Limits) {
    limits.recursion >= 1 && limits.membership != 1
  }

  lemma JudgeTwo(env: Env, first: Authority, second: Demand, st: State)
    ensures var r1 := Pose(env, ByAuthority(first), st);
            var r2 := AnyOf(env, second.alternatives, r1.st);
            Judge(env, [OtherDemand(first), second], st) ==
            if !r1.ok then Failed(MissingOther) else if r2.ok then Passed(r2.st) else Failed(second.failure)
  {
    var r1 := Pose(env, ByAuthority(first), st);
    var ds := [OtherDemand(first), second];
    var left := ds[0].alternatives;
    assert ds[1..] == [second] && ds[1..][1..] == [] && left[1..] == [];
    assert AnyOf(env, left, st).ok == r1.ok && (r1.ok ==> AnyOf(env, left, st) == r1);
    var r2 := AnyOf(env, second.alternatives, r1.st);
    assert Judge(env, ds[1..], r1.st) == if r2.ok then Passed(r2.st) else Failed(second.failure);
  }

  lemma CheckUnfolds(env: Env, auth: Authority, depth: nat, st: State, scan: Scan)
    requires depth <= env.maxRecursion && scan == ScanKeys(env, auth.threshold, auth.keys, 0, 0, st)
    ensures Check(env, auth, depth, st) ==
            if scan.Return? then Verdict(scan.verdict, scan.st)
            else Conclude(auth.threshold, ScanAccounts(env, auth.threshold, auth.accounts, depth, scan.total, scan.membership, scan.st))
  {
  }

  /** The state after the first demand when only key 2 has signed: the account is cached. */
  function Cached(a: AccountName): State {
    State(map[2 := true], {TEMP, a}, 0)
  }

  lemma KeyTwoCaches(env: Env, a: AccountName)
    requires env.maxRecursion >= 1 && env.maxMembership != 1 && env.available == {}
    requires env.getActive(a) == KEY2 && a != TEMP
    ensures Pose(env, ByAuthority(KeyOrAccount(a)), Start({2}, {})) == Verdict(true, Cached(a))
  {
    var first, st := KeyOrAccount(a), Start({2}, {});
    var none := first.keys[1..];
    assert none == [];
    assert st.provided == map[2 := false] && st.approvedBy == {TEMP};
    assert ScanKeys(env, 1, first.keys, 0, 0, st) == ScanKeys(env, 1, none, 0, 1, st) == Next(0, 1, st);
    var marked := State(map[2 := true], {TEMP}, 1);
    assert ScanKeys(env, 1, KEY2.keys, 0, 0, st.(count := 1)) == Return(true, marked);
    CheckUnfolds(env, KEY2, 1, st.(count := 1), Return(true, marked));
    var cached := Cached(a).(count := 1);
    assert CheckMember(env, a, 0, st) == Verdict(true, cached);
    assert ScanAccounts(env, 1, first.accounts, 0, 0, 1, st) == Return(true, cached);
    CheckUnfolds(env, first, 0, st, Next(0, 1, st));
  }

  /** The state after the first demand when key 1 has signed too: nothing is cached. */
  const UNCACHED := State(map[1 := true, 2 := false], {TEMP}, 0)

  lemma KeyOneDoesNot(env: Env, a: AccountName)
    ensures Pose(env, ByAuthority(KeyOrAccount(a)), Start({1, 2}, {})) == Verdict(true, UNCACHED)
  {
    var first, st := KeyOrAccount(a), Start({1, 2}, {});
    assert st.provided == map[1 := false, 2 := false] && st.approvedBy == {TEMP};
    assert ScanKeys(env, 1, first.keys, 0, 0, st) == Return(true, UNCACHED);
    CheckUnfolds(env, first, 0, st, Return(true, UNCACHED));
  }

  ghost predicate ExtraKeyHurts(req: Required, g: Getters, limits: Limits, failure: Failure) {
    && Verify(req, {2}, g, limits) == Accepted
    && Verify(req, {1, 2}, g, limits) == Rejected(failure)
    && !Antitone(req, g, limits, {1, 2})
  }

  /** When the second demand can only be met with the account cached, adding key 1 does harm. */
  lemma CachingDecides(req: Required, g: Getters, limits: Limits, a: AccountName, second: Demand)
    requires AllowsOneCheck(limits) && a != TEMP && second.failure.Missing()
    requires !Mixed(req) && Demands(req, g) == [OtherDemand(KeyOrAccount(a)), second]
    requires EnvFor(req, g, limits, {}).getActive(a) == KEY2
    requires var env := EnvFor(req, g, limits, {});
             var with, without := AnyOf(env, second.alternatives, Cached(a)), AnyOf(env, second.alternatives, UNCACHED);
             with.ok && with.st.provided == Cached(a).provided && !without.ok
    ensures ExtraKeyHurts(req, g, limits, second.failure)
  {
    var env := EnvFor(req, g, limits, {});
    JudgeTwo(env, KeyOrAccount(a), second, Start({2}, {}));
    JudgeTwo(env, KeyOrAccount(a), second, Start({1, 2}, {}));
    KeyTwoCaches(env, a);
    KeyOneDoesNot(env, a);
    assert Used(map[2 := true]) == {2};
    assert {2} <= {1, 2} <= {1, 2};
  }

  /** The case of two explicit authorities. */
  function Both(a: AccountName, second: Authority): Required {
    Required([], [], [], [KeyOrAccount(a), second])
  }

  lemma BothPose(getter: AuthorityGetter, a: AccountName, second: Authority)
    ensures var req, g := Both(a, second), Everywhere(getter);
            && Demands(req, g) == [OtherDemand(KeyOrAccount(a)), OtherDemand(second)]
            && forall q :: Poses(req, g, q) ==> q == ByAuthority(KeyOrAccount(a)) || q == ByAuthority(second)
  {
    var req, g := Both(a, second), Everywhere(getter);
    assert Demands(req, g) == [OtherDemand(KeyOrAccount(a)), OtherDemand(second)];
  }

  lemma BothHurt(getter: AuthorityGetter, limits: Limits, a: AccountName, second: Authority)
    requires AllowsOneCheck(limits) && getter(a) == KEY2 && a != TEMP
    requires var env := EnvFor(Both(a, second), Everywhere(getter), limits, {});
             var with, without := Check(env, second, 0, Cached(a)), Check(env, second, 0, UNCACHED);
             with.ok && with.st.provided == Cached(a).provided && !without.ok
    ensures ExtraKeyHurts(Both(a, second), Everywhere(getter), limits, MissingOther)
  {
    var env := EnvFor(Both(a, second), Everywhere(getter), limits, {});
    BothPose(getter, a, second);
    var only := OtherDemand(second).alternatives;
    assert only[1..] == [];
    assert AnyOf(env, only, Cached(a)) == Pose(env, ByAuthority(second), Cached(a));
    assert !AnyOf(env, only, UNCACHED).ok;
    hide ExtraKeyHurts;
    CachingDecides(Both(a, second), Everywhere(getter), limits, a, OtherDemand(second));
  }

  /** The tree below a list is the tree below its first account and the tree below the rest. */
  lemma TreeUnfolds(env: Env, a: AccountName, w: Weight, rest: seq<(AccountName, Weight)>, left: nat)
    requires left > 0
    ensures var auth, accounts := env.getActive(a), [(a, w)] + rest;
            && Starts(env.getActive, accounts, left) ==
               1 + Starts(env.getActive, auth.accounts, left - 1) + Starts(env.getActive, rest, left)
            && (TreeWithin(env.getActive, accounts, left) <==>
                TreeWithin(env.getActive, auth.accounts, left - 1) && TreeWithin(env.getActive, rest, left))
            && (AllFit(env, accounts, left) <==>
                Fits(env, auth) && AllFit(env, auth.accounts, left - 1) && AllFit(env, rest, left))
  {
    assert ([(a, w)] + rest)[1..] == rest;
  }

  lemma NothingBelow(env: Env, left: nat)
    ensures Starts(env.getActive, [], left) == 0 && AllFit(env, [], left) && TreeWithin(env.getActive, [], left)
  {
  }

  lemma SmallOnesFit(env: Env, a: AccountName)
    requires env.maxMembership != 1
    ensures Fits(env, IMPOSSIBLE) && Fits(env, KEY2) && Fits(env, HeldBy(a)) && Fits(env, KeyOrAccount(a))
  {
    assert HeldBy(a).accounts[1..] == [];
  }

  // ----- One account more than the depth -----

  /** The accounts in play are among `u`. */
  ghost predicate Involves(q: Query, u: set<AccountName>) {
    match q
    case ByName(id) => id in u
    case ByAuthority(auth) => Mentions(auth, u)
  }

  /** The conditions under which more signatures do no harm, but for the number of accounts `u`. */
  ghost predicate WithinButForDepth(req: Required, g: Getters, limits: Limits, u: set<AccountName>) {
    var env := EnvFor(req, g, limits, {});
    && !Mixed(req) && References(env.getActive, u)
    && forall q :: Poses(req, g, q) ==> Involves(q, u) && QueryWithinLimits(env, q)
  }

  /** The same, but for the height of the trees of accounts. */
  ghost predicate WithinButForHeight(req: Required, g: Getters, limits: Limits, height: nat) {
    var env := EnvFor(req, g, limits, {});
    && !Mixed(req)
    && forall q :: Poses(req, g, q) ==> QueryWithinLimits(env, q) && TreeWithin(env.getActive, QueryAuthority(env, q).accounts, height)
  }

  /** The account limit, if there is one, leaves room to get to the last level. */
  predicate DepthCanBind(limits: Limits) {
    limits.accountAuths == 0 || limits.accountAuths >= limits.recursion
  }

  lemma {:induction false} FewStartsAreLow(getActive: AuthorityGetter, accounts: seq<(AccountName, Weight)>, left: nat)
    requires Starts(getActive, accounts, left) < left
    ensures TreeWithin(getActive, accounts, left)
    decreases left, |accounts|
  {
    if accounts == [] {
    } else {
      FewStartsAreLow(getActive, getActive(accounts[0].0).accounts, left - 1);
      FewStartsAreLow(getActive, accounts[1..], left);
    }
  }

  /** A query that starts fewer checks than the depth never gets to the last level. */
  lemma DepthNeverBinds(env: Env, q: Query)
    requires 0 < env.maxAccountAuths < env.maxRecursion && QueryWithinLimits(env, q)
    ensures Covered(env, q)
  {
    FewStartsAreLow(env.getActive, QueryAuthority(env, q).accounts, env.maxRecursion);
  }

  /** A chain of accounts, each controlled by the one before and the first by key 2. */
  function Link(i: nat): AccountName {
    Name('x', 0, i)
  }

  function ChainGetter(a: AccountName): Authority {
    if |a| != 16 then IMPOSSIBLE else if NumberIn(a) == 0 then KEY2 else HeldBy(Link(NumberIn(a) - 1))
  }

  lemma ChainIs(i: nat)
    requires i < B32
    ensures |Link(i)| == 16 && Link(i) != TEMP && NumberIn(Link(i)) == i
    ensures ChainGetter(Link(i)) == if i == 0 then KEY2 else HeldBy(Link(i - 1))
  {
    hide Name, NumberIn, NumberOf;
    NameParts('x', 0, i);
  }

  function Links(n: nat): set<AccountName> {
    if n == 0 then {} else Links(n - 1) + {Link(n - 1)}
  }

  lemma {:induction false} LinksAre(n: nat)
    requires n <= B32
    ensures |Links(n)| == n && forall a :: a in Links(n) ==> |a| == 16 && NumberIn(a) < n && a == Link(NumberIn(a))
  {
    hide Link, NumberIn;
    if n == 0 {
    } else {
      LinksAre(n - 1);
      ChainIs(n - 1);
      assert Link(n - 1) !in Links(n - 1);
    }
  }

  lemma {:induction false} LinkIsIn(i: nat, n: nat)
    requires i < n
    ensures Link(i) in Links(n)
    decreases n
  {
    hide Link;
    if i == n - 1 {
    } else {
      LinkIsIn(i, n - 1);
    }
  }

  /** The verdict on an authority held by a single account. */
  lemma CheckOneAccount(env: Env, a: AccountName, depth: nat, st: State)
    requires depth <= env.maxRecursion && env.maxMembership != 1
    requires a in st.approvedBy || depth == env.maxRecursion || !LimitReached(env.maxAccountAuths, st.count)
    ensures Check(env, HeldBy(a), depth, st) ==
            if a !in st.approvedBy && depth == env.maxRecursion then Verdict(false, st) else CheckMember(env, a, depth, st)
  {
    var auth := HeldBy(a);
    CheckUnfolds(env, auth, depth, st, Next(0, 0, st));
    var none := auth.accounts[1..];
    assert none == [];
    if a !in st.approvedBy && depth == env.maxRecursion {
      assert ScanAccounts(env, 1, none, depth, 0, 0, st) == Next(0, 0, st);
    } else {
      var r := CheckMember(env, a, depth, st);
      assert !r.ok ==> ScanAccounts(env, 1, auth.accounts, depth, 0, 0, st) == ScanAccounts(env, 1, none, depth, 0, 1, r.st);
    }
  }

  lemma HeadroomStarts(env: Env, count: nat, n: nat)
    requires Headroom(env, count, n)
    ensures n > 0 ==> !LimitReached(env.maxAccountAuths, count) && Headroom(env, count + 1, n - 1)
  {
  }

  /** Where the depth ends just above the first account of the chain, everything depends on whether
      that account is cached. */
  lemma {:induction false} ChainNeedsCache(env: Env, i: nat, depth: nat, st: State)
    requires env.getActive == ChainGetter && depth + i == env.maxRecursion < B32 && env.maxMembership != 1
    requires Headroom(env, st.count, i) && forall j :: 1 <= j <= i ==> Link(j) !in st.approvedBy
    ensures var r := Check(env, HeldBy(Link(i)), depth, st);
            r.ok == (Link(0) in st.approvedBy) && r.st.provided == st.provided
    decreases i
  {
    hide Link, ChainGetter, LimitReached;
    HeadroomStarts(env, st.count, i);
    CheckOneAccount(env, Link(i), depth, st);
    if i == 0 {
    } else {
      ChainIs(i);
      ChainNeedsCache(env, i - 1, depth + 1, st.(count := Increment(st.count)));
    }
  }

  lemma {:induction false} ChainWithinLimits(env: Env, i: nat, left: nat)
    requires env.getActive == ChainGetter && env.maxMembership != 1 && i < B32
    ensures AllFit(env, HeldBy(Link(i)).accounts, left)
    ensures left > i ==> TreeWithin(ChainGetter, HeldBy(Link(i)).accounts, left)
    ensures Starts(ChainGetter, HeldBy(Link(i)).accounts, left) == if left <= i then left else i + 1
    decreases i
  {
    hide Link, ChainGetter;
    if left == 0 {
    } else {
      ChainIs(i);
      TreeUnfolds(env, Link(i), 1, [], left);
      assert HeldBy(Link(i)).accounts == [(Link(i), 1)] + [];
      NothingBelow(env, left);
      NothingBelow(env, left - 1);
      if i == 0 {
        SmallOnesFit(env, Link(i));
      } else {
        SmallOnesFit(env, Link(i - 1));
        ChainWithinLimits(env, i - 1, left - 1);
      }
    }
  }

  /** The number of accounts in play may not exceed the depth by one, and neither may the height of
      the tree they form: at every depth there is a transaction over one account more, with no other
      limit in its way, that a further signature makes rejected. */
  lemma DepthBoundIsTight(limits: Limits)
    requires AllowsOneCheck(limits) && DepthCanBind(limits)
    ensures var d: nat := limits.recursion;
            var req, g, u := Both(Link(0), HeldBy(Link(d))), Everywhere(ChainGetter), Links(d + 1);
            && |u| == d + 1 && (forall a :: a in u ==> |a| == 16)
            && WithinButForDepth(req, g, limits, u) && WithinButForHeight(req, g, limits, d + 1)
            && ExtraKeyHurts(req, g, limits, MissingOther)
  {
    hide ExtraKeyHurts, WithinButForDepth, WithinButForHeight, Link, ChainGetter, NumberIn, Links, Both;
    LinksAre(limits.recursion + 1);
    ChainIsWithinButForDepth(limits);
    ChainIsWithinButForHeight(limits, limits.recursion + 1);
    ChainHurts(limits);
  }

  lemma ChainIsWithinButForDepth(limits: Limits)
    requires AllowsOneCheck(limits) && DepthCanBind(limits)
    ensures var d: nat := limits.recursion;
            WithinButForDepth(Both(Link(0), HeldBy(Link(d))), Everywhere(ChainGetter), limits, Links(d + 1))
  {
    var d: nat := limits.recursion;
    hide QueryWithinLimits, References, Link, ChainGetter;
    ChainReferences(d);
    LinkIsIn(0, d + 1);
    LinkIsIn(d, d + 1);
    ChainQueriesFit(EnvFor(Both(Link(0), HeldBy(Link(d))), Everywhere(ChainGetter), limits, {}));
    BothPose(ChainGetter, Link(0), HeldBy(Link(d)));
  }

  lemma ChainIsWithinButForHeight(limits: Limits, h: nat)
    requires AllowsOneCheck(limits) && DepthCanBind(limits) && h > limits.recursion
    ensures WithinButForHeight(Both(Link(0), HeldBy(Link(limits.recursion))), Everywhere(ChainGetter), limits, h)
  {
    var d: nat := limits.recursion;
    hide QueryWithinLimits, TreeWithin, Link, ChainGetter;
    var env := EnvFor(Both(Link(0), HeldBy(Link(d))), Everywhere(ChainGetter), limits, {});
    ChainWithinLimits(env, 0, h);
    ChainWithinLimits(env, d, h);
    assert KeyOrAccount(Link(0)).accounts == HeldBy(Link(0)).accounts;
    ChainQueriesFit(env);
    BothPose(ChainGetter, Link(0), HeldBy(Link(d)));
  }

  lemma ChainQueriesFit(env: Env)
    requires env.getActive == ChainGetter && env.maxRecursion >= 1 && env.maxMembership != 1
    requires env.maxAccountAuths == 0 || env.maxAccountAuths >= env.maxRecursion
    ensures QueryWithinLimits(env, ByAuthority(KeyOrAccount(Link(0))))
    ensures QueryWithinLimits(env, ByAuthority(HeldBy(Link(env.maxRecursion))))
  {
    hide Fits, Link, ChainGetter;
    var d: nat := env.maxRecursion;
    ChainWithinLimits(env, 0, d);
    ChainWithinLimits(env, d, d);
    assert KeyOrAccount(Link(0)).accounts == HeldBy(Link(0)).accounts;
    SmallOnesFit(env, Link(0));
    SmallOnesFit(env, Link(d));
  }

  lemma ChainHurts(limits: Limits)
    requires AllowsOneCheck(limits) && DepthCanBind(limits)
    ensures ExtraKeyHurts(Both(Link(0), HeldBy(Link(limits.recursion))), Everywhere(ChainGetter), limits, MissingOther)
  {
    var d: nat := limits.recursion;
    var env := EnvFor(Both(Link(0), HeldBy(Link(d))), Everywhere(ChainGetter), limits, {});
    ChainIsUncached(d);
    ChainNeedsCache(env, d, 0, Cached(Link(0)));
    ChainNeedsCache(env, d, 0, UNCACHED);
    ChainIs(0);
    hide ExtraKeyHurts;
    BothHurt(ChainGetter, limits, Link(0), HeldBy(Link(d)));
  }

  lemma ChainReferences(d: nat)
    requires d < B32
    ensures References(ChainGetter, Links(d + 1))
  {
    hide Link, Mentions;
    LinksAre(d + 1);
    forall a | a in Links(d + 1)
      ensures Mentions(ChainGetter(a), Links(d + 1))
    {
      ChainMentions(NumberIn(a), d);
    }
  }

  lemma ChainMentions(i: nat, d: nat)
    requires i <= d < B32
    ensures Mentions(ChainGetter(Link(i)), Links(d + 1))
  {
    hide Link;
    ChainIs(i);
    if i > 0 {
      LinkIsIn(i - 1, d + 1);
    }
  }

  lemma ChainIsUncached(d: nat)
    requires d < B32
    ensures forall j :: 1 <= j <= d ==> Link(j) !in {TEMP, Link(0)}
  {
    ChainIs(0);
    forall j: nat | 1 <= j <= d
      ensures Link(j) !in {TEMP, Link(0)}
    {
      ChainIs(j);
    }
  }

  /** Transactions over at most `k` accounts, with no other limit in their way, are never harmed by a
      further signature. */
  ghost predicate HarmlessUpTo(limits: Limits, k: nat) {
    forall req, g, u, within :: WithinButForDepth(req, g, limits, u) && |u| <= k ==> Antitone(req, g, limits, within)
  }

  /** That is so exactly up to the depth, or without bound where the depth cannot bind. */
  lemma DepthBoundIsExact(limits: Limits, k: nat)
    requires AllowsOneCheck(limits)
    ensures HarmlessUpTo(limits, k) <==> k <= limits.recursion || !DepthCanBind(limits)
  {
    hide Link, ChainGetter, Both, WithinButForDepth, Antitone, Covered, Poses, Verify;
    var d: nat := limits.recursion;
    if k <= d || !DepthCanBind(limits) {
      forall req, g, u, within | WithinButForDepth(req, g, limits, u) && |u| <= k
        ensures Antitone(req, g, limits, within)
      {
        InPlayIsCovered(req, g, limits, u);
        EnoughDepthIsAntitone(req, g, limits, within);
      }
    } else {
      var req, g, u := Both(Link(0), HeldBy(Link(d))), Everywhere(ChainGetter), Links(d + 1);
      DepthBoundIsTight(limits);
      assert WithinButForDepth(req, g, limits, u) && |u| <= k && !Antitone(req, g, limits, {1, 2});
    }
  }

  lemma InPlayIsCovered(req: Required, g: Getters, limits: Limits, u: set<AccountName>)
    requires WithinButForDepth(req, g, limits, u) && (|u| <= limits.recursion || !DepthCanBind(limits))
    ensures !Mixed(req) && forall q :: Poses(req, g, q) ==> Covered(EnvFor(req, g, limits, {}), q)
  {
    var env := EnvFor(req, g, limits, {});
    hide QueryWithinLimits, Poses;
    forall q | Poses(req, g, q)
      ensures Covered(env, q)
    {
      if DepthCanBind(limits) {
        assert Involves(q, u);
        assert Mentions(QueryAuthority(env, q), u);
      } else {
        DepthNeverBinds(env, q);
      }
    }
  }

  /** Transactions whose trees of accounts are no higher than `h`, however many accounts they hold and
      with no other limit in their way, are never harmed by a further signature. */
  ghost predicate HarmlessNoHigherThan(limits: Limits, h: nat) {
    forall req, g, within :: WithinButForHeight(req, g, limits, h) ==> Antitone(req, g, limits, within)
  }

  /** That too is so exactly up to the depth, or without bound where the depth cannot bind. */
  lemma HeightBoundIsExact(limits: Limits, h: nat)
    requires AllowsOneCheck(limits)
    ensures HarmlessNoHigherThan(limits, h) <==> h <= limits.recursion || !DepthCanBind(limits)
  {
    hide Link, ChainGetter, Both, WithinButForHeight, Antitone, Covered, Poses, Verify;
    var d: nat := limits.recursion;
    if h <= d || !DepthCanBind(limits) {
      forall req, g, within | WithinButForHeight(req, g, limits, h)
        ensures Antitone(req, g, limits, within)
      {
        LowTreeIsCovered(req, g, limits, h);
        EnoughDepthIsAntitone(req, g, limits, within);
      }
    } else {
      var req, g := Both(Link(0), HeldBy(Link(d))), Everywhere(ChainGetter);
      ChainIsWithinButForHeight(limits, h);
      ChainHurts(limits);
      assert WithinButForHeight(req, g, limits, h) && !Antitone(req, g, limits, {1, 2});
    }
  }

  lemma LowTreeIsCovered(req: Required, g: Getters, limits: Limits, h: nat)
    requires WithinButForHeight(req, g, limits, h) && (h <= limits.recursion || !DepthCanBind(limits))
    ensures !Mixed(req) && forall q :: Poses(req, g, q) ==> Covered(EnvFor(req, g, limits, {}), q)
  {
    var env := EnvFor(req, g, limits, {});
    hide QueryWithinLimits, Poses;
    forall q | Poses(req, g, q)
      ensures Covered(env, q)
    {
      if DepthCanBind(limits) {
        TreeStaysWithin(env.getActive, QueryAuthority(env, q).accounts, h, limits.recursion);
      } else {
        DepthNeverBinds(env, q);
      }
    }
  }

  lemma {:induction false} TreeStaysWithin(getActive: AuthorityGetter, accounts: seq<(AccountName, Weight)>, d: nat, e: nat)
    requires TreeWithin(getActive, accounts, d) && d <= e
    ensures TreeWithin(getActive, accounts, e)
    decreases d, |accounts|
  {
    if accounts == [] {
    } else {
      TreeStaysWithin(getActive, getActive(accounts[0].0).accounts, d - 1, e - 1);
      TreeStaysWithin(getActive, accounts[1..], d, e);
    }
  }

  /** So it is with the default limits. */
  lemma ExtraSignatureCanBeRejected()
    ensures ExtraKeyHurts(Both(Link(0), HeldBy(Link(2))), Everywhere(ChainGetter), DEFAULT_LIMITS, MissingOther)
  {
    DepthBoundIsTight(DEFAULT_LIMITS);
  }
}
