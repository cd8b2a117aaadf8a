/**
 The account limit: one check more than it allows is too many, unless the depth and the membership
 limit keep every query below it anyway.
 */
module AccountLimits {
  import opened Words
  import opened Bits
  import opened Authorities
  import opened AuthorityCheck
  import opened CheckSession
  import opened TransactionAuthority
  import opened RequiredSignatures
  import opened AccountNames
  import opened SignatureLimits

  /** How many checks a query can start, with the one it starts with. */
  ghost function QueryStarts(env: Env, q: Query): nat {
    (if q.ByName? then 1 else 0) + Starts(env.getActive, QueryAuthority(env, q).accounts, env.maxRecursion)
  }

  ghost predicate QueryFits(env: Env, q: Query) {
    Fits(env, QueryAuthority(env, q)) && AllFit(env, QueryAuthority(env, q).accounts, env.maxRecursion)
  }

  /** The query is covered, but with `k` for the account limit. */
  ghost predicate CoveredStarting(env: Env, q: Query, k: nat) {
    && Covers(env.getActive, QueryAuthority(env, q), env.maxRecursion)
    && QueryFits(env, q) && QueryStarts(env, q) <= k
  }

  ghost predicate WithinButForAccounts(req: Required, g: Getters, limits: Limits, k: nat) {
    !Mixed(req) && forall q :: Poses(req, g, q) ==> CoveredStarting(EnvFor(req, g, limits, {}), q, k)
  }

  /** Transactions whose queries can start at most `k` checks are never harmed by a further
      signature. */
  ghost predicate HarmlessStarting(limits: Limits, k: nat) {
    forall req, g, within :: WithinButForAccounts(req, g, limits, k) ==> Antitone(req, g, limits, within)
  }

  // ----- How many checks the depth and the membership limit allow -----

  /** The number of nodes of a tree of height `h` in which every inner node has `m` children. */
  function Size(m: nat, h: nat): (n: nat)
    ensures n > 0
  {
    if h == 0 then 1 else 1 + m * Size(m, h - 1)
  }

  /** Some query can start more checks than the account limit allows. */
  predicate LimitCanBind(limits: Limits) {
    limits.membership == 0 || limits.accountAuths < Size(limits.membership, limits.recursion)
  }

  lemma {:induction false} StartsBounded(env: Env, accounts: seq<(AccountName, Weight)>, left: nat)
    requires env.maxMembership > 0 && left > 0 && AllFit(env, accounts, left)
    ensures Starts(env.getActive, accounts, left) <= |accounts| * Size(env.maxMembership, left - 1)
    decreases left, |accounts|
  {
    var m: nat := env.maxMembership;
    if accounts == [] {
    } else {
      var below := env.getActive(accounts[0].0).accounts;
      hide AllFit;
      assert AllFit(env, below, left - 1) && AllFit(env, accounts[1..], left) && |below| <= m by {
        FirstFits(env, accounts, left);
      }
      StartsBounded(env, accounts[1..], left);
      if left > 1 {
        StartsBounded(env, below, left - 1);
        TimesMonotone(|below|, m, Size(m, left - 2));
      }
      assert 1 + Starts(env.getActive, below, left - 1) <= Size(m, left - 1);
      OneMoreTime(|accounts| - 1, Size(m, left - 1));
    }
  }

  lemma FirstFits(env: Env, accounts: seq<(AccountName, Weight)>, left: nat)
    requires accounts != [] && left > 0 && AllFit(env, accounts, left)
    ensures var auth := env.getActive(accounts[0].0);
            && AllFit(env, auth.accounts, left - 1) && AllFit(env, accounts[1..], left)
            && (env.maxMembership > 0 ==> |auth.accounts| <= env.maxMembership)
  {
  }

  lemma TimesMonotone(a: nat, b: nat, d: nat)
    requires a <= b
    ensures a * d <= b * d
  {
    Distribute(b, a, d);
  }

  lemma OneMoreTime(a: nat, d: nat)
    ensures (a + 1) * d == a * d + d
  {
  }

  /** Where the depth and the membership limit keep every query below the account limit, it never
      binds. */
  lemma LimitNeverBinds(env: Env, q: Query)
    requires env.maxMembership > 0 && QueryFits(env, q)
    ensures QueryStarts(env, q) <= Size(env.maxMembership, env.maxRecursion)
  {
    var accounts := QueryAuthority(env, q).accounts;
    if env.maxRecursion > 0 {
      StartsBounded(env, accounts, env.maxRecursion);
      TimesMonotone(|accounts|, env.maxMembership, Size(env.maxMembership, env.maxRecursion - 1));
    }
  }

  // ----- Accounts that nobody can sign for -----

  /** Checking an account of this list costs what the tree below it starts, and fails. */
  ghost predicate Barren(getActive: AuthorityGetter, accounts: seq<(AccountName, Weight)>, d: nat)
    decreases d, |accounts|
  {
    accounts == [] ||
    (&& d > 0 && accounts[0].0 !in {TEMP, TARGET}
     && getActive(accounts[0].0).keys == [] && getActive(accounts[0].0).threshold > 0
     && Barren(getActive, getActive(accounts[0].0).accounts, d - 1) && Barren(getActive, accounts[1..], d))
  }

  /** What a scan of a barren list needs to run to its end. */
  ghost predicate Scannable(env: Env, accounts: seq<(AccountName, Weight)>, depth: nat, st: State)
    requires depth <= env.maxRecursion
  {
    var left := env.maxRecursion - depth;
    && st.approvedBy <= {TEMP, TARGET}
    && Barren(env.getActive, accounts, left) && AllFit(env, accounts, left)
    && st.count + Starts(env.getActive, accounts, left) <= env.maxAccountAuths
  }

  ghost function After(env: Env, accounts: seq<(AccountName, Weight)>, depth: nat, st: State): State
    requires depth <= env.maxRecursion && Scannable(env, accounts, depth, st)
  {
    st.(count := st.count + Starts(env.getActive, accounts, env.maxRecursion - depth))
  }

  /** The first account of a barren list fails, and then the rest can be scanned. */
  lemma {:induction false} BarrenFirst(env: Env, accounts: seq<(AccountName, Weight)>, depth: nat, st: State)
    requires depth <= env.maxRecursion && accounts != [] && Scannable(env, accounts, depth, st)
    ensures depth < env.maxRecursion && accounts[0].0 !in st.approvedBy && !LimitReached(env.maxAccountAuths, st.count)
    ensures var r := CheckMember(env, accounts[0].0, depth, st);
            && !r.ok && Scannable(env, accounts[1..], depth, r.st)
            && After(env, accounts[1..], depth, r.st) == After(env, accounts, depth, st)
    decreases env.maxRecursion - depth, |accounts|, 0
  {
    var auth, st1 := env.getActive(accounts[0].0), st.(count := st.count + 1);
    assert Scannable(env, auth.accounts, depth + 1, st1) && Fits(env, auth);
    CheckUnfolds(env, auth, depth + 1, st1, Next(0, 0, st1));
    BarrenList(env, auth.threshold, auth.accounts, depth + 1, 0, st1);
  }

  lemma {:induction false} BarrenList(env: Env, threshold: Uint32, accounts: seq<(AccountName, Weight)>,
                                      depth: nat, membership: nat, st: State)
    requires depth <= env.maxRecursion && threshold > 0 && Scannable(env, accounts, depth, st)
    requires env.maxMembership == 0 || membership + |accounts| <= env.maxMembership
    ensures Conclude(threshold, ScanAccounts(env, threshold, accounts, depth, 0, membership, st)) ==
            Verdict(false, After(env, accounts, depth, st))
    decreases env.maxRecursion - depth, |accounts|, 1
  {
    if accounts == [] {
    } else {
      BarrenFirst(env, accounts, depth, st);
      var r := CheckMember(env, accounts[0].0, depth, st);
      hide Scannable;
      if LimitReached(env.maxMembership, membership + 1) {
        assert accounts[1..] == [];
      } else {
        BarrenList(env, threshold, accounts[1..], depth, membership + 1, r.st);
      }
    }
  }

  /** Scanning on after a barren list. */
  lemma {:induction false} BarrenThen(env: Env, threshold: Uint32, accounts: seq<(AccountName, Weight)>,
                                      more: seq<(AccountName, Weight)>, depth: nat, membership: nat, st: State)
    requires depth <= env.maxRecursion && threshold > 0 && Scannable(env, accounts, depth, st)
    requires env.maxMembership == 0 || membership + |accounts| < env.maxMembership
    ensures ScanAccounts(env, threshold, accounts + more, depth, 0, membership, st) ==
            ScanAccounts(env, threshold, more, depth, 0, membership + |accounts|, After(env, accounts, depth, st))
    decreases |accounts|
  {
    if accounts == [] {
      assert accounts + more == more;
    } else {
      BarrenFirst(env, accounts, depth, st);
      var r := CheckMember(env, accounts[0].0, depth, st);
      assert (accounts + more)[1..] == accounts[1..] + more;
      BarrenThen(env, threshold, accounts[1..], more, depth, membership + 1, r.st);
    }
  }

  // ----- A tree that uses up the account limit before it reaches the target -----

  /** Account `j` of a level: at level zero it has nothing below it, and otherwise a full tree. */
  function Full(h: nat, j: nat): AccountName {
    Name('f', h, j)
  }

  /** The account through which the target is reached, after `r` checks with its own. */
  function Bridge(h: nat, r: nat): AccountName {
    Name('p', h, r)
  }

  /** The lists are in the order of the names, as the maps they stand for are. */
  function Fulls(h: nat, lo: nat, hi: nat): seq<(AccountName, Weight)>
    requires lo <= hi
    decreases hi - lo
  {
    if lo == hi then [] else [(Full(h, lo), 0)] + Fulls(h, lo + 1, hi)
  }

  function Last(m: nat, h: nat, r: nat): (AccountName, Weight) {
    if r % Size(m, h) == 0 then (TARGET, 1) else (Bridge(h, r % Size(m, h)), 1)
  }

  /** A list that starts `r` checks before the target: full trees of height `h`, and then the target
      itself or a bridge to it. */
  function Path(m: nat, h: nat, r: nat): seq<(AccountName, Weight)> {
    Fulls(h, 0, r / Size(m, h)) + [Last(m, h, r)]
  }

  function Group(accounts: seq<(AccountName, Weight)>): Authority {
    Authority(1, accounts, [])
  }

  function Tree(m: nat, a: AccountName): Authority {
    if a == TARGET then KEY2
    else if |a| != 16 || LevelOf(a) == 0 || (a[0] == 'p' && NumberIn(a) == 0) then IMPOSSIBLE
    else if a[0] == 'p' then Group(Path(m, LevelOf(a) - 1, NumberIn(a) - 1))
    else Group(Fulls(LevelOf(a) - 1, 0, m))
  }

  function TreeGetter(m: nat): AuthorityGetter {
    a => Tree(m, a)
  }

  lemma FullIs(m: nat, h: nat, j: nat)
    requires h < 100 && j < B32
    ensures Full(h, j) !in {TEMP, TARGET}
    ensures TreeGetter(m)(Full(h, j)) == Group(if h == 0 then [] else Fulls(h - 1, 0, m))
  {
    NameParts('f', h, j);
  }

  lemma BridgeIs(m: nat, h: nat, r: nat)
    requires 0 < h < 100 && 0 < r < B32
    ensures Bridge(h, r) !in {TEMP, TARGET}
    ensures TreeGetter(m)(Bridge(h, r)) == Group(Path(m, h - 1, r - 1))
  {
    NameParts('p', h, r);
  }

  /** The authorities of the tree fit the membership limit. */
  ghost predicate Allows(env: Env, m: nat) {
    env.getActive == TreeGetter(m) && m < B32 && env.maxMembership != 1 && (env.maxMembership == 0 || m == env.maxMembership)
  }

  lemma GroupFits(env: Env, m: nat, accounts: seq<(AccountName, Weight)>)
    requires Allows(env, m) && |accounts| <= m && TotalWeight(accounts) <= 1
    ensures Fits(env, Group(accounts))
  {
  }

  lemma BarrenUnfolds(getActive: AuthorityGetter, a: AccountName, w: Weight, below: seq<(AccountName, Weight)>,
                      rest: seq<(AccountName, Weight)>, d: nat)
    requires d > 0 && a !in {TEMP, TARGET} && getActive(a) == Group(below)
    requires Barren(getActive, below, d - 1) && Barren(getActive, rest, d)
    ensures Barren(getActive, [(a, w)] + rest, d) && TotalWeight([(a, w)] + rest) == w + TotalWeight(rest)
  {
    assert ([(a, w)] + rest)[1..] == rest;
  }

  lemma {:induction false} FullsAre(env: Env, m: nat, h: nat, lo: nat, hi: nat, left: nat)
    requires Allows(env, m) && h < left && h < 100 && lo <= hi < B32
    ensures var accounts := Fulls(h, lo, hi);
            && |accounts| == hi - lo && TotalWeight(accounts) == 0
            && Barren(env.getActive, accounts, left) && AllFit(env, accounts, left) && TreeWithin(env.getActive, accounts, left)
            && Starts(env.getActive, accounts, left) == (hi - lo) * Size(m, h)
    decreases h, hi - lo
  {
    hide Full, TreeGetter, Fits, Barren, AllFit, TreeWithin, Starts;
    NothingBelow(env, left);
    if lo == hi {
      NothingBarren(env.getActive, left);
    } else {
      var below, rest := if h == 0 then [] else Fulls(h - 1, 0, m), Fulls(h, lo + 1, hi);
      FullsAre(env, m, h, lo + 1, hi, left);
      BelowFull(env, m, h, lo, left);
      BarrenUnfolds(env.getActive, Full(h, lo), 0, below, rest, left);
      TreeUnfolds(env, Full(h, lo), 0, rest, left);
      OneMoreTime(hi - lo - 1, Size(m, h));
    }
  }

  lemma {:induction false} BelowFull(env: Env, m: nat, h: nat, j: nat, left: nat)
    requires Allows(env, m) && h < left && h < 100 && j < B32
    ensures var below := if h == 0 then [] else Fulls(h - 1, 0, m);
            && Full(h, j) !in {TEMP, TARGET} && env.getActive(Full(h, j)) == Group(below) && Fits(env, Group(below))
            && Barren(env.getActive, below, left - 1) && AllFit(env, below, left - 1) && TreeWithin(env.getActive, below, left - 1)
            && 1 + Starts(env.getActive, below, left - 1) == Size(m, h)
    decreases h, 0
  {
    hide Full, TreeGetter, Fits, Barren, AllFit, TreeWithin, Starts;
    FullIs(m, h, j);
    if h == 0 {
      NothingBelow(env, left - 1);
      NothingBarren(env.getActive, left - 1);
      GroupFits(env, m, []);
    } else {
      FullsAre(env, m, h - 1, 0, m, left - 1);
      GroupFits(env, m, Fulls(h - 1, 0, m));
    }
  }

  lemma NothingBarren(getActive: AuthorityGetter, d: nat)
    ensures Barren(getActive, [], d)
  {
  }

  lemma {:induction false} TreesAppend(env: Env, a: seq<(AccountName, Weight)>, b: seq<(AccountName, Weight)>, left: nat)
    requires left > 0
    ensures TotalWeight(a + b) == TotalWeight(a) + TotalWeight(b)
    ensures Starts(env.getActive, a + b, left) == Starts(env.getActive, a, left) + Starts(env.getActive, b, left)
    ensures AllFit(env, a, left) && AllFit(env, b, left) ==> AllFit(env, a + b, left)
    ensures TreeWithin(env.getActive, a, left) && TreeWithin(env.getActive, b, left) ==> TreeWithin(env.getActive, a + b, left)
  {
    if a == [] {
      assert a + b == b;
    } else {
      assert (a + b)[1..] == a[1..] + b;
      TreesAppend(env, a[1..], b, left);
    }
  }

  /** How a number of checks is spread over the trees of a list. */
  lemma Spread(m: nat, h: nat, r: nat) returns (c: nat, rest: nat)
    requires r < m * Size(m, h)
    ensures c == r / Size(m, h) && rest == r % Size(m, h) && r == c * Size(m, h) + rest && c < m
    ensures rest > 0 ==> h > 0 && rest - 1 < m * Size(m, h - 1)
  {
    var s := Size(m, h);
    c, rest := r / s, r % s;
    FundamentalDivMod(r, s);
    if c >= m {
      TimesMonotone(m, c, s);
    }
  }

  lemma {:induction false} PathIs(env: Env, m: nat, h: nat, r: nat, left: nat)
    requires Allows(env, m) && h < left && h < 100 && r < m * Size(m, h) && r < B32
    ensures var accounts := Path(m, h, r);
            && Fits(env, Group(accounts)) && AllFit(env, accounts, left) && TreeWithin(env.getActive, accounts, left)
            && Starts(env.getActive, accounts, left) == r + 1
    decreases h
  {
    hide Last, TreeGetter, Fits, Barren, AllFit, TreeWithin, Starts;
    var c, rest := Spread(m, h, r);
    FullsAre(env, m, h, 0, c, left);
    LastIs(env, m, h, r, left, rest);
    TreesAppend(env, Fulls(h, 0, c), [Last(m, h, r)], left);
    GroupFits(env, m, Path(m, h, r));
  }

  lemma {:induction false} LastIs(env: Env, m: nat, h: nat, r: nat, left: nat, rest: nat)
    requires Allows(env, m) && h < left && h < 100 && rest == r % Size(m, h) < B32
    requires rest > 0 ==> h > 0 && rest - 1 < m * Size(m, h - 1)
    ensures var last := [Last(m, h, r)];
            && TotalWeight(last) == 1 && AllFit(env, last, left) && TreeWithin(env.getActive, last, left)
            && Starts(env.getActive, last, left) == rest + 1
    decreases h, 0
  {
    hide Bridge, TreeGetter, Fits, Barren, AllFit, TreeWithin, Starts, Path;
    NothingBelow(env, left);
    NothingBelow(env, left - 1);
    var last := [Last(m, h, r)];
    assert last[1..] == [] && last == last + [];
    if rest == 0 {
      TreeUnfolds(env, TARGET, 1, [], left);
      TargetIs(m);
      SmallOnesFit(env, TARGET);
    } else {
      BridgeIs(m, h, rest);
      TreeUnfolds(env, Bridge(h, rest), 1, [], left);
      PathIs(env, m, h - 1, rest - 1, left - 1);
    }
  }

  lemma TargetIs(m: nat)
    ensures TreeGetter(m)(TARGET) == KEY2
  {
  }

  /** The checks along the path use up the account limit, and the target is out of reach unless it is
      cached. */
  lemma {:induction false} PathNeedsCache(env: Env, m: nat, h: nat, r: nat, depth: nat, st: State)
    requires Allows(env, m) && depth + h < env.maxRecursion && h < 100 && r < m * Size(m, h)
    requires st.count + r == env.maxAccountAuths > 0 && st.approvedBy <= {TEMP, TARGET}
    ensures var v := Check(env, Group(Path(m, h, r)), depth, st);
            v.ok == (TARGET in st.approvedBy) && v.st.provided == st.provided
    decreases h
  {
    hide Path, Fulls, TreeGetter, Bridge, Check, ScanAccounts, Conclude, Size;
    var c, rest := Spread(m, h, r);
    var last, st1 := Last(m, h, r), st.(count := st.count + c * Size(m, h));
    PathScan(env, m, h, r, depth, st, c);
    LastDecides(env, last, depth, c, st1);
    if rest == 0 {
    } else {
      BridgeIs(m, h, rest);
      PathNeedsCache(env, m, h - 1, rest - 1, depth + 1, st1.(count := st1.count + 1));
    }
  }

  /** Everything turns on the last account of the path. */
  lemma PathScan(env: Env, m: nat, h: nat, r: nat, depth: nat, st: State, c: nat)
    requires Allows(env, m) && depth + h < env.maxRecursion && h < 100 && c == r / Size(m, h) < m
    requires st.count + c * Size(m, h) <= env.maxAccountAuths && st.approvedBy <= {TEMP, TARGET}
    ensures Check(env, Group(Path(m, h, r)), depth, st) ==
            Conclude(1, ScanAccounts(env, 1, [Last(m, h, r)], depth, 0, c, st.(count := st.count + c * Size(m, h))))
  {
    hide Last, Barren, AllFit, Starts, Size, Conclude, ScanAccounts, Fulls, TreeGetter, TreeWithin, Check;
    FullsAre(env, m, h, 0, c, env.maxRecursion - depth);
    CheckUnfolds(env, Group(Path(m, h, r)), depth, st, Next(0, 0, st));
    BarrenThen(env, 1, Fulls(h, 0, c), [Last(m, h, r)], depth, 0, st);
  }

  /** The last account of a list that is worth one, at a threshold of one. */
  lemma LastDecides(env: Env, last: (AccountName, Weight), depth: nat, membership: nat, st: State)
    requires depth < env.maxRecursion && last.1 == 1
    ensures var v := Conclude(1, ScanAccounts(env, 1, [last], depth, 0, membership, st));
            if last.0 !in st.approvedBy && LimitReached(env.maxAccountAuths, st.count) then v == Verdict(false, st)
            else v == CheckMember(env, last.0, depth, st)
  {
    var list := [last];
    assert list[1..] == [];
    if !(last.0 !in st.approvedBy && LimitReached(env.maxAccountAuths, st.count)) {
      var r := CheckMember(env, last.0, depth, st);
      assert !r.ok ==> ScanAccounts(env, 1, list[1..], depth, 0, membership + 1, r.st) == Next(0, membership + 1, r.st);
    }
  }

  // ----- The bound is exact -----

  /** The number of children of a full account, and the height of the full trees. */
  function Width(limits: Limits): nat {
    if limits.membership == 0 then limits.accountAuths else limits.membership
  }

  function Height(limits: Limits): nat
    requires limits.recursion > 0
  {
    if limits.membership == 0 then 0 else if limits.recursion <= 32 then limits.recursion - 1 else 31
  }

  lemma {:induction false} SizeGrows(m: nat, h: nat)
    requires m >= 2
    ensures Size(m, h) >= Pow2(h)
  {
    if h == 0 {
    } else {
      SizeGrows(m, h - 1);
      TimesMonotone(2, m, Size(m, h - 1));
    }
  }

  lemma HighEnough(m: nat)
    requires m >= 2
    ensures m * Size(m, 31) >= B32
  {
    hide Size;
    SizeGrows(m, 31);
    TimesMonotone(2, m, Size(m, 31));
    assert Pow2(7) == 0x80 && Pow2(8) == 0x100;
    Pow2Add(8, 8);
    Pow2Add(8, 7);
    Pow2Add(16, 15);
  }

  lemma PathFits(limits: Limits)
    requires AllowsOneCheck(limits) && limits.accountAuths > 0 && LimitCanBind(limits)
    ensures Height(limits) < limits.recursion && Height(limits) < 99
    ensures limits.accountAuths - 1 < Width(limits) * Size(Width(limits), Height(limits))
  {
    if limits.membership == 0 {
    } else if limits.recursion <= 32 {
      assert Size(limits.membership, limits.recursion) == 1 + limits.membership * Size(limits.membership, limits.recursion - 1);
    } else {
      hide Size;
      HighEnough(limits.membership);
    }
  }

  /** Key 1 or the target, and then the active authority of an account above the path. */
  function Tall(limits: Limits): Required
    requires limits.recursion > 0
  {
    Required([Bridge(Height(limits) + 1, limits.accountAuths)], [], [], [KeyOrAccount(TARGET)])
  }

  function TallGetters(limits: Limits): Getters {
    Getters(TreeGetter(Width(limits)), _ => IMPOSSIBLE, TreeGetter(Width(limits)))
  }

  lemma TallPoses(limits: Limits)
    requires limits.recursion > 0
    ensures var req, g, x := Tall(limits), TallGetters(limits), Bridge(Height(limits) + 1, limits.accountAuths);
            && !Mixed(req) && Demands(req, g) == [OtherDemand(KeyOrAccount(TARGET)), ActiveDemand(g, x)]
            && (forall q :: Poses(req, g, q) ==>
                  q == ByAuthority(KeyOrAccount(TARGET)) || q == ByName(x) || q == ByAuthority(IMPOSSIBLE))
            && EnvFor(req, g, limits, {}).getActive == TreeGetter(Width(limits))
  {
    hide Bridge, TreeGetter;
    var req, g, x := Tall(limits), TallGetters(limits), Bridge(Height(limits) + 1, limits.accountAuths);
    assert Demands(req, g) == [OtherDemand(KeyOrAccount(TARGET)), ActiveDemand(g, x)];
  }

  /** A query of the account above a path that starts one check more than the limit. */
  lemma TallIsWithinButForAccounts(limits: Limits, k: nat)
    requires AllowsOneCheck(limits) && limits.accountAuths > 0 && LimitCanBind(limits) && k > limits.accountAuths
    ensures WithinButForAccounts(Tall(limits), TallGetters(limits), limits, k)
  {
    hide Bridge, TreeGetter, CoveredStarting, Tall, TallGetters;
    var env := EnvFor(Tall(limits), TallGetters(limits), limits, {});
    TallPoses(limits);
    TallQueries(env, limits, k);
  }

  lemma TallQueries(env: Env, limits: Limits, k: nat)
    requires AllowsOneCheck(limits) && limits.accountAuths > 0 && LimitCanBind(limits) && k > limits.accountAuths
    requires env == Env(TreeGetter(Width(limits)), {}, limits.recursion, limits.membership, limits.accountAuths)
    ensures CoveredStarting(env, ByAuthority(KeyOrAccount(TARGET)), k)
    ensures CoveredStarting(env, ByName(Bridge(Height(limits) + 1, limits.accountAuths)), k)
    ensures CoveredStarting(env, ByAuthority(IMPOSSIBLE), k)
  {
    hide Bridge, TreeGetter, Path, Fits, AllFit, TreeWithin, Starts, Size, Width, Height;
    var m, h, n: nat := Width(limits), Height(limits), limits.accountAuths;
    PathFits(limits);
    WidthIsAllowed(env, limits);
    BridgeIs(m, h + 1, n);
    PathIs(env, m, h, n - 1, limits.recursion);
    SmallOnesFit(env, TARGET);
    NothingBelow(env, limits.recursion);
    NothingBelow(env, limits.recursion - 1);
    TreeUnfolds(env, TARGET, 1, [], limits.recursion);
    TargetIs(m);
    assert KeyOrAccount(TARGET).accounts == [(TARGET, 1)] + [];
  }

  lemma WidthIsAllowed(env: Env, limits: Limits)
    requires AllowsOneCheck(limits)
    requires env.getActive == TreeGetter(Width(limits)) && env.maxMembership == limits.membership
    ensures Allows(env, Width(limits))
  {
  }

  lemma TallHurts(limits: Limits)
    requires AllowsOneCheck(limits) && limits.accountAuths > 0 && LimitCanBind(limits)
    ensures ExtraKeyHurts(Tall(limits), TallGetters(limits), limits, MissingActive)
  {
    hide Bridge, TreeGetter, Path, Size, Width, Height, Tall, ExtraKeyHurts;
    var env, x := EnvFor(Tall(limits), TallGetters(limits), limits, {}), Bridge(Height(limits) + 1, limits.accountAuths);
    var second := ActiveDemand(TallGetters(limits), x);
    TallPoses(limits);
    TallNeedsCache(env, limits, Cached(TARGET), second.alternatives);
    TallNeedsCache(env, limits, UNCACHED, second.alternatives);
    TargetIs(Width(limits));
    CachingDecides(Tall(limits), TallGetters(limits), limits, TARGET, second);
  }

  lemma TallNeedsCache(env: Env, limits: Limits, st: State, alternatives: seq<Query>)
    requires AllowsOneCheck(limits) && limits.accountAuths > 0 && LimitCanBind(limits)
    requires env == Env(TreeGetter(Width(limits)), {}, limits.recursion, limits.membership, limits.accountAuths)
    requires st.approvedBy <= {TEMP, TARGET} && st.count == 0
    requires alternatives == [ByName(Bridge(Height(limits) + 1, limits.accountAuths)), ByAuthority(IMPOSSIBLE)]
    ensures var v := AnyOf(env, alternatives, st);
            v.ok == (TARGET in st.approvedBy) && (v.ok ==> v.st.provided == st.provided)
  {
    hide Bridge, TreeGetter, Path, Size, Width, Height, Check;
    var m, h, n: nat := Width(limits), Height(limits), limits.accountAuths;
    PathFits(limits);
    WidthIsAllowed(env, limits);
    BridgeIs(m, h + 1, n);
    PathNeedsCache(env, m, h, n - 1, 0, st.(count := 1));
    var r := Pose(env, alternatives[0], st);
    var rest := alternatives[1..];
    assert rest == [ByAuthority(IMPOSSIBLE)] && rest[1..] == [];
    assert r.ok == (TARGET in st.approvedBy) && r.st.provided == st.provided;
    CheckUnfolds(env, IMPOSSIBLE, 0, r.st, Next(0, 0, r.st));
    assert !Pose(env, rest[0], r.st).ok;
    assert !AnyOf(env, rest, r.st).ok;
  }

  /** One check more than the account limit is too many: where the limit can bind at all, there is a
      transaction that starts no more than that and that a further signature makes rejected. */
  lemma AccountBoundIsTight(limits: Limits)
    requires AllowsOneCheck(limits) && limits.accountAuths > 0 && LimitCanBind(limits)
    ensures WithinButForAccounts(Tall(limits), TallGetters(limits), limits, limits.accountAuths + 1)
    ensures ExtraKeyHurts(Tall(limits), TallGetters(limits), limits, MissingActive)
  {
    hide WithinButForAccounts, ExtraKeyHurts, Tall, TallGetters;
    TallIsWithinButForAccounts(limits, limits.accountAuths + 1);
    TallHurts(limits);
  }

  /** A further signature does no harm exactly up to the account limit, or without bound where the
      limit cannot bind. */
  lemma AccountBoundIsExact(limits: Limits, k: nat)
    requires AllowsOneCheck(limits) && limits.accountAuths > 0
    ensures HarmlessStarting(limits, k) <==> k <= limits.accountAuths || !LimitCanBind(limits)
  {
    hide WithinButForAccounts, Antitone, Tall, TallGetters, LimitCanBind, Covered, Poses, Verify;
    if k <= limits.accountAuths || !LimitCanBind(limits) {
      forall req, g, within | WithinButForAccounts(req, g, limits, k)
        ensures Antitone(req, g, limits, within)
      {
        FewChecksAreCovered(req, g, limits, k);
        EnoughDepthIsAntitone(req, g, limits, within);
      }
    } else {
      TallIsWithinButForAccounts(limits, k);
      TallHurts(limits);
      assert WithinButForAccounts(Tall(limits), TallGetters(limits), limits, k);
      assert !Antitone(Tall(limits), TallGetters(limits), limits, {1, 2});
    }
  }

  lemma FewChecksAreCovered(req: Required, g: Getters, limits: Limits, k: nat)
    requires WithinButForAccounts(req, g, limits, k) && (k <= limits.accountAuths || !LimitCanBind(limits))
    ensures !Mixed(req) && forall q :: Poses(req, g, q) ==> Covered(EnvFor(req, g, limits, {}), q)
  {
    var env := EnvFor(req, g, limits, {});
    hide Poses, Fits, AllFit, Starts, Size, Covers;
    forall q | Poses(req, g, q)
      ensures Covered(env, q)
    {
      assert CoveredStarting(env, q, k);
      if !LimitCanBind(limits) {
        LimitNeverBinds(env, q);
      }
    }
  }

  /** The limits that signatures are verified with, and those that a sign state is constructed with. */
  lemma DefaultAccountBounds(k: nat)
    ensures HarmlessStarting(DEFAULT_LIMITS, k) <==> k <= 125
    ensures HarmlessStarting(Limits(2, 0xFFFF_FFFF, 0xFFFF_FFFF), k) <==> k <= 0xFFFF_FFFF
  {
    AccountBoundIsExact(DEFAULT_LIMITS, k);
    AccountBoundIsExact(Limits(2, 0xFFFF_FFFF, 0xFFFF_FFFF), k);
  }
}
