/**
 The recursive evaluation of an authority as a function of the sign state, and its relation to
 the least-fixpoint meaning. Weights and counters wrap at 32 bits as in the source.
 */
module AuthorityCheck {
  import opened Words
  import opened Authorities

  /** The parts of a sign state that a check only reads. */
  datatype Env = Env(getActive: AuthorityGetter,
                     available: set<PublicKey>,
                     maxRecursion: Uint32,
                     maxMembership: Uint32,
                     maxAccountAuths: Uint32)

  /** The parts that a check updates; `count` is the shared account counter. */
  datatype State = State(provided: map<PublicKey, bool>, approvedBy: set<AccountName>, count: Uint32)

  /** A scan of a member list either decides the whole check or carries on. */
  datatype Scan =
    | Return(verdict: bool, st: State)
    | Next(total: Uint32, membership: nat, st: State)

  datatype Verdict = Verdict(ok: bool, st: State)

  function Signers(env: Env, provided: map<PublicKey, bool>): set<PublicKey> {
    provided.Keys + env.available
  }

  predicate CanSign(env: Env, provided: map<PublicKey, bool>, k: PublicKey) {
    k in provided || k in env.available
  }

  function MarkUsed(env: Env, provided: map<PublicKey, bool>, k: PublicKey): map<PublicKey, bool> {
    if CanSign(env, provided, k) then provided[k := true] else provided
  }

  function AddWeight(total: Uint32, w: Weight): Uint32 {
    (total + w) % 0x1_0000_0000
  }

  predicate LimitReached(limit: Uint32, n: nat) {
    limit > 0 && n >= limit
  }

  function ScanKeys(env: Env, threshold: Uint32, keys: seq<(PublicKey, Weight)>,
                    total: Uint32, membership: nat, st: State): Scan
    decreases |keys|
  {
    if keys == [] then Next(total, membership, st)
    else
      var signed := CanSign(env, st.provided, keys[0].0);
      var st1 := st.(provided := MarkUsed(env, st.provided, keys[0].0));
      var total1 := if signed then AddWeight(total, keys[0].1) else total;
      if signed && total1 >= threshold then Return(true, st1)
      else if LimitReached(env.maxMembership, membership + 1) then Return(false, st1)
      else ScanKeys(env, threshold, keys[1..], total1, membership + 1, st1)
  }

  function ScanAccounts(env: Env, threshold: Uint32, accounts: seq<(AccountName, Weight)>, depth: nat,
                        total: Uint32, membership: nat, st: State): Scan
    requires depth <= env.maxRecursion
    decreases env.maxRecursion - depth, |accounts|, 0
  {
    if accounts == [] then Next(total, membership, st)
    else if accounts[0].0 !in st.approvedBy && depth == env.maxRecursion then
      ScanAccounts(env, threshold, accounts[1..], depth, total, membership, st)
    else if accounts[0].0 !in st.approvedBy && LimitReached(env.maxAccountAuths, st.count) then
      Return(false, st)
    else
      var r := CheckMember(env, accounts[0].0, depth, st);
      var total1 := if r.ok then AddWeight(total, accounts[0].1) else total;
      if r.ok && total1 >= threshold then Return(true, r.st)
      else if LimitReached(env.maxMembership, membership + 1) then Return(false, r.st)
      else ScanAccounts(env, threshold, accounts[1..], depth, total1, membership + 1, r.st)
  }

  /** One account of a list: cached, or checked one level deeper and then cached. */
  function CheckMember(env: Env, a: AccountName, depth: nat, st: State): Verdict
    requires depth <= env.maxRecursion
    requires a in st.approvedBy || depth < env.maxRecursion
    decreases env.maxRecursion - depth, 0, 0
  {
    if a in st.approvedBy then Verdict(true, st)
    else
      var r := Check(env, env.getActive(a), depth + 1, st.(count := Increment(st.count)));
      if r.ok then Verdict(true, r.st.(approvedBy := r.st.approvedBy + {a})) else r
  }

  function Conclude(threshold: Uint32, scan: Scan): Verdict {
    match scan
    case Return(verdict, st) => Verdict(verdict, st)
    case Next(total, _, st) => Verdict(total >= threshold, st)
  }

  function ContinueWithAccounts(env: Env, auth: Authority, depth: nat, scan: Scan): Scan
    requires depth <= env.maxRecursion
    decreases env.maxRecursion - depth, |auth.accounts|, 1
  {
    match scan
    case Return(_, _) => scan
    case Next(total, membership, st) => ScanAccounts(env, auth.threshold, auth.accounts, depth, total, membership, st)
  }

  function Check(env: Env, auth: Authority, depth: nat, st: State): Verdict
    requires depth <= env.maxRecursion
    decreases env.maxRecursion - depth, |auth.accounts|, 2
  {
    var keysScanned := ScanKeys(env, auth.threshold, auth.keys, 0, 0, st);
    Conclude(auth.threshold, ContinueWithAccounts(env, auth, depth, keysScanned))
  }

  // ----- Soundness: a true answer is derivable, and the cache stays derivable -----

  /** The ledger a state is judged by: its keys, and an arbitrary seed set. */
  ghost function LedgerOf(env: Env, st: State, seeds: set<AccountName>): Ledger {
    Ledger(env.getActive, Signers(env, st.provided), seeds)
  }

  ghost predicate Sound(m: Ledger, env: Env, st: State) {
    && m.getActive == env.getActive
    && m.signers == Signers(env, st.provided)
    && forall a :: a in st.approvedBy ==> a in Approved(m)
  }

  lemma {:induction false} ScanKeysSound(env: Env, threshold: Uint32, keys: seq<(PublicKey, Weight)>,
                                         total: Uint32, membership: nat, st: State)
    ensures var r := ScanKeys(env, threshold, keys, total, membership, st);
            var weight := total + KeyWeight(keys, Signers(env, st.provided));
            && Signers(env, r.st.provided) == Signers(env, st.provided)
            && r.st.approvedBy == st.approvedBy && r.st.count == st.count
            && (r.Return? && r.verdict ==> weight >= threshold)
            && (r.Next? ==> r.total <= weight)
    decreases |keys|
  {
    if keys == [] {
    } else {
      var st1 := st.(provided := MarkUsed(env, st.provided, keys[0].0));
      assert Signers(env, st1.provided) == Signers(env, st.provided);
      var total1 := if CanSign(env, st.provided, keys[0].0) then AddWeight(total, keys[0].1) else total;
      ScanKeysSound(env, threshold, keys[1..], total1, membership + 1, st1);
    }
  }

  lemma {:induction false} ScanAccountsSound(m: Ledger, env: Env, threshold: Uint32,
                                             accounts: seq<(AccountName, Weight)>, depth: nat,
                                             total: Uint32, membership: nat, st: State)
    requires depth <= env.maxRecursion && Sound(m, env, st)
    ensures var r := ScanAccounts(env, threshold, accounts, depth, total, membership, st);
            var weight := total + AccountWeight(accounts, Approved(m));
            && Sound(m, env, r.st) && st.approvedBy <= r.st.approvedBy
            && (r.Return? && r.verdict ==> weight >= threshold)
            && (r.Next? ==> r.total <= weight)
    decreases env.maxRecursion - depth, |accounts|, 0
  {
    if accounts == [] {
    } else if accounts[0].0 !in st.approvedBy && depth == env.maxRecursion {
      ScanAccountsSound(m, env, threshold, accounts[1..], depth, total, membership, st);
    } else if accounts[0].0 !in st.approvedBy && LimitReached(env.maxAccountAuths, st.count) {
    } else {
      CheckMemberSound(m, env, accounts[0].0, depth, st);
      var r := CheckMember(env, accounts[0].0, depth, st);
      var total1 := if r.ok then AddWeight(total, accounts[0].1) else total;
      ScanAccountsSound(m, env, threshold, accounts[1..], depth, total1, membership + 1, r.st);
    }
  }

  lemma {:induction false} CheckMemberSound(m: Ledger, env: Env, a: AccountName, depth: nat, st: State)
    requires depth <= env.maxRecursion && Sound(m, env, st)
    requires a in st.approvedBy || depth < env.maxRecursion
    ensures var r := CheckMember(env, a, depth, st);
            Sound(m, env, r.st) && st.approvedBy <= r.st.approvedBy && (r.ok ==> a in Approved(m))
    decreases env.maxRecursion - depth, 0, 0
  {
    if a !in st.approvedBy {
      CheckSound(m, env, env.getActive(a), depth + 1, st.(count := Increment(st.count)));
      ApprovedIsLeastClosed(m);
    }
  }

  /** A true answer means the authority is satisfied in the least-fixpoint meaning, and every
      account the check caches is derivable. Limits and wrap-around never break this. */
  lemma {:induction false} CheckSound(m: Ledger, env: Env, auth: Authority, depth: nat, st: State)
    requires depth <= env.maxRecursion && Sound(m, env, st)
    ensures var r := Check(env, auth, depth, st);
            && Sound(m, env, r.st) && st.approvedBy <= r.st.approvedBy
            && (r.ok ==> Satisfied(auth, m.signers, Approved(m)))
    decreases env.maxRecursion - depth, |auth.accounts|, 2
  {
    ScanKeysSound(env, auth.threshold, auth.keys, 0, 0, st);
    var scan := ScanKeys(env, auth.threshold, auth.keys, 0, 0, st);
    if scan.Next? {
      ScanAccountsSound(m, env, auth.threshold, auth.accounts, depth, scan.total, scan.membership, scan.st);
    }
  }

  // ----- Completeness: a short enough derivation is found, whatever is cached -----

  ghost function TotalWeight<T>(members: seq<(T, Weight)>): nat {
    if members == [] then 0 else members[0].1 + TotalWeight(members[1..])
  }

  /** The weights of an authority fit in 32 bits and its members fit the membership limit. */
  ghost predicate Fits(env: Env, auth: Authority) {
    && TotalWeight(auth.keys) + TotalWeight(auth.accounts) < 0x1_0000_0000
    && (|| env.maxMembership == 0
        || |auth.keys| + |auth.accounts| < env.maxMembership
        || (|auth.keys| + |auth.accounts| == env.maxMembership && auth.threshold > 0))
  }

  /** How many checks scanning a member list can start with this much depth left: one for every
      account in the tree of authorities below the list. */
  ghost function Starts(getActive: AuthorityGetter, accounts: seq<(AccountName, Weight)>, left: nat): nat
    decreases left, |accounts|
  {
    if left == 0 || accounts == [] then 0
    else
      1 + Starts(getActive, getActive(accounts[0].0).accounts, left - 1) + Starts(getActive, accounts[1..], left)
  }

  /** Every authority in that tree fits. */
  ghost predicate AllFit(env: Env, accounts: seq<(AccountName, Weight)>, left: nat)
    decreases left, |accounts|
  {
    left == 0 || accounts == [] ||
    (var auth := env.getActive(accounts[0].0);
     Fits(env, auth) && AllFit(env, auth.accounts, left - 1) && AllFit(env, accounts[1..], left))
  }

  /** The account limit leaves room for `n` more checks. */
  ghost predicate Headroom(env: Env, count: nat, n: nat) {
    env.maxAccountAuths == 0 || count + n <= env.maxAccountAuths
  }

  /** None of the limits but the depth can get in the way of scanning this list. */
  ghost predicate ListWithinLimits(env: Env, accounts: seq<(AccountName, Weight)>, left: nat, count: nat) {
    AllFit(env, accounts, left) && Headroom(env, count, Starts(env.getActive, accounts, left))
  }

  /** None of the limits but the depth can get in the way of this check. */
  ghost predicate WithinLimits(env: Env, auth: Authority, depth: nat, count: nat)
    requires depth <= env.maxRecursion
  {
    Fits(env, auth) && ListWithinLimits(env, auth.accounts, env.maxRecursion - depth, count)
  }

  /** Room for the members not yet scanned: stopping at the limit can only happen on the last
      one, and only while the threshold has not been reached. */
  ghost predicate Room(env: Env, threshold: Uint32, total: Uint32, membership: nat, remaining: nat) {
    || env.maxMembership == 0
    || membership + remaining < env.maxMembership
    || (membership + remaining == env.maxMembership && total < threshold)
  }

  lemma {:induction false} ScanKeysComplete(env: Env, threshold: Uint32, keys: seq<(PublicKey, Weight)>,
                                            total: Uint32, membership: nat, st: State, after: nat)
    requires total + TotalWeight(keys) < 0x1_0000_0000
    requires Room(env, threshold, total, membership, |keys| + after)
    ensures var r := ScanKeys(env, threshold, keys, total, membership, st);
            var weight := total + KeyWeight(keys, Signers(env, st.provided));
            && (r.Return? ==> r.verdict || (after == 0 && weight < threshold))
            && (r.Next? ==> && r.total == weight <= total + TotalWeight(keys)
                            && Room(env, threshold, r.total, r.membership, after))
    decreases |keys|
  {
    if keys == [] {
    } else {
      var st1 := st.(provided := MarkUsed(env, st.provided, keys[0].0));
      assert Signers(env, st1.provided) == Signers(env, st.provided);
      var total1 := if CanSign(env, st.provided, keys[0].0) then AddWeight(total, keys[0].1) else total;
      if CanSign(env, st.provided, keys[0].0) && total1 >= threshold {
      } else if LimitReached(env.maxMembership, membership + 1) {
        assert keys[1..] == [];
      } else {
        ScanKeysComplete(env, threshold, keys[1..], total1, membership + 1, st1, after);
      }
    }
  }

  /** The state a completeness argument starts from: seeds cached, keys as in the ledger. */
  ghost predicate Seeded(m: Ledger, env: Env, st: State) {
    m.getActive == env.getActive && m.signers == Signers(env, st.provided) && m.seeds <= st.approvedBy
  }

  /** What a completeness argument knows after a step: the seeds and keys are as before, and the
      account counter has not moved by more than `n`. */
  ghost predicate Proceeds(m: Ledger, env: Env, st: State, r: State, n: nat) {
    Seeded(m, env, r) && (env.maxAccountAuths > 0 ==> r.count <= st.count + n)
  }

  /** A scan that finds at least this weight, unless it stops early. */
  ghost predicate Finds(threshold: Uint32, weight: nat, r: Scan) {
    (weight >= threshold && r.Return? ==> r.verdict) && (r.Next? ==> r.total >= weight)
  }

  /** The account limit lets the first account of a list be checked, and then the rest be scanned. */
  lemma SplitLimits(env: Env, accounts: seq<(AccountName, Weight)>, left: nat, count: nat)
    requires accounts != [] && left > 0 && ListWithinLimits(env, accounts, left, count)
    ensures var auth := env.getActive(accounts[0].0);
            var n := Starts(env.getActive, auth.accounts, left - 1);
            && !LimitReached(env.maxAccountAuths, count)
            && Fits(env, auth) && ListWithinLimits(env, auth.accounts, left - 1, count + 1)
            && Starts(env.getActive, accounts, left) == 1 + n + Starts(env.getActive, accounts[1..], left)
            && forall c: nat :: env.maxAccountAuths == 0 || c <= count + 1 + n ==> ListWithinLimits(env, accounts[1..], left, c)
  {
  }

  /** Adding the first account of a list, if its check succeeded, to the weight found so far. */
  lemma FirstCounted(accounts: seq<(AccountName, Weight)>, level: iset<AccountName>, total: Uint32, ok: bool)
    requires accounts != [] && total + TotalWeight(accounts) < 0x1_0000_0000 && (accounts[0].0 in level ==> ok)
    ensures var total1 := if ok then AddWeight(total, accounts[0].1) else total;
            && total <= total1 && total1 + TotalWeight(accounts[1..]) < 0x1_0000_0000
            && total + AccountWeight(accounts, level) <= total1 + AccountWeight(accounts[1..], level)
  {
  }

  /** Unless the threshold has been reached, there is room for the rest, or there is no rest. */
  lemma RoomForRest(env: Env, threshold: Uint32, total: Uint32, total1: Uint32, membership: nat, rest: nat)
    requires Room(env, threshold, total, membership, rest + 1) && (total1 == total || total1 < threshold)
    ensures if LimitReached(env.maxMembership, membership + 1) then rest == 0 && total1 < threshold
            else Room(env, threshold, total1, membership + 1, rest)
  {
  }

  lemma {:induction false} ScanAccountsComplete(m: Ledger, env: Env, threshold: Uint32,
                                                accounts: seq<(AccountName, Weight)>, depth: nat,
                                                total: Uint32, membership: nat, st: State)
    requires depth <= env.maxRecursion && Seeded(m, env, st)
    requires ListWithinLimits(env, accounts, env.maxRecursion - depth, st.count)
    requires total + TotalWeight(accounts) < 0x1_0000_0000
    requires Room(env, threshold, total, membership, |accounts|)
    ensures var r := ScanAccounts(env, threshold, accounts, depth, total, membership, st);
            var left := env.maxRecursion - depth;
            && Proceeds(m, env, st, r.st, Starts(env.getActive, accounts, left))
            && Finds(threshold, total + AccountWeight(accounts, Level(m, left)), r)
    decreases env.maxRecursion - depth, |accounts|, 0
  {
    if accounts == [] {
    } else if depth == env.maxRecursion {
      ScanCachedComplete(m, env, threshold, accounts, depth, total, membership, st);
    } else {
      ScanFirstComplete(m, env, threshold, accounts, depth, total, membership, st);
    }
  }

  /** The last level: only cached accounts count. */
  lemma {:induction false} ScanCachedComplete(m: Ledger, env: Env, threshold: Uint32,
                                              accounts: seq<(AccountName, Weight)>, depth: nat,
                                              total: Uint32, membership: nat, st: State)
    requires depth == env.maxRecursion && accounts != [] && Seeded(m, env, st) && Headroom(env, st.count, 0)
    requires total + TotalWeight(accounts) < 0x1_0000_0000
    requires Room(env, threshold, total, membership, |accounts|)
    ensures var r := ScanAccounts(env, threshold, accounts, depth, total, membership, st);
            Proceeds(m, env, st, r.st, 0) && Finds(threshold, total + AccountWeight(accounts, Level(m, 0)), r)
    decreases env.maxRecursion - depth, |accounts|, -1
  {
    if accounts[0].0 !in st.approvedBy {
      ScanAccountsComplete(m, env, threshold, accounts[1..], depth, total, membership, st);
    } else {
      var total1 := AddWeight(total, accounts[0].1);
      FirstCounted(accounts, Level(m, 0), total, true);
      if total1 < threshold {
        RoomForRest(env, threshold, total, total1, membership, |accounts| - 1);
        hide Room, AddWeight;
        if LimitReached(env.maxMembership, membership + 1) {
          assert accounts[1..] == [];
        } else {
          ScanAccountsComplete(m, env, threshold, accounts[1..], depth, total1, membership + 1, st);
        }
      }
    }
  }

  /** A level with depth to spare: the first account is checked, then the rest are scanned. */
  lemma {:induction false} ScanFirstComplete(m: Ledger, env: Env, threshold: Uint32,
                                             accounts: seq<(AccountName, Weight)>, depth: nat,
                                             total: Uint32, membership: nat, st: State)
    requires depth < env.maxRecursion && accounts != [] && Seeded(m, env, st)
    requires ListWithinLimits(env, accounts, env.maxRecursion - depth, st.count)
    requires total + TotalWeight(accounts) < 0x1_0000_0000
    requires Room(env, threshold, total, membership, |accounts|)
    ensures var r := ScanAccounts(env, threshold, accounts, depth, total, membership, st);
            var left := env.maxRecursion - depth;
            && Proceeds(m, env, st, r.st, Starts(env.getActive, accounts, left))
            && Finds(threshold, total + AccountWeight(accounts, Level(m, left)), r)
    decreases env.maxRecursion - depth, |accounts|, -1
  {
    var left := env.maxRecursion - depth;
    SplitLimits(env, accounts, left, st.count);
    CheckMemberComplete(m, env, accounts[0].0, depth, st);
    var r := CheckMember(env, accounts[0].0, depth, st);
    var total1 := if r.ok then AddWeight(total, accounts[0].1) else total;
    FirstCounted(accounts, Level(m, left), total, r.ok);
    if !r.ok || total1 < threshold {
      RoomForRest(env, threshold, total, total1, membership, |accounts| - 1);
      hide ListWithinLimits, Room, AddWeight, Seeded;
      if LimitReached(env.maxMembership, membership + 1) {
        assert accounts[1..] == [];
      } else {
        ScanAccountsComplete(m, env, threshold, accounts[1..], depth, total1, membership + 1, r.st);
      }
    }
  }

  lemma {:induction false} CheckMemberComplete(m: Ledger, env: Env, a: AccountName, depth: nat, st: State)
    requires depth < env.maxRecursion && Seeded(m, env, st) && !LimitReached(env.maxAccountAuths, st.count)
    requires WithinLimits(env, env.getActive(a), depth + 1, st.count + 1)
    ensures var r := CheckMember(env, a, depth, st);
            var left := env.maxRecursion - depth;
            && Proceeds(m, env, st, r.st, 1 + Starts(env.getActive, env.getActive(a).accounts, left - 1))
            && (a in Level(m, left) ==> r.ok)
    decreases env.maxRecursion - depth, 0, 0
  {
    if a !in st.approvedBy {
      CheckComplete(m, env, env.getActive(a), depth + 1, st.(count := Increment(st.count)));
    }
  }

  /** When no other limit can get in the way, an authority that is satisfied by derivations no
      higher than the remaining depth is answered true, whatever else the cache holds. */
  lemma {:induction false} CheckComplete(m: Ledger, env: Env, auth: Authority, depth: nat, st: State)
    requires depth <= env.maxRecursion && Seeded(m, env, st)
    requires WithinLimits(env, auth, depth, st.count)
    ensures var r := Check(env, auth, depth, st);
            var left := env.maxRecursion - depth;
            && Proceeds(m, env, st, r.st, Starts(env.getActive, auth.accounts, left))
            && (Satisfied(auth, m.signers, Level(m, left)) ==> r.ok)
    decreases env.maxRecursion - depth, |auth.accounts|, 2
  {
    ScanKeysSound(env, auth.threshold, auth.keys, 0, 0, st);
    ScanKeysComplete(env, auth.threshold, auth.keys, 0, 0, st, |auth.accounts|);
    var scan := ScanKeys(env, auth.threshold, auth.keys, 0, 0, st);
    if scan.Next? {
      ScanAccountsComplete(m, env, auth.threshold, auth.accounts, depth, scan.total, scan.membership, scan.st);
    }
  }

  // ----- Exactness: with enough depth the answer is the meaning, whatever came before -----

  /** When the remaining depth covers the authority and no other limit can get in the way, the check
      answers exactly the least-fixpoint meaning, from every cache that is sound and holds the
      seeds. */
  lemma CheckExact(m: Ledger, env: Env, auth: Authority, depth: nat, st: State)
    requires Sound(m, env, st) && Seeded(m, env, st) && depth <= env.maxRecursion
    requires Covers(env.getActive, auth, env.maxRecursion - depth) && WithinLimits(env, auth, depth, st.count)
    ensures Check(env, auth, depth, st).ok <==> Satisfied(auth, m.signers, Approved(m))
  {
    CheckSound(m, env, auth, depth, st);
    CheckComplete(m, env, auth, depth, st);
    CoveredHeight(m, auth, env.maxRecursion - depth);
    AccountWeightMonotone(auth.accounts, Approved(m), Level(m, env.maxRecursion - depth));
  }
}
