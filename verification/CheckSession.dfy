/**
 Whole sessions: any sequence of checks that share one sign state. What a session answers, and
 why signatures it never used can be dropped.
 */
module CheckSession {
  import opened Words
  import opened Authorities
  import opened AuthorityCheck

  /** The two public entry points: by account name, and by an explicit authority. */
  datatype Query = ByName(id: AccountName) | ByAuthority(auth: Authority)

  /** The answers of a session, the account counts its checks ended with, and the final state. */
  datatype Session = Session(answers: seq<bool>, counts: seq<Uint32>, st: State)

  function Ask(env: Env, q: Query, st: State): Verdict {
    match q
    case ByName(id) =>
      if id in st.approvedBy then Verdict(true, st)
      else Check(env, env.getActive(id), 0, st.(count := 1))
    case ByAuthority(auth) => Check(env, auth, 0, st.(count := 0))
  }

  /** One check of a session; the account counter does not outlive it. */
  function Pose(env: Env, q: Query, st: State): Verdict {
    var r := Ask(env, q, st);
    Verdict(r.ok, r.st.(count := 0))
  }

  function Run(env: Env, qs: seq<Query>, st: State): Session {
    if qs == [] then Session([], [], st)
    else
      var rest := Run(env, qs[1..], Pose(env, qs[0], st).st);
      var first := Ask(env, qs[0], st);
      Session([first.ok] + rest.answers, [first.st.count] + rest.counts, rest.st)
  }

  const TEMP: AccountName := "temp"

  /** The state a sign state is constructed with, plus accounts approved by the caller. */
  function Start(sigs: set<PublicKey>, approvals: set<AccountName>): State {
    State(map k | k in sigs :: false, {TEMP} + approvals, 0)
  }

  ghost function StartLedger(env: Env, sigs: set<PublicKey>, approvals: set<AccountName>): Ledger {
    Ledger(env.getActive, sigs + env.available, {TEMP} + approvals)
  }

  /** What counts as approved: the keys that signed, the accounts asked for by name, and the accounts
      that may stand in for a member of an authority. */
  datatype Approval = Approval(signers: set<PublicKey>, named: iset<AccountName>, approved: iset<AccountName>)

  ghost function Meaning(m: Ledger): Approval {
    Approval(m.signers, Approved(m), Approved(m))
  }

  /** The same by derivations no higher than `d` below what is asked for. */
  ghost function Within(m: Ledger, d: nat): Approval {
    Approval(m.signers, Level(m, d + 1), Level(m, d))
  }

  /** A query holds by this approval. */
  ghost predicate HoldsBy(a: Approval, q: Query) {
    match q
    case ByName(id) => id in a.named
    case ByAuthority(auth) => Satisfied(auth, a.signers, a.approved)
  }

  /** What a query asks for in the least-fixpoint meaning. */
  ghost predicate Holds(m: Ledger, q: Query) {
    HoldsBy(Meaning(m), q)
  }

  lemma AskSound(m: Ledger, env: Env, q: Query, st: State)
    requires Sound(m, env, st)
    ensures Sound(m, env, Ask(env, q, st).st)
    ensures st.approvedBy <= Ask(env, q, st).st.approvedBy
    ensures Ask(env, q, st).ok ==> Holds(m, q)
  {
    match q
    case ByName(id) =>
      if id !in st.approvedBy {
        CheckSound(m, env, env.getActive(id), 0, st.(count := 1));
        ApprovedUnfolds(m, id);
      }
    case ByAuthority(auth) => CheckSound(m, env, auth, 0, st.(count := 0));
  }

  lemma {:induction false} RunSound(m: Ledger, env: Env, qs: seq<Query>, st: State)
    requires Sound(m, env, st)
    ensures |Run(env, qs, st).answers| == |qs|
    ensures Sound(m, env, Run(env, qs, st).st)
    ensures forall i :: 0 <= i < |qs| && Run(env, qs, st).answers[i] ==> Holds(m, qs[i])
  {
    if qs == [] {
    } else {
      AskSound(m, env, qs[0], st);
      RunSound(m, env, qs[1..], Pose(env, qs[0], st).st);
    }
  }

  /** From a newly constructed sign state, every true answer of every session is justified by
      the signing keys, and so is every account in the cache at the end. */
  lemma SessionSound(env: Env, sigs: set<PublicKey>, approvals: set<AccountName>, qs: seq<Query>)
    ensures var m := StartLedger(env, sigs, approvals);
            var run := Run(env, qs, Start(sigs, approvals));
            && |run.answers| == |qs|
            && (forall i :: 0 <= i < |qs| && run.answers[i] ==> Holds(m, qs[i]))
            && (forall a :: a in run.st.approvedBy ==> a in Approved(m))
  {
    var m := StartLedger(env, sigs, approvals);
    ApprovedIsLeastClosed(m);
    RunSound(m, env, qs, Start(sigs, approvals));
  }

  // ----- What a session finds at its depth -----

  /** None of the limits but the depth can get in the way of this query. */
  ghost predicate QueryWithinLimits(env: Env, q: Query) {
    match q
    case ByName(id) => WithinLimits(env, env.getActive(id), 0, 1)
    case ByAuthority(auth) => WithinLimits(env, auth, 0, 0)
  }

  lemma AskComplete(m: Ledger, env: Env, q: Query, st: State)
    requires Seeded(m, env, st) && QueryWithinLimits(env, q)
    ensures Seeded(m, env, Ask(env, q, st).st)
    ensures HoldsBy(Within(m, env.maxRecursion), q) ==> Ask(env, q, st).ok
  {
    match q
    case ByName(id) =>
      if id !in st.approvedBy {
        CheckComplete(m, env, env.getActive(id), 0, st.(count := 1));
      }
    case ByAuthority(auth) => CheckComplete(m, env, auth, 0, st.(count := 0));
  }

  lemma {:induction false} RunComplete(m: Ledger, env: Env, qs: seq<Query>, st: State)
    requires Seeded(m, env, st) && forall i :: 0 <= i < |qs| ==> QueryWithinLimits(env, qs[i])
    ensures |Run(env, qs, st).answers| == |qs|
    ensures forall i :: 0 <= i < |qs| && HoldsBy(Within(m, env.maxRecursion), qs[i]) ==> Run(env, qs, st).answers[i]
  {
    if qs == [] {
    } else {
      AskComplete(m, env, qs[0], st);
      hide QueryWithinLimits, HoldsBy;
      RunComplete(m, env, qs[1..], Pose(env, qs[0], st).st);
    }
  }

  /** In every session, at every depth, a query that a derivation within the depth supports is
      answered true, whatever was asked before. */
  lemma SessionComplete(env: Env, sigs: set<PublicKey>, approvals: set<AccountName>, qs: seq<Query>)
    requires forall i :: 0 <= i < |qs| ==> QueryWithinLimits(env, qs[i])
    ensures var m := StartLedger(env, sigs, approvals);
            var run := Run(env, qs, Start(sigs, approvals));
            && |run.answers| == |qs|
            && forall i :: 0 <= i < |qs| && HoldsBy(Within(m, env.maxRecursion), qs[i]) ==> run.answers[i]
  {
    RunComplete(StartLedger(env, sigs, approvals), env, qs, Start(sigs, approvals));
  }

  // ----- When the depth covers the queries -----

  function QueryAuthority(env: Env, q: Query): Authority {
    match q
    case ByName(id) => env.getActive(id)
    case ByAuthority(auth) => auth
  }

  /** The recursion limit covers the query, and no other limit can get in its way. */
  ghost predicate Covered(env: Env, q: Query) {
    Covers(env.getActive, QueryAuthority(env, q), env.maxRecursion) && QueryWithinLimits(env, q)
  }

  ghost predicate AllCovered(env: Env, qs: seq<Query>) {
    forall i :: 0 <= i < |qs| ==> Covered(env, qs[i])
  }

  lemma AskExact(m: Ledger, env: Env, q: Query, st: State)
    requires Sound(m, env, st) && Seeded(m, env, st) && Covered(env, q)
    ensures Sound(m, env, Ask(env, q, st).st) && Seeded(m, env, Ask(env, q, st).st)
    ensures Ask(env, q, st).ok <==> Holds(m, q)
  {
    AskSound(m, env, q, st);
    AskComplete(m, env, q, st);
    match q
    case ByName(id) =>
      ApprovedUnfolds(m, id);
      if id !in st.approvedBy {
        CheckExact(m, env, env.getActive(id), 0, st.(count := 1));
      }
    case ByAuthority(auth) => CheckExact(m, env, auth, 0, st.(count := 0));
  }

  lemma {:induction false} RunExact(m: Ledger, env: Env, qs: seq<Query>, st: State)
    requires Sound(m, env, st) && Seeded(m, env, st) && AllCovered(env, qs)
    ensures |Run(env, qs, st).answers| == |qs|
    ensures forall i :: 0 <= i < |qs| ==> (Run(env, qs, st).answers[i] <==> Holds(m, qs[i]))
  {
    hide Sound, Seeded, Covered, Holds;
    if qs == [] {
    } else {
      AskExact(m, env, qs[0], st);
      assert forall i :: 0 <= i < |qs[1..]| ==> qs[1..][i] == qs[i + 1];
      CountIsForgotten(m, env, Ask(env, qs[0], st).st);
      RunExact(m, env, qs[1..], Pose(env, qs[0], st).st);
    }
  }

  lemma CountIsForgotten(m: Ledger, env: Env, st: State)
    requires Sound(m, env, st) && Seeded(m, env, st)
    ensures Sound(m, env, st.(count := 0)) && Seeded(m, env, st.(count := 0))
  {
  }

  /** With enough depth, and no other limit in the way, every answer is exactly the meaning: earlier
      checks cannot influence it. */
  lemma SessionExact(env: Env, sigs: set<PublicKey>, approvals: set<AccountName>, qs: seq<Query>)
    requires AllCovered(env, qs)
    ensures var run := Run(env, qs, Start(sigs, approvals));
            && |run.answers| == |qs|
            && forall i :: 0 <= i < |qs| ==> (run.answers[i] <==> Holds(StartLedger(env, sigs, approvals), qs[i]))
  {
    var m := StartLedger(env, sigs, approvals);
    ApprovedIsLeastClosed(m);
    RunExact(m, env, qs, Start(sigs, approvals));
  }

  lemma HoldsMonotone(m: Ledger, n: Ledger, q: Query)
    requires m.getActive == n.getActive && m.signers <= n.signers && m.seeds <= n.seeds
    requires Holds(m, q)
    ensures Holds(n, q)
  {
    ApprovedMonotone(m, n);
    match q
    case ByName(_) =>
    case ByAuthority(auth) =>
      KeyWeightMonotone(auth.keys, m.signers, n.signers);
      AccountWeightMonotone(auth.accounts, Approved(m), Approved(n));
  }

  // ----- Dropping unused signatures -----

  function Used(provided: map<PublicKey, bool>): set<PublicKey> {
    set k | k in provided && provided[k]
  }

  lemma {:induction false} ScanKeysMarks(env: Env, threshold: Uint32, keys: seq<(PublicKey, Weight)>,
                                         total: Uint32, membership: nat, st: State)
    ensures Used(st.provided) <= Used(ScanKeys(env, threshold, keys, total, membership, st).st.provided)
    decreases |keys|
  {
    if keys == [] {
    } else {
      var st1 := st.(provided := MarkUsed(env, st.provided, keys[0].0));
      var total1 := if CanSign(env, st.provided, keys[0].0) then AddWeight(total, keys[0].1) else total;
      assert Used(st.provided) <= Used(st1.provided);
      ScanKeysMarks(env, threshold, keys[1..], total1, membership + 1, st1);
    }
  }

  lemma {:induction false} ScanAccountsMarks(env: Env, threshold: Uint32, accounts: seq<(AccountName, Weight)>,
                                             depth: nat, total: Uint32, membership: nat, st: State)
    requires depth <= env.maxRecursion
    ensures Used(st.provided) <= Used(ScanAccounts(env, threshold, accounts, depth, total, membership, st).st.provided)
    decreases env.maxRecursion - depth, |accounts|, 0
  {
    if accounts == [] {
    } else if accounts[0].0 !in st.approvedBy && depth == env.maxRecursion {
      ScanAccountsMarks(env, threshold, accounts[1..], depth, total, membership, st);
    } else if accounts[0].0 !in st.approvedBy && LimitReached(env.maxAccountAuths, st.count) {
    } else {
      CheckMemberMarks(env, accounts[0].0, depth, st);
      var r := CheckMember(env, accounts[0].0, depth, st);
      var total1 := if r.ok then AddWeight(total, accounts[0].1) else total;
      ScanAccountsMarks(env, threshold, accounts[1..], depth, total1, membership + 1, r.st);
    }
  }

  lemma {:induction false} CheckMemberMarks(env: Env, a: AccountName, depth: nat, st: State)
    requires depth <= env.maxRecursion
    requires a in st.approvedBy || depth < env.maxRecursion
    ensures Used(st.provided) <= Used(CheckMember(env, a, depth, st).st.provided)
    decreases env.maxRecursion - depth, 0, 0
  {
    if a !in st.approvedBy {
      CheckMarks(env, env.getActive(a), depth + 1, st.(count := Increment(st.count)));
    }
  }

  lemma {:induction false} CheckMarks(env: Env, auth: Authority, depth: nat, st: State)
    requires depth <= env.maxRecursion
    ensures Used(st.provided) <= Used(Check(env, auth, depth, st).st.provided)
    decreases env.maxRecursion - depth, |auth.accounts|, 2
  {
    ScanKeysMarks(env, auth.threshold, auth.keys, 0, 0, st);
    var scan := ScanKeys(env, auth.threshold, auth.keys, 0, 0, st);
    if scan.Next? {
      ScanAccountsMarks(env, auth.threshold, auth.accounts, depth, scan.total, scan.membership, scan.st);
    }
  }

  lemma AskMarks(env: Env, q: Query, st: State)
    ensures Used(st.provided) <= Used(Ask(env, q, st).st.provided)
  {
    match q
    case ByName(id) => CheckMarks(env, env.getActive(id), 0, st.(count := 1));
    case ByAuthority(auth) => CheckMarks(env, auth, 0, st.(count := 0));
  }

  lemma {:induction false} RunMarks(env: Env, qs: seq<Query>, st: State)
    ensures Used(st.provided) <= Used(Run(env, qs, st).st.provided)
  {
    if qs == [] {
    } else {
      AskMarks(env, qs[0], st);
      RunMarks(env, qs[1..], Pose(env, qs[0], st).st);
    }
  }

  /** `env'` offers no more available keys than `env` and is otherwise the same. */
  ghost predicate Narrowed(env: Env, env': Env) {
    env'.available <= env.available && env' == env.(available := env'.available)
  }

  /** Two states that have recorded the same things, the second holding fewer keys. */
  ghost predicate Mirrors(env: Env, st: State, env': Env, st': State) {
    && Narrowed(env, env')
    && st'.approvedBy == st.approvedBy && st'.count == st.count
    && Used(st'.provided) == Used(st.provided)
    && Signers(env', st'.provided) <= Signers(env, st.provided)
  }

  /** Marking one key keeps the mirror, provided the narrower side can sign what was used. */
  lemma MarkMirrors(env: Env, st: State, env': Env, st': State, k: PublicKey)
    requires Mirrors(env, st, env', st')
    requires Used(MarkUsed(env, st.provided, k)) <= Signers(env', st'.provided)
    ensures CanSign(env', st'.provided, k) == CanSign(env, st.provided, k)
    ensures Mirrors(env, st.(provided := MarkUsed(env, st.provided, k)),
                    env', st'.(provided := MarkUsed(env', st'.provided, k)))
    ensures Signers(env', MarkUsed(env', st'.provided, k)) == Signers(env', st'.provided)
  {
    var p, p' := MarkUsed(env, st.provided, k), MarkUsed(env', st'.provided, k);
    if CanSign(env, st.provided, k) {
      assert k in Used(p);
      assert k in Signers(env', st'.provided);
      assert Used(p) == Used(st.provided) + {k};
      assert Used(p') == Used(st'.provided) + {k};
    } else {
      assert k !in Signers(env, st.provided);
      assert k !in Signers(env', st'.provided);
    }
    assert Signers(env, p) == Signers(env, st.provided);
  }

  ghost predicate SameScan(env: Env, r: Scan, env': Env, r': Scan, signers: set<PublicKey>) {
    && Mirrors(env, r.st, env', r'.st) && Signers(env', r'.st.provided) == signers
    && r.Return? == r'.Return?
    && (r.Return? ==> r.verdict == r'.verdict)
    && (r.Next? ==> r.total == r'.total && r.membership == r'.membership)
  }

  lemma {:induction false} ScanKeysReplay(env: Env, env': Env, threshold: Uint32, keys: seq<(PublicKey, Weight)>,
                                          total: Uint32, membership: nat, st: State, st': State)
    requires Mirrors(env, st, env', st')
    requires Used(ScanKeys(env, threshold, keys, total, membership, st).st.provided) <= Signers(env', st'.provided)
    ensures SameScan(env, ScanKeys(env, threshold, keys, total, membership, st),
                     env', ScanKeys(env', threshold, keys, total, membership, st'), Signers(env', st'.provided))
    decreases |keys|
  {
    if keys == [] {
    } else {
      var k := keys[0].0;
      var st1 := st.(provided := MarkUsed(env, st.provided, k));
      var st1' := st'.(provided := MarkUsed(env', st'.provided, k));
      var total1 := if CanSign(env, st.provided, k) then AddWeight(total, keys[0].1) else total;
      ScanKeysMarks(env, threshold, keys[1..], total1, membership + 1, st1);
      MarkMirrors(env, st, env', st', k);
      if !(CanSign(env, st.provided, k) && total1 >= threshold) && !LimitReached(env.maxMembership, membership + 1) {
        ScanKeysReplay(env, env', threshold, keys[1..], total1, membership + 1, st1, st1');
      }
    }
  }

  lemma {:induction false} ScanAccountsReplay(env: Env, env': Env, threshold: Uint32,
                                              accounts: seq<(AccountName, Weight)>, depth: nat,
                                              total: Uint32, membership: nat, st: State, st': State)
    requires Mirrors(env, st, env', st') && depth <= env.maxRecursion
    requires Used(ScanAccounts(env, threshold, accounts, depth, total, membership, st).st.provided)
             <= Signers(env', st'.provided)
    ensures SameScan(env, ScanAccounts(env, threshold, accounts, depth, total, membership, st),
                     env', ScanAccounts(env', threshold, accounts, depth, total, membership, st'),
                     Signers(env', st'.provided))
    decreases env.maxRecursion - depth, |accounts|, 0
  {
    if accounts == [] {
    } else if accounts[0].0 !in st.approvedBy && depth == env.maxRecursion {
      ScanAccountsReplay(env, env', threshold, accounts[1..], depth, total, membership, st, st');
    } else if accounts[0].0 !in st.approvedBy && LimitReached(env.maxAccountAuths, st.count) {
    } else {
      var a := accounts[0].0;
      var r := CheckMember(env, a, depth, st);
      var total1 := if r.ok then AddWeight(total, accounts[0].1) else total;
      ScanAccountsMarks(env, threshold, accounts[1..], depth, total1, membership + 1, r.st);
      CheckMemberReplay(env, env', a, depth, st, st');
      if !(r.ok && total1 >= threshold) && !LimitReached(env.maxMembership, membership + 1) {
        var r' := CheckMember(env', a, depth, st');
        ScanAccountsReplay(env, env', threshold, accounts[1..], depth, total1, membership + 1, r.st, r'.st);
      }
    }
  }

  ghost predicate SameVerdict(env: Env, r: Verdict, env': Env, r': Verdict, signers: set<PublicKey>) {
    r'.ok == r.ok && Mirrors(env, r.st, env', r'.st) && Signers(env', r'.st.provided) == signers
  }

  lemma {:induction false} CheckMemberReplay(env: Env, env': Env, a: AccountName, depth: nat, st: State, st': State)
    requires Mirrors(env, st, env', st') && depth <= env.maxRecursion
    requires a in st.approvedBy || depth < env.maxRecursion
    requires Used(CheckMember(env, a, depth, st).st.provided) <= Signers(env', st'.provided)
    ensures SameVerdict(env, CheckMember(env, a, depth, st),
                        env', CheckMember(env', a, depth, st'), Signers(env', st'.provided))
    decreases env.maxRecursion - depth, 0, 0
  {
    if a !in st.approvedBy {
      var count := Increment(st.count);
      CheckReplay(env, env', env.getActive(a), depth + 1, st.(count := count), st'.(count := count));
    }
  }

  lemma {:induction false} CheckReplay(env: Env, env': Env, auth: Authority, depth: nat, st: State, st': State)
    requires Mirrors(env, st, env', st') && depth <= env.maxRecursion
    requires Used(Check(env, auth, depth, st).st.provided) <= Signers(env', st'.provided)
    ensures SameVerdict(env, Check(env, auth, depth, st), env', Check(env', auth, depth, st'), Signers(env', st'.provided))
    decreases env.maxRecursion - depth, |auth.accounts|, 2
  {
    var scan := ScanKeys(env, auth.threshold, auth.keys, 0, 0, st);
    if scan.Next? {
      ScanAccountsMarks(env, auth.threshold, auth.accounts, depth, scan.total, scan.membership, scan.st);
    }
    ScanKeysReplay(env, env', auth.threshold, auth.keys, 0, 0, st, st');
    var scan' := ScanKeys(env', auth.threshold, auth.keys, 0, 0, st');
    if scan.Next? {
      ScanAccountsReplay(env, env', auth.threshold, auth.accounts, depth, scan.total, scan.membership, scan.st, scan'.st);
    }
  }

  lemma AskReplay(env: Env, env': Env, q: Query, st: State, st': State)
    requires Mirrors(env, st, env', st')
    requires Used(Ask(env, q, st).st.provided) <= Signers(env', st'.provided)
    ensures SameVerdict(env, Ask(env, q, st), env', Ask(env', q, st'), Signers(env', st'.provided))
  {
    match q
    case ByName(id) =>
      if id !in st.approvedBy {
        CheckReplay(env, env', env.getActive(id), 0, st.(count := 1), st'.(count := 1));
      }
    case ByAuthority(auth) => CheckReplay(env, env', auth, 0, st.(count := 0), st'.(count := 0));
  }

  lemma {:induction false} RunReplay(env: Env, env': Env, qs: seq<Query>, st: State, st': State)
    requires Mirrors(env, st, env', st')
    requires Used(Run(env, qs, st).st.provided) <= Signers(env', st'.provided)
    ensures Run(env', qs, st').answers == Run(env, qs, st).answers
    ensures Run(env', qs, st').counts == Run(env, qs, st).counts
    ensures Mirrors(env, Run(env, qs, st).st, env', Run(env', qs, st').st)
  {
    if qs == [] {
    } else {
      var next := Pose(env, qs[0], st).st;
      RunMarks(env, qs[1..], next);
      AskReplay(env, env', qs[0], st, st');
      RunReplay(env, env', qs[1..], next, Pose(env', qs[0], st').st);
    }
  }

  /** A session replayed with any key supply between the keys it used and the keys it had gives
      the same answers, the same cache, the same counts and the same used keys. */
  lemma SessionReplay(env: Env, env': Env, sigs: set<PublicKey>, sigs': set<PublicKey>,
                      approvals: set<AccountName>, qs: seq<Query>)
    requires Narrowed(env, env')
    requires var used := Used(Run(env, qs, Start(sigs, approvals)).st.provided);
             used <= sigs' + env'.available <= sigs + env.available
    ensures var run := Run(env, qs, Start(sigs, approvals));
            var again := Run(env', qs, Start(sigs', approvals));
            && again.answers == run.answers
            && again.counts == run.counts && again.st.approvedBy == run.st.approvedBy
            && Used(again.st.provided) == Used(run.st.provided)
  {
    RunReplay(env, env', qs, Start(sigs, approvals), Start(sigs', approvals));
  }
}
