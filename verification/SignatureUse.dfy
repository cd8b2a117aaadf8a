/**
 Which signatures a transaction needs: verification refuses those that it does not come to read, and
 the search for required keys returns those that it does.
 */
module SignatureUse {
  import opened Words
  import opened Authorities
  import opened AuthorityCheck
  import opened CheckSession
  import opened TransactionAuthority
  import opened RequiredSignatures
  import opened KeyMarks

  // ----- Verification -----

  ghost function AnyOfVisits(env: Env, qs: seq<Query>, st: State): seq<Authority> {
    if qs == [] then []
    else
      var first := Pose(env, qs[0], st);
      AskVisits(env, qs[0], st) + if first.ok then [] else AnyOfVisits(env, qs[1..], first.st)
  }

  ghost function JudgeVisits(env: Env, ds: seq<Demand>, st: State): seq<Authority> {
    if ds == [] then []
    else
      var first := AnyOf(env, ds[0].alternatives, st);
      AnyOfVisits(env, ds[0].alternatives, st) + if first.ok then JudgeVisits(env, ds[1..], first.st) else []
  }

  /** The authorities whose keys verification reads, in order. */
  ghost function VerifyVisits(req: Required, sigs: set<PublicKey>, g: Getters, limits: Limits): seq<Authority> {
    JudgeVisits(EnvFor(req, g, limits, {}), Demands(req, g), Start(sigs, {}))
  }

  lemma {:induction false} AnyOfMarksExactly(env: Env, qs: seq<Query>, st: State)
    ensures MarksVisits(env, st, AnyOf(env, qs, st).st, AnyOfVisits(env, qs, st))
  {
    hide MarksVisits, Pose, AskVisits;
    if qs == [] {
      MarksNothing(env, st);
    } else {
      var next := Pose(env, qs[0], st);
      AskMarksExactly(env, qs[0], st);
      if next.ok {
        assert AskVisits(env, qs[0], st) + [] == AskVisits(env, qs[0], st);
      } else {
        AnyOfMarksExactly(env, qs[1..], next.st);
        MarksOn(env, st, next.st, AskVisits(env, qs[0], st), AnyOf(env, qs[1..], next.st).st, AnyOfVisits(env, qs[1..], next.st));
      }
    }
  }

  lemma {:induction false} JudgeMarksExactly(env: Env, ds: seq<Demand>, st: State)
    requires Judge(env, ds, st).Passed?
    ensures MarksVisits(env, st, Judge(env, ds, st).st, JudgeVisits(env, ds, st))
  {
    hide MarksVisits, AnyOf, AnyOfVisits;
    if ds == [] {
      MarksNothing(env, st);
    } else {
      var qs := ds[0].alternatives;
      var next := AnyOf(env, qs, st).st;
      AnyOfMarksExactly(env, qs, st);
      JudgeMarksExactly(env, ds[1..], next);
      MarksOn(env, st, next, AnyOfVisits(env, qs, st), Judge(env, ds[1..], next).st, JudgeVisits(env, ds[1..], next));
    }
  }

  lemma {:induction false} ReadKeysSign(limit: Uint32, visits: seq<Authority>, signers: set<PublicKey>)
    ensures AllRead(limit, visits, signers) <= signers
  {
    if visits == [] {
    } else {
      ReadKeysSign(limit, visits[1..], signers);
    }
  }

  lemma UsedAfter(env: Env, sigs: set<PublicKey>, r: State, visits: seq<Authority>)
    requires MarksVisits(env, Start(sigs, {}), r, visits)
    ensures Used(r.provided) == AllRead(env.maxMembership, visits, sigs + env.available)
  {
    var st := Start(sigs, {});
    assert Used(st.provided) == {};
    assert Signers(env, st.provided) == sigs + env.available;
    MarkedIs(st.provided, AllRead(env.maxMembership, visits, sigs + env.available), {});
  }

  /** A transaction that misses no authority is accepted exactly when every signature is one that its
      verification reads. */
  lemma RelevantExactly(req: Required, sigs: set<PublicKey>, g: Getters, limits: Limits)
    requires !Mixed(req) && !Verify(req, sigs, g, limits).Missing()
    ensures Verify(req, sigs, g, limits) ==
            if sigs <= AllRead(limits.membership, VerifyVisits(req, sigs, g, limits), sigs) then Accepted
            else Rejected(IrrelevantSignature)
  {
    var env, ds, st := EnvFor(req, g, limits, {}), Demands(req, g), Start(sigs, {});
    FailureIsMissing(env, req, g, ds, st);
    hide Demands, AllRead, MarksVisits;
    JudgeMarksExactly(env, ds, st);
    UsedAfter(env, sigs, Judge(env, ds, st).st, JudgeVisits(env, ds, st));
    assert sigs + env.available == sigs;
    ReadKeysSign(limits.membership, VerifyVisits(req, sigs, g, limits), sigs);
  }

  /** With one required owner authority whose keys suffice, exactly the signatures up to the one that
      reaches the threshold may be there. */
  lemma SurplusKeyIsRefused(id: AccountName, sigs: set<PublicKey>, g: Getters, limits: Limits)
    requires Reaches(g.owner(id), sigs, KeysRead(limits.membership, g.owner(id), sigs, 0))
    ensures Verify(Required([], [id], [], []), sigs, g, limits) ==
            if sigs <= ReadKeys(limits.membership, g.owner(id), sigs) then Accepted else Rejected(IrrelevantSignature)
  {
    var req, auth := Required([], [id], [], []), g.owner(id);
    var env, ds, st := EnvFor(req, g, limits, {}), Demands(req, g), Start(sigs, {});
    assert ds == [OwnerDemand(g, id)] && ds[1..] == [];
    var only := ds[0].alternatives;
    assert only == [ByAuthority(auth)] && Signers(env, st.provided) == sigs;
    ScanKeysExact(env, auth, st);
    hide Reaches, ReadKeys, ScanKeys, KeysRead, Marked, AllRead;
    var scan, visits := ScanKeys(env, auth.threshold, auth.keys, 0, 0, st), [auth];
    assert ContinueWithAccounts(env, auth, 0, scan) == scan;
    assert Ask(env, only[0], st) == Check(env, auth, 0, st) == Verdict(true, scan.st);
    assert AskVisits(env, only[0], st) == visits + [] == visits;
    assert AnyOf(env, only, st).ok && Judge(env, ds[1..], AnyOf(env, only, st).st).Passed?;
    assert AnyOfVisits(env, only, st) == visits + [] == visits;
    assert JudgeVisits(env, ds, st) == visits + [] == visits;
    RelevantExactly(req, sigs, g, limits);
    OneVisit(limits.membership, auth, sigs);
  }

  lemma OneVisit(limit: Uint32, auth: Authority, signers: set<PublicKey>)
    ensures AllRead(limit, [auth], signers) == ReadKeys(limit, auth, signers)
  {
    var visits := [auth];
    assert visits[1..] == [];
  }

  /** The key is in none of the authorities that a query can lead to. */
  ghost predicate IsStranger(env: Env, q: Query, k: PublicKey) {
    && !Lists(QueryAuthority(env, q), k)
    && forall a :: InTree(env.getActive, QueryAuthority(env, q).accounts, env.maxRecursion, a) ==> !Lists(env.getActive(a), k)
  }

  predicate Lists(auth: Authority, k: PublicKey) {
    exists j :: 0 <= j < |auth.keys| && auth.keys[j].0 == k
  }

  lemma {:induction false} ReadMeansListed(limit: Uint32, visits: seq<Authority>, signers: set<PublicKey>, k: PublicKey)
    requires forall v :: v in visits ==> !Lists(v, k)
    ensures k !in AllRead(limit, visits, signers)
  {
    if visits == [] {
    } else {
      ReadMeansListed(limit, visits[1..], signers, k);
      assert visits[0] in visits;
    }
  }

  lemma AskNeverReads(env: Env, q: Query, st: State, k: PublicKey, v: Authority)
    requires IsStranger(env, q, k) && v in AskVisits(env, q, st)
    ensures !Lists(v, k)
  {
    hide Visits, InTree, Lists;
    var auth := QueryAuthority(env, q);
    match q
    case ByName(id) => VisitsAreInTree(env, auth, 0, st.(count := 1), v);
    case ByAuthority(_) => VisitsAreInTree(env, auth, 0, st.(count := 0), v);
  }

  lemma {:induction false} AnyOfNeverReads(env: Env, qs: seq<Query>, st: State, k: PublicKey, v: Authority)
    requires (forall i :: 0 <= i < |qs| ==> IsStranger(env, qs[i], k)) && v in AnyOfVisits(env, qs, st)
    ensures !Lists(v, k)
  {
    hide IsStranger, Lists, AskVisits;
    if v in AskVisits(env, qs[0], st) {
      AskNeverReads(env, qs[0], st, k, v);
    } else {
      AnyOfNeverReads(env, qs[1..], Pose(env, qs[0], st).st, k, v);
    }
  }

  lemma {:induction false} JudgeNeverReads(env: Env, ds: seq<Demand>, st: State, k: PublicKey, v: Authority)
    requires forall i, j :: 0 <= i < |ds| && 0 <= j < |ds[i].alternatives| ==> IsStranger(env, ds[i].alternatives[j], k)
    requires v in JudgeVisits(env, ds, st)
    ensures !Lists(v, k)
  {
    hide IsStranger, Lists, AnyOfVisits;
    if v in AnyOfVisits(env, ds[0].alternatives, st) {
      AnyOfNeverReads(env, ds[0].alternatives, st, k, v);
    } else {
      JudgeNeverReads(env, ds[1..], AnyOf(env, ds[0].alternatives, st).st, k, v);
    }
  }

  /** A transaction with a signature by a key that no authority in reach lists is never accepted. */
  lemma StrangerIsRefused(req: Required, sigs: set<PublicKey>, g: Getters, limits: Limits, k: PublicKey)
    requires k in sigs && forall q :: Poses(req, g, q) ==> IsStranger(EnvFor(req, g, limits, {}), q, k)
    ensures !Verify(req, sigs, g, limits).Accepted?
  {
    var env, ds := EnvFor(req, g, limits, {}), Demands(req, g);
    hide Demands, Poses, IsStranger, JudgeVisits, AllRead, Lists;
    forall i, j | 0 <= i < |ds| && 0 <= j < |ds[i].alternatives|
      ensures IsStranger(env, ds[i].alternatives[j], k)
    {
      DemandsPose(req, g, i, j);
    }
    forall v | v in VerifyVisits(req, sigs, g, limits)
      ensures !Lists(v, k)
    {
      JudgeNeverReads(env, ds, Start(sigs, {}), k, v);
    }
    ReadMeansListed(limits.membership, VerifyVisits(req, sigs, g, limits), sigs, k);
    hide Verify;
    if Verify(req, sigs, g, limits).Accepted? {
      MixedIsRejected(req, sigs, g, limits);
      RelevantExactly(req, sigs, g, limits);
    }
  }

  // ----- The search for required keys -----

  /** The authorities the search asks for: of an account required for posting or active authority its
      own, of one required for owner authority that, and the explicit ones. */
  ghost predicate Searches(req: Required, g: Getters, q: Query) {
    if req.posting != [] then exists id :: id in req.posting && q == ByName(id)
    else
      || (exists auth :: auth in req.other && q == ByAuthority(auth))
      || (exists id :: id in req.owner && q == ByAuthority(g.owner(id)))
      || (exists id :: id in req.active && q == ByName(id))
  }

  /** In this order: the explicit authorities, then the owner authorities, then the accounts by name. */
  lemma QueriesInOrder(req: Required, g: Getters)
    ensures req.posting != [] ==>
              && |Queries(req, g)| == |req.posting|
              && forall k :: 0 <= k < |req.posting| ==> Queries(req, g)[k] == ByName(req.posting[k])
    ensures req.posting == [] ==>
              && |Queries(req, g)| == |req.other| + |req.owner| + |req.active|
              && (forall k :: 0 <= k < |req.other| ==> Queries(req, g)[k] == ByAuthority(req.other[k]))
              && (forall k :: 0 <= k < |req.owner| ==> Queries(req, g)[|req.other| + k] == ByAuthority(g.owner(req.owner[k])))
              && (forall k :: 0 <= k < |req.active| ==> Queries(req, g)[|req.other| + |req.owner| + k] == ByName(req.active[k]))
  {
  }

  lemma QueriesAre(req: Required, g: Getters, q: Query)
    ensures Searches(req, g, q) <==> q in Queries(req, g)
  {
    QueriesInOrder(req, g);
    hide Queries;
    if q in Queries(req, g) {
      QueryIsSearch(req, g, q);
    }
    if Searches(req, g, q) {
      SearchIsQuery(req, g, q);
    }
  }

  lemma QueryIsSearch(req: Required, g: Getters, q: Query)
    requires q in Queries(req, g)
    ensures Searches(req, g, q)
  {
    QueriesInOrder(req, g);
    hide Queries;
    var qs := Queries(req, g);
    var i :| 0 <= i < |qs| && qs[i] == q;
    if req.posting != [] {
      assert req.posting[i] in req.posting;
    } else if i < |req.other| {
      assert req.other[i] in req.other;
    } else if i < |req.other| + |req.owner| {
      var k := i - |req.other|;
      assert qs[|req.other| + k] == q && req.owner[k] in req.owner;
    } else {
      var k := i - |req.other| - |req.owner|;
      assert qs[|req.other| + |req.owner| + k] == q && req.active[k] in req.active;
    }
  }

  lemma SearchIsQuery(req: Required, g: Getters, q: Query)
    requires Searches(req, g, q)
    ensures q in Queries(req, g)
  {
    QueriesInOrder(req, g);
    hide Queries;
    var qs := Queries(req, g);
    if req.posting != [] {
      var k :| 0 <= k < |req.posting| && q == ByName(req.posting[k]);
      assert qs[k] == q;
    } else if exists k :: 0 <= k < |req.other| && q == ByAuthority(req.other[k]) {
      var k :| 0 <= k < |req.other| && q == ByAuthority(req.other[k]);
      assert qs[k] == q;
    } else if exists k :: 0 <= k < |req.owner| && q == ByAuthority(g.owner(req.owner[k])) {
      var k :| 0 <= k < |req.owner| && q == ByAuthority(g.owner(req.owner[k]));
      assert qs[|req.other| + k] == q;
    } else {
      var k :| 0 <= k < |req.active| && q == ByName(req.active[k]);
      assert qs[|req.other| + |req.owner| + k] == q;
    }
  }

  /** The keys the search returns. */
  ghost function Returned(req: Required, sigs: set<PublicKey>, available: set<PublicKey>, g: Getters, limits: Limits): set<PublicKey> {
    available * Used(Run(EnvFor(req, g, limits, available), Queries(req, g), Start(sigs, {})).st.provided)
  }

  /** They are the available ones among the keys that its checks read. */
  lemma ReturnedAreRead(req: Required, sigs: set<PublicKey>, available: set<PublicKey>, g: Getters, limits: Limits)
    ensures var env := EnvFor(req, g, limits, available);
            Returned(req, sigs, available, g, limits) ==
            available * AllRead(limits.membership, RunVisits(env, Queries(req, g), Start(sigs, {})), sigs + available)
  {
    var env, qs, st := EnvFor(req, g, limits, available), Queries(req, g), Start(sigs, {});
    SessionMarksExactly(env, qs, st);
    hide Queries, MarksVisits;
    UsedAfter(env, sigs, Run(env, qs, st).st, RunVisits(env, qs, st));
  }

  lemma {:induction false} FitIgnoresKeys(env: Env, available: set<PublicKey>, accounts: seq<(AccountName, Weight)>, left: nat)
    ensures AllFit(env, accounts, left) <==> AllFit(env.(available := available), accounts, left)
    decreases left, |accounts|
  {
    if left == 0 || accounts == [] {
    } else {
      FitIgnoresKeys(env, available, env.getActive(accounts[0].0).accounts, left - 1);
      FitIgnoresKeys(env, available, accounts[1..], left);
    }
  }

  lemma CoverIgnoresKeys(env: Env, available: set<PublicKey>, q: Query)
    requires Covered(env, q)
    ensures Covered(env.(available := available), q)
  {
    hide Covers, Starts;
    FitIgnoresKeys(env, available, QueryAuthority(env, q).accounts, env.maxRecursion);
  }

  /** With enough depth, and no other limit in the way: whatever the search asks for, and all the
      available keys could satisfy, the returned ones satisfy. */
  lemma ReturnedKeysServe(req: Required, sigs: set<PublicKey>, available: set<PublicKey>, g: Getters, limits: Limits, q: Query)
    requires forall q :: Searches(req, g, q) ==> Covered(EnvFor(req, g, limits, {}), q)
    requires Searches(req, g, q)
    ensures HoldsBy(Meaning(VerifyLedger(req, sigs + available, g)), q) <==>
            HoldsBy(Meaning(VerifyLedger(req, sigs + Returned(req, sigs, available, g, limits), g)), q)
  {
    var env, none, qs := EnvFor(req, g, limits, available), EnvFor(req, g, limits, {}), Queries(req, g);
    var signed := sigs + Returned(req, sigs, available, g, limits);
    hide Covered, Searches, Queries, HoldsBy;
    forall q | q in qs
      ensures Covered(none, q) && Covered(env, q)
    {
      QueriesAre(req, g, q);
      CoverIgnoresKeys(none, available, q);
    }
    SessionExact(env, sigs, {}, qs);
    SessionExact(none, signed, {}, qs);
    RequiredKeysSuffice(req, sigs, available, g, limits);
    QueriesAre(req, g, q);
    var i :| 0 <= i < |qs| && qs[i] == q;
    assert StartLedger(env, sigs, {}) == VerifyLedger(req, sigs + available, g);
    assert StartLedger(none, signed, {}) == VerifyLedger(req, signed, g);
  }
}
