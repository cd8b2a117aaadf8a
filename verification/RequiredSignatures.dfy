/**
 What verification guarantees, which keys have to sign, and how the signing set is minimized.
 */
module RequiredSignatures {
  import opened Authorities
  import opened AuthorityCheck
  import opened CheckSession
  import opened SignStates
  import opened TransactionAuthority

  // ----- What a transaction requires, one authority at a time -----

  /** The queries that its verification may pose. */
  ghost predicate Poses(req: Required, g: Getters, q: Query) {
    if req.posting != [] then
      exists id :: id in req.posting && (q == ByName(id) || q == ByAuthority(g.active(id)) || q == ByAuthority(g.owner(id)))
    else
      || (exists auth :: auth in req.other && q == ByAuthority(auth))
      || (exists id :: id in req.active && (q == ByName(id) || q == ByAuthority(g.owner(id))))
      || (exists id :: id in req.owner && q == ByAuthority(g.owner(id)))
  }

  /** The accounts whose posting authority is required have it, or their active or owner authority. */
  ghost predicate PostingMet(a: Approval, req: Required, g: Getters) {
    forall id :: id in req.posting ==>
      || id in a.named || Satisfied(g.active(id), a.signers, a.approved) || Satisfied(g.owner(id), a.signers, a.approved)
  }

  ghost predicate OtherMet(a: Approval, req: Required) {
    forall auth :: auth in req.other ==> Satisfied(auth, a.signers, a.approved)
  }

  ghost predicate ActiveMet(a: Approval, req: Required, g: Getters) {
    forall id :: id in req.active ==> id in a.named || Satisfied(g.owner(id), a.signers, a.approved)
  }

  ghost predicate OwnerMet(a: Approval, req: Required, g: Getters) {
    forall id :: id in req.owner ==> Satisfied(g.owner(id), a.signers, a.approved)
  }

  ghost predicate AllMet(a: Approval, req: Required, g: Getters) {
    PostingMet(a, req, g) && OtherMet(a, req) && ActiveMet(a, req, g) && OwnerMet(a, req, g)
  }

  // ----- Acceptance is justified; with enough depth it is decided by the meaning alone -----

  /** Some alternative holds. */
  ghost predicate MetBy(a: Approval, d: Demand) {
    exists i :: 0 <= i < |d.alternatives| && HoldsBy(a, d.alternatives[i])
  }

  ghost predicate Met(m: Ledger, d: Demand) {
    MetBy(Meaning(m), d)
  }

  lemma {:induction false} AnyOfSound(m: Ledger, env: Env, qs: seq<Query>, st: State)
    requires Sound(m, env, st)
    ensures var r := AnyOf(env, qs, st);
            Sound(m, env, r.st) && (r.ok ==> exists i :: 0 <= i < |qs| && Holds(m, qs[i]))
  {
    if qs == [] {
    } else {
      AskSound(m, env, qs[0], st);
      AnyOfSound(m, env, qs[1..], Pose(env, qs[0], st).st);
      assert forall i :: 0 <= i < |qs[1..]| ==> qs[1..][i] == qs[i + 1];
    }
  }

  lemma {:induction false} JudgeSound(m: Ledger, env: Env, ds: seq<Demand>, st: State)
    requires Sound(m, env, st)
    ensures Judge(env, ds, st).Passed? ==> forall i :: 0 <= i < |ds| ==> Met(m, ds[i])
  {
    if ds == [] {
    } else {
      AnyOfSound(m, env, ds[0].alternatives, st);
      JudgeSound(m, env, ds[1..], AnyOf(env, ds[0].alternatives, st).st);
    }
  }

  /** The ledger a verification is judged by: the signatures, and nothing the wallet could add. */
  ghost function VerifyLedger(req: Required, sigs: set<PublicKey>, g: Getters): Ledger {
    Ledger(if req.posting != [] then g.posting else g.active, sigs, {TEMP})
  }

  /** The demands are what the transaction requires, one for each required authority, with the
      alternatives in the order in which they are tried. */
  lemma DemandsAre(req: Required, g: Getters)
    ensures req.posting != [] ==>
              && |Demands(req, g)| == |req.posting|
              && forall k :: 0 <= k < |req.posting| ==> Demands(req, g)[k] == PostingDemand(g, req.posting[k])
    ensures req.posting == [] ==>
              && |Demands(req, g)| == |req.other| + |req.active| + |req.owner|
              && (forall k :: 0 <= k < |req.other| ==> Demands(req, g)[k] == OtherDemand(req.other[k]))
              && (forall k :: 0 <= k < |req.active| ==> Demands(req, g)[|req.other| + k] == ActiveDemand(g, req.active[k]))
              && (forall k :: 0 <= k < |req.owner| ==>
                    Demands(req, g)[|req.other| + |req.active| + k] == OwnerDemand(g, req.owner[k]))
    ensures forall id :: PostingDemand(g, id).alternatives == [ByName(id), ByAuthority(g.active(id)), ByAuthority(g.owner(id))]
    ensures forall id :: ActiveDemand(g, id).alternatives == [ByName(id), ByAuthority(g.owner(id))]
    ensures forall id :: OwnerDemand(g, id).alternatives == [ByAuthority(g.owner(id))]
    ensures forall auth :: OtherDemand(auth).alternatives == [ByAuthority(auth)]
  {
  }

  /** Meeting each kind of demand, alternative by alternative. */
  lemma KindsOfDemand(a: Approval, g: Getters, id: AccountName, auth: Authority)
    ensures MetBy(a, PostingDemand(g, id)) <==>
            || id in a.named || Satisfied(g.active(id), a.signers, a.approved) || Satisfied(g.owner(id), a.signers, a.approved)
    ensures MetBy(a, OtherDemand(auth)) <==> Satisfied(auth, a.signers, a.approved)
    ensures MetBy(a, ActiveDemand(g, id)) <==> id in a.named || Satisfied(g.owner(id), a.signers, a.approved)
    ensures MetBy(a, OwnerDemand(g, id)) <==> Satisfied(g.owner(id), a.signers, a.approved)
  {
    hide Satisfied;
    var posting, other, active, owner := PostingDemand(g, id), OtherDemand(auth), ActiveDemand(g, id), OwnerDemand(g, id);
    assert HoldsBy(a, posting.alternatives[0]) <==> id in a.named;
    assert HoldsBy(a, posting.alternatives[1]) <==> Satisfied(g.active(id), a.signers, a.approved);
    assert HoldsBy(a, posting.alternatives[2]) <==> Satisfied(g.owner(id), a.signers, a.approved);
    assert HoldsBy(a, other.alternatives[0]) <==> Satisfied(auth, a.signers, a.approved);
    assert HoldsBy(a, active.alternatives[0]) <==> id in a.named;
    assert HoldsBy(a, active.alternatives[1]) <==> Satisfied(g.owner(id), a.signers, a.approved);
    assert HoldsBy(a, owner.alternatives[0]) <==> Satisfied(g.owner(id), a.signers, a.approved);
  }

  /** When the first `n` demands are met, the groups they cover are. */
  lemma GroupsMet(a: Approval, req: Required, g: Getters, n: nat)
    requires n <= |Demands(req, g)| && forall i :: 0 <= i < n ==> MetBy(a, Demands(req, g)[i])
    ensures req.posting != [] && n == |Demands(req, g)| ==> PostingMet(a, req, g)
    ensures req.posting == [] && n >= |req.other| ==> OtherMet(a, req)
    ensures req.posting == [] && n >= |req.other| + |req.active| ==> ActiveMet(a, req, g)
    ensures req.posting == [] && n == |Demands(req, g)| ==> OwnerMet(a, req, g)
  {
    DemandsAre(req, g);
    hide MetBy, Demands, PostingDemand, OtherDemand, ActiveDemand, OwnerDemand, Satisfied;
    var ds := Demands(req, g);
    forall k | req.posting != [] && n == |ds| && 0 <= k < |req.posting|
      ensures MetBy(a, PostingDemand(g, req.posting[k]))
    {
      assert MetBy(a, ds[k]);
    }
    forall k | req.posting == [] && n >= |req.other| && 0 <= k < |req.other|
      ensures MetBy(a, OtherDemand(req.other[k]))
    {
      assert MetBy(a, ds[k]);
    }
    forall k | req.posting == [] && n >= |req.other| + |req.active| && 0 <= k < |req.active|
      ensures MetBy(a, ActiveDemand(g, req.active[k]))
    {
      assert MetBy(a, ds[|req.other| + k]);
    }
    forall k | req.posting == [] && n == |ds| && 0 <= k < |req.owner|
      ensures MetBy(a, OwnerDemand(g, req.owner[k]))
    {
      assert MetBy(a, ds[|req.other| + |req.active| + k]);
    }
    KindsMet(a, req, g);
  }

  lemma KindsMet(a: Approval, req: Required, g: Getters)
    ensures (forall k :: 0 <= k < |req.posting| ==> MetBy(a, PostingDemand(g, req.posting[k]))) ==> PostingMet(a, req, g)
    ensures (forall k :: 0 <= k < |req.other| ==> MetBy(a, OtherDemand(req.other[k]))) ==> OtherMet(a, req)
    ensures (forall k :: 0 <= k < |req.active| ==> MetBy(a, ActiveDemand(g, req.active[k]))) ==> ActiveMet(a, req, g)
    ensures (forall k :: 0 <= k < |req.owner| ==> MetBy(a, OwnerDemand(g, req.owner[k]))) ==> OwnerMet(a, req, g)
  {
    hide MetBy, PostingDemand, OtherDemand, ActiveDemand, OwnerDemand, Satisfied;
    forall k | 0 <= k < |req.posting| && MetBy(a, PostingDemand(g, req.posting[k]))
      ensures var id := req.posting[k];
              || id in a.named || Satisfied(g.active(id), a.signers, a.approved) || Satisfied(g.owner(id), a.signers, a.approved)
    {
      KindsOfDemand(a, g, req.posting[k], g.owner(req.posting[k]));
    }
    forall k | 0 <= k < |req.other| && MetBy(a, OtherDemand(req.other[k]))
      ensures Satisfied(req.other[k], a.signers, a.approved)
    {
      KindsOfDemand(a, g, "", req.other[k]);
    }
    forall k | 0 <= k < |req.active| && MetBy(a, ActiveDemand(g, req.active[k]))
      ensures req.active[k] in a.named || Satisfied(g.owner(req.active[k]), a.signers, a.approved)
    {
      KindsOfDemand(a, g, req.active[k], g.owner(req.active[k]));
    }
    forall k | 0 <= k < |req.owner| && MetBy(a, OwnerDemand(g, req.owner[k]))
      ensures Satisfied(g.owner(req.owner[k]), a.signers, a.approved)
    {
      KindsOfDemand(a, g, req.owner[k], g.owner(req.owner[k]));
    }
  }

  /** A demand that is not met belongs to a group that is not. */
  lemma GroupUnmet(a: Approval, req: Required, g: Getters, i: nat)
    requires i < |Demands(req, g)| && !MetBy(a, Demands(req, g)[i])
    ensures var failure := Demands(req, g)[i].failure;
            if req.posting != [] then failure == MissingPosting && !PostingMet(a, req, g)
            else if i < |req.other| then failure == MissingOther && !OtherMet(a, req)
            else if i < |req.other| + |req.active| then failure == MissingActive && !ActiveMet(a, req, g)
            else failure == MissingOwner && !OwnerMet(a, req, g)
  {
    DemandsAre(req, g);
    hide MetBy, Demands, Satisfied;
    if req.posting != [] {
      KindsOfDemand(a, g, req.posting[i], g.owner(req.posting[i]));
      assert req.posting[i] in req.posting;
    } else if i < |req.other| {
      KindsOfDemand(a, g, "", req.other[i]);
      assert req.other[i] in req.other;
    } else if i < |req.other| + |req.active| {
      var k := i - |req.other|;
      assert Demands(req, g)[|req.other| + k] == ActiveDemand(g, req.active[k]);
      KindsOfDemand(a, g, req.active[k], g.owner(req.active[k]));
      assert req.active[k] in req.active;
    } else {
      var k := i - |req.other| - |req.active|;
      assert Demands(req, g)[|req.other| + |req.active| + k] == OwnerDemand(g, req.owner[k]);
      KindsOfDemand(a, g, req.owner[k], g.owner(req.owner[k]));
      assert req.owner[k] in req.owner;
    }
  }

  lemma DemandsPose(req: Required, g: Getters, i: nat, j: nat)
    requires i < |Demands(req, g)| && j < |Demands(req, g)[i].alternatives|
    ensures Poses(req, g, Demands(req, g)[i].alternatives[j])
  {
    DemandsAre(req, g);
    hide Demands;
    if req.posting != [] {
      assert req.posting[i] in req.posting;
    } else if i < |req.other| {
      assert req.other[i] in req.other;
    } else if i < |req.other| + |req.active| {
      var k := i - |req.other|;
      assert Demands(req, g)[|req.other| + k] == ActiveDemand(g, req.active[k]);
      assert req.active[k] in req.active;
    } else {
      var k := i - |req.other| - |req.active|;
      assert Demands(req, g)[|req.other| + |req.active| + k] == OwnerDemand(g, req.owner[k]);
      assert req.owner[k] in req.owner;
    }
  }

  /** An accepted transaction really has every authority it requires. */
  lemma AcceptedIsJustified(req: Required, sigs: set<PublicKey>, g: Getters, limits: Limits)
    requires Verify(req, sigs, g, limits).Accepted?
    ensures AllMet(Meaning(VerifyLedger(req, sigs, g)), req, g)
  {
    var env, m, ds := EnvFor(req, g, limits, {}), VerifyLedger(req, sigs, g), Demands(req, g);
    ApprovedIsLeastClosed(m);
    JudgeSound(m, env, ds, Start(sigs, {}));
    hide Judge;
    GroupsMet(Meaning(m), req, g, |ds|);
  }

  /** A transaction that requires posting authority and any other is rejected for that, and no other
      is. */
  lemma MixedIsRejected(req: Required, sigs: set<PublicKey>, g: Getters, limits: Limits)
    ensures Verify(req, sigs, g, limits) == Rejected(MixedAuthorities) <==>
            req.posting != [] && (req.active != [] || req.owner != [] || req.other != [])
  {
    FailureIsMissing(EnvFor(req, g, limits, {}), req, g, Demands(req, g), Start(sigs, {}));
  }

  // ----- At any depth, what is derivable within it is found -----

  ghost predicate DemandWithinLimits(env: Env, d: Demand) {
    forall i :: 0 <= i < |d.alternatives| ==> QueryWithinLimits(env, d.alternatives[i])
  }

  lemma {:induction false} AnyOfComplete(m: Ledger, env: Env, qs: seq<Query>, st: State)
    requires Seeded(m, env, st) && forall i :: 0 <= i < |qs| ==> QueryWithinLimits(env, qs[i])
    ensures var r := AnyOf(env, qs, st);
            && Seeded(m, env, r.st)
            && ((exists i :: 0 <= i < |qs| && HoldsBy(Within(m, env.maxRecursion), qs[i])) ==> r.ok)
  {
    if qs == [] {
    } else {
      AskComplete(m, env, qs[0], st);
      hide HoldsBy, QueryWithinLimits;
      AnyOfComplete(m, env, qs[1..], Pose(env, qs[0], st).st);
      if exists i :: 0 <= i < |qs| && HoldsBy(Within(m, env.maxRecursion), qs[i]) {
        var i :| 0 <= i < |qs| && HoldsBy(Within(m, env.maxRecursion), qs[i]);
        assert i > 0 ==> HoldsBy(Within(m, env.maxRecursion), qs[1..][i - 1]);
      }
    }
  }

  lemma {:induction false} JudgeComplete(m: Ledger, env: Env, ds: seq<Demand>, st: State)
    requires Seeded(m, env, st)
    requires forall i :: 0 <= i < |ds| ==> DemandWithinLimits(env, ds[i]) && MetBy(Within(m, env.maxRecursion), ds[i])
    ensures Judge(env, ds, st).Passed?
  {
    if ds == [] {
    } else {
      assert DemandWithinLimits(env, ds[0]) && MetBy(Within(m, env.maxRecursion), ds[0]);
      AnyOfComplete(m, env, ds[0].alternatives, st);
      hide DemandWithinLimits, MetBy;
      JudgeComplete(m, env, ds[1..], AnyOf(env, ds[0].alternatives, st).st);
    }
  }

  /** A transaction that has every authority it requires by derivations within the depth is never
      reported to miss one, and neither is it with further signatures, whatever the depth. */
  lemma MetWithinDepthIsNotMissing(req: Required, sigs: set<PublicKey>, more: set<PublicKey>, g: Getters, limits: Limits)
    requires sigs <= more && AllMet(Within(VerifyLedger(req, sigs, g), limits.recursion), req, g)
    requires forall q :: Poses(req, g, q) ==> QueryWithinLimits(EnvFor(req, g, limits, {}), q)
    ensures !Verify(req, more, g, limits).Missing()
  {
    var env, ds, m, n := EnvFor(req, g, limits, {}), Demands(req, g), VerifyLedger(req, sigs, g), VerifyLedger(req, more, g);
    hide Demands, Poses, QueryWithinLimits, HoldsBy, Within, Level, PostingMet, OtherMet, ActiveMet, OwnerMet;
    forall i | 0 <= i < |ds|
      ensures MetBy(Within(n, limits.recursion), ds[i]) && DemandWithinLimits(env, ds[i])
    {
      if !MetBy(Within(m, limits.recursion), ds[i]) {
        GroupUnmet(Within(m, limits.recursion), req, g, i);
      }
      var j :| 0 <= j < |ds[i].alternatives| && HoldsBy(Within(m, limits.recursion), ds[i].alternatives[j]);
      HoldsWithinMonotone(m, n, ds[i].alternatives[j], limits.recursion);
      forall k | 0 <= k < |ds[i].alternatives|
        ensures QueryWithinLimits(env, ds[i].alternatives[k])
      {
        DemandsPose(req, g, i, k);
      }
    }
    JudgeComplete(n, env, ds, Start(more, {}));
  }

  lemma {:induction false} LevelMonotone(m: Ledger, n: Ledger, d: nat)
    requires m.getActive == n.getActive && m.signers <= n.signers && m.seeds <= n.seeds
    ensures Level(m, d) <= Level(n, d)
  {
    if d == 0 {
    } else {
      LevelMonotone(m, n, d - 1);
      forall a | a in Level(m, d)
        ensures a in Level(n, d)
      {
        KeyWeightMonotone(m.getActive(a).keys, m.signers, n.signers);
        AccountWeightMonotone(m.getActive(a).accounts, Level(m, d - 1), Level(n, d - 1));
      }
    }
  }

  lemma HoldsWithinMonotone(m: Ledger, n: Ledger, q: Query, d: nat)
    requires m.getActive == n.getActive && m.signers <= n.signers && m.seeds <= n.seeds
    requires HoldsBy(Within(m, d), q)
    ensures HoldsBy(Within(n, d), q)
  {
    match q
    case ByName(_) => LevelMonotone(m, n, d + 1);
    case ByAuthority(auth) =>
      LevelMonotone(m, n, d);
      KeyWeightMonotone(auth.keys, m.signers, n.signers);
      AccountWeightMonotone(auth.accounts, Level(m, d), Level(n, d));
  }

  // ----- When the depth covers the demands -----

  ghost predicate DemandsCovered(env: Env, ds: seq<Demand>) {
    forall i :: 0 <= i < |ds| ==> AllCovered(env, ds[i].alternatives)
  }

  lemma {:induction false} AnyOfExact(m: Ledger, env: Env, qs: seq<Query>, st: State)
    requires Sound(m, env, st) && Seeded(m, env, st) && AllCovered(env, qs)
    ensures var r := AnyOf(env, qs, st);
            && Sound(m, env, r.st) && Seeded(m, env, r.st)
            && (r.ok <==> exists i :: 0 <= i < |qs| && Holds(m, qs[i]))
  {
    if qs == [] {
    } else {
      AskExact(m, env, qs[0], st);
      assert forall i :: 0 <= i < |qs[1..]| ==> qs[1..][i] == qs[i + 1];
      AnyOfExact(m, env, qs[1..], Pose(env, qs[0], st).st);
      if exists i :: 0 <= i < |qs| && Holds(m, qs[i]) {
        var i :| 0 <= i < |qs| && Holds(m, qs[i]);
        assert i > 0 ==> Holds(m, qs[1..][i - 1]);
      }
    }
  }

  /** Demand `i` is the first that is not met. */
  ghost predicate IsFirstUnmet(m: Ledger, ds: seq<Demand>, i: nat) {
    i < |ds| && !Met(m, ds[i]) && forall j :: 0 <= j < i ==> Met(m, ds[j])
  }

  lemma {:induction false} JudgeExact(m: Ledger, env: Env, ds: seq<Demand>, st: State)
    requires Sound(m, env, st) && Seeded(m, env, st) && DemandsCovered(env, ds)
    ensures var r := Judge(env, ds, st);
            if r.Passed? then forall i :: 0 <= i < |ds| ==> Met(m, ds[i])
            else exists i :: 0 <= i < |ds| && IsFirstUnmet(m, ds, i) && ds[i].failure == r.failure
  {
    if ds == [] {
    } else {
      assert AllCovered(env, ds[0].alternatives);
      AnyOfExact(m, env, ds[0].alternatives, st);
      assert forall i :: 0 <= i < |ds[1..]| ==> ds[1..][i] == ds[i + 1];
      hide Met, AllCovered, Sound, Seeded;
      var rest := AnyOf(env, ds[0].alternatives, st);
      if rest.ok {
        JudgeExact(m, env, ds[1..], rest.st);
        var r := Judge(env, ds[1..], rest.st);
        if r.Failed? {
          var i :| 0 <= i < |ds[1..]| && IsFirstUnmet(m, ds[1..], i) && ds[1..][i].failure == r.failure;
          assert forall j :: 0 < j < |ds| ==> ds[j] == ds[1..][j - 1];
          assert IsFirstUnmet(m, ds, i + 1);
        } else {
          assert forall j :: 0 < j < |ds| ==> ds[j] == ds[1..][j - 1];
        }
      } else {
        assert IsFirstUnmet(m, ds, 0);
      }
    }
  }

  lemma {:induction false} FailureIsMissing(env: Env, req: Required, g: Getters, ds: seq<Demand>, st: State)
    requires forall i :: 0 <= i < |ds| ==> ds[i] in Demands(req, g)
    ensures var r := Judge(env, ds, st);
            r.Failed? ==> r.failure.Missing()
  {
    if ds == [] {
    } else {
      assert ds[0] in Demands(req, g);
      FailureIsMissing(env, req, g, ds[1..], AnyOf(env, ds[0].alternatives, st).st);
    }
  }

  /** With enough depth, and no other limit in the way, an authority is reported missing exactly when
      it is, and the first kind that is missing is reported. */
  lemma MissingExactly(req: Required, sigs: set<PublicKey>, g: Getters, limits: Limits)
    requires !Mixed(req) && forall q :: Poses(req, g, q) ==> Covered(EnvFor(req, g, limits, {}), q)
    ensures ReportsFirst(Meaning(VerifyLedger(req, sigs, g)), req, g, Verify(req, sigs, g, limits))
  {
    var env, m, ds := EnvFor(req, g, limits, {}), VerifyLedger(req, sigs, g), Demands(req, g);
    ApprovedIsLeastClosed(m);
    PosedAreCovered(req, g, env);
    JudgeExact(m, env, ds, Start(sigs, {}));
    hide Judge, Demands, ReportsFirst, Met, Covered, Poses, DemandsCovered, Approved;
    var r := Judge(env, ds, Start(sigs, {}));
    if r.Failed? {
      var i :| 0 <= i < |ds| && IsFirstUnmet(m, ds, i) && ds[i].failure == r.failure;
      FirstUnmetIsReported(m, req, g, i);
    } else {
      NoneUnmet(m, req, g, Verify(req, sigs, g, limits));
    }
  }

  /** The outcome names the first kind of authority that is missing, in the order in which they are
      looked at. */
  ghost predicate ReportsFirst(a: Approval, req: Required, g: Getters, outcome: Outcome) {
    && (outcome == Rejected(MissingPosting) <==> !PostingMet(a, req, g))
    && (outcome == Rejected(MissingOther) <==> !OtherMet(a, req))
    && (outcome == Rejected(MissingActive) <==> OtherMet(a, req) && !ActiveMet(a, req, g))
    && (outcome == Rejected(MissingOwner) <==> OtherMet(a, req) && ActiveMet(a, req, g) && !OwnerMet(a, req, g))
  }

  lemma FirstUnmetIsReported(m: Ledger, req: Required, g: Getters, i: nat)
    requires !Mixed(req) && IsFirstUnmet(m, Demands(req, g), i)
    ensures ReportsFirst(Meaning(m), req, g, Rejected(Demands(req, g)[i].failure))
  {
    hide Demands, PostingMet, OtherMet, ActiveMet, OwnerMet, MetBy, Meaning;
    GroupUnmet(Meaning(m), req, g, i);
    GroupsMet(Meaning(m), req, g, i);
    EmptyGroups(Meaning(m), req, g);
  }

  lemma NoneUnmet(m: Ledger, req: Required, g: Getters, outcome: Outcome)
    requires !Mixed(req) && !outcome.Missing() && forall i :: 0 <= i < |Demands(req, g)| ==> Met(m, Demands(req, g)[i])
    ensures ReportsFirst(Meaning(m), req, g, outcome)
  {
    hide Demands, PostingMet, OtherMet, ActiveMet, OwnerMet, MetBy, Meaning;
    DemandsAre(req, g);
    GroupsMet(Meaning(m), req, g, |Demands(req, g)|);
    EmptyGroups(Meaning(m), req, g);
  }

  lemma EmptyGroups(a: Approval, req: Required, g: Getters)
    requires !Mixed(req)
    ensures req.posting == [] ==> PostingMet(a, req, g)
    ensures req.posting != [] ==> OtherMet(a, req) && ActiveMet(a, req, g) && OwnerMet(a, req, g)
  {
  }

  lemma PosedAreCovered(req: Required, g: Getters, env: Env)
    requires forall q :: Poses(req, g, q) ==> Covered(env, q)
    ensures DemandsCovered(env, Demands(req, g))
  {
    var ds := Demands(req, g);
    hide Covered, Demands, Poses;
    forall i, j | 0 <= i < |ds| && 0 <= j < |ds[i].alternatives|
      ensures Covered(env, ds[i].alternatives[j])
    {
      DemandsPose(req, g, i, j);
    }
  }

  /** Verification with fewer signatures never finds an authority that more signatures miss. */
  ghost predicate Antitone(req: Required, g: Getters, limits: Limits, within: set<PublicKey>) {
    forall a: set<PublicKey>, b: set<PublicKey> :: a <= b <= within && Verify(req, b, g, limits).Missing()
                                                   ==> Verify(req, a, g, limits).Missing()
  }

  /** With enough depth, and no other limit in the way, a further signature never makes an authority
      missing. */
  lemma EnoughDepthIsAntitone(req: Required, g: Getters, limits: Limits, within: set<PublicKey>)
    requires !Mixed(req) && forall q :: Poses(req, g, q) ==> Covered(EnvFor(req, g, limits, {}), q)
    ensures Antitone(req, g, limits, within)
  {
    hide Verify, Poses, Covered, Meaning, AllMet;
    forall a: set<PublicKey>, b: set<PublicKey> | a <= b <= within && Verify(req, b, g, limits).Missing()
      ensures Verify(req, a, g, limits).Missing()
    {
      MissingIsUnmet(req, a, g, limits);
      MissingIsUnmet(req, b, g, limits);
      if AllMet(Meaning(VerifyLedger(req, a, g)), req, g) {
        MoreKeysMeetAll(VerifyLedger(req, a, g), VerifyLedger(req, b, g), req, g);
      }
    }
  }

  lemma MissingIsUnmet(req: Required, sigs: set<PublicKey>, g: Getters, limits: Limits)
    requires !Mixed(req) && forall q :: Poses(req, g, q) ==> Covered(EnvFor(req, g, limits, {}), q)
    ensures Verify(req, sigs, g, limits).Missing() <==> !AllMet(Meaning(VerifyLedger(req, sigs, g)), req, g)
  {
    hide Verify, Poses, Covered, Meaning, PostingMet, OtherMet, ActiveMet, OwnerMet;
    MissingExactly(req, sigs, g, limits);
  }

  lemma MoreKeysMeetAll(m: Ledger, n: Ledger, req: Required, g: Getters)
    requires m.getActive == n.getActive && m.signers <= n.signers && m.seeds <= n.seeds
    requires AllMet(Meaning(m), req, g)
    ensures AllMet(Meaning(n), req, g)
  {
    hide Satisfied, Approved;
    ApprovedMonotone(m, n);
    forall auth: Authority | Satisfied(auth, m.signers, Approved(m))
      ensures Satisfied(auth, n.signers, Approved(n))
    {
      HoldsMonotone(m, n, ByAuthority(auth));
    }
  }

  // ----- Unused signatures can be dropped -----

  lemma {:induction false} AnyOfMarks(env: Env, qs: seq<Query>, st: State)
    ensures Used(st.provided) <= Used(AnyOf(env, qs, st).st.provided)
  {
    if qs == [] {
    } else {
      AskMarks(env, qs[0], st);
      AnyOfMarks(env, qs[1..], Pose(env, qs[0], st).st);
    }
  }

  lemma {:induction false} AnyOfReplay(env: Env, env': Env, qs: seq<Query>, st: State, st': State)
    requires Mirrors(env, st, env', st')
    requires Used(AnyOf(env, qs, st).st.provided) <= Signers(env', st'.provided)
    ensures SameVerdict(env, AnyOf(env, qs, st), env', AnyOf(env', qs, st'), Signers(env', st'.provided))
  {
    if qs == [] {
    } else {
      var next := Pose(env, qs[0], st);
      AnyOfMarks(env, qs[1..], next.st);
      AskReplay(env, env', qs[0], st, st');
      if !next.ok {
        AnyOfReplay(env, env', qs[1..], next.st, Pose(env', qs[0], st').st);
      }
    }
  }

  lemma {:induction false} JudgeMarks(env: Env, ds: seq<Demand>, st: State)
    ensures var r := Judge(env, ds, st); r.Passed? ==> Used(st.provided) <= Used(r.st.provided)
  {
    if ds == [] {
    } else {
      AnyOfMarks(env, ds[0].alternatives, st);
      JudgeMarks(env, ds[1..], AnyOf(env, ds[0].alternatives, st).st);
    }
  }

  lemma {:induction false} JudgeReplay(env: Env, env': Env, ds: seq<Demand>, st: State, st': State)
    requires Mirrors(env, st, env', st') && Judge(env, ds, st).Passed?
    requires Used(Judge(env, ds, st).st.provided) <= Signers(env', st'.provided)
    ensures Judge(env', ds, st').Passed? && Mirrors(env, Judge(env, ds, st).st, env', Judge(env', ds, st').st)
  {
    if ds == [] {
    } else {
      var next := AnyOf(env, ds[0].alternatives, st);
      JudgeMarks(env, ds[1..], next.st);
      AnyOfReplay(env, env', ds[0].alternatives, st, st');
      JudgeReplay(env, env', ds[1..], next.st, AnyOf(env', ds[0].alternatives, st').st);
    }
  }

  /** A transaction refused only for carrying irrelevant signatures is accepted with exactly the
      signatures its verification used. */
  lemma DroppingUnusedIsAccepted(req: Required, sigs: set<PublicKey>, g: Getters, limits: Limits) returns (kept: set<PublicKey>)
    requires Verify(req, sigs, g, limits) == Rejected(IrrelevantSignature)
    ensures kept < sigs
    ensures Verify(req, kept, g, limits) == Accepted
  {
    var env, ds := EnvFor(req, g, limits, {}), Demands(req, g);
    FailureIsMissing(env, req, g, ds, Start(sigs, {}));
    kept := Used(Judge(env, ds, Start(sigs, {})).st.provided);
    JudgeKeepsKeys(env, ds, Start(sigs, {}));
    assert kept <= sigs;
    JudgeReplay(env, env, ds, Start(sigs, {}), Start(kept, {}));
  }

  // ----- Which of the available keys must sign -----

  function NameQueries(ids: seq<AccountName>): seq<Query> {
    seq(|ids|, i requires 0 <= i < |ids| => ByName(ids[i]))
  }

  function OwnerQueries(g: Getters, ids: seq<AccountName>): seq<Query> {
    seq(|ids|, i requires 0 <= i < |ids| => ByAuthority(g.owner(ids[i])))
  }

  function OtherQueries(auths: seq<Authority>): seq<Query> {
    seq(|auths|, i requires 0 <= i < |auths| => ByAuthority(auths[i]))
  }

  function Queries(req: Required, g: Getters): seq<Query> {
    if req.posting != [] then NameQueries(req.posting)
    else OtherQueries(req.other) + OwnerQueries(g, req.owner) + NameQueries(req.active)
  }

  datatype KeysResult = Keys(keys: set<PublicKey>) | Error(failure: Failure)

  /** Every check is made whatever the others answer. */
  method AskAll(s: SignState, qs: seq<Query>)
    modifies s`provided, s`approvedBy
    ensures s.Snapshot(0) == Run(old(s.Reading()), qs, old(s.Snapshot(0))).st
  {
    ghost var env, final := s.Reading(), Run(s.Reading(), qs, s.Snapshot(0)).st;
    for i := 0 to |qs|
      invariant s.Reading() == env && final == Run(env, qs[i..], s.Snapshot(0)).st
    {
      assert qs[i..][1..] == qs[i + 1..];
      var ok;
      match qs[i] {
        case ByName(id) => ok := s.CheckAccount(id);
        case ByAuthority(auth) => ok := s.CheckAuthority(auth, 0, 0);
      }
    }
  }

  /** The marks that the checks leave tell which keys were needed. */
  method GetRequiredSignatures(req: Required, sigs: set<PublicKey>, available: set<PublicKey>, g: Getters, limits: Limits)
    returns (r: KeysResult)
    ensures r.Error? <==> req.posting != [] && (req.owner != [] || req.active != [])
    ensures r.Error? ==> r.failure == MixedAuthorities
    ensures r.Keys? ==>
              r.keys == available * Used(Run(EnvFor(req, g, limits, available), Queries(req, g), Start(sigs, {})).st.provided)
  {
    if req.posting != [] && (req.owner != [] || req.active != []) {
      return Error(MixedAuthorities);
    }
    var s := new SignState(sigs, if req.posting != [] then g.posting else g.active, available);
    s.maxRecursion, s.maxMembership, s.maxAccountAuths := limits.recursion, limits.membership, limits.accountAuths;
    AskAll(s, Queries(req, g));
    var removed := s.RemoveUnusedSignatures();
    return Keys(set k | k in s.provided && k in available);
  }

  /** Once the required keys have signed too, no available key is needed any more: every check
      gives the answer it gave when all available keys could still be added. */
  lemma RequiredKeysSuffice(req: Required, sigs: set<PublicKey>, available: set<PublicKey>, g: Getters, limits: Limits)
    ensures var env := EnvFor(req, g, limits, available);
            var run := Run(env, Queries(req, g), Start(sigs, {}));
            var signed := sigs + available * Used(run.st.provided);
            Run(EnvFor(req, g, limits, {}), Queries(req, g), Start(signed, {})).answers == run.answers
  {
    var env := EnvFor(req, g, limits, available);
    var used := Used(Run(env, Queries(req, g), Start(sigs, {})).st.provided);
    var m := StartLedger(env, sigs, {});
    ApprovedIsLeastClosed(m);
    RunSound(m, env, Queries(req, g), Start(sigs, {}));
    SessionReplay(env, EnvFor(req, g, limits, {}), sigs, sigs + available * used, {}, Queries(req, g));
  }

  // ----- Minimization -----

  /** Tries to do without each key in turn. A trial that passes keeps the key out, one that
      misses an authority puts it back, and any other rejection aborts the minimization. */
  method MinimizeSignatures(req: Required, start: set<PublicKey>, g: Getters, limits: Limits) returns (r: KeysResult)
    ensures r.Keys? ==> r.keys <= start && (r.keys == start || Verify(req, r.keys, g, limits).Accepted?)
    ensures r.Keys? && Antitone(req, g, limits, start) ==>
              forall k :: k in r.keys ==> Verify(req, r.keys - {k}, g, limits).Missing()
    ensures r.Error? ==> !r.failure.Missing()
    ensures r.Error? ==> exists trial :: trial < start && Verify(req, trial, g, limits) == Rejected(r.failure)
  {
    var result, rest := start, start;
    while rest != {}
      invariant rest <= result <= start
      invariant result == start || Verify(req, result, g, limits).Accepted?
      invariant Antitone(req, g, limits, start) ==>
                  forall k :: k in result - rest ==> Verify(req, result - {k}, g, limits).Missing()
      decreases rest
    {
      var k :| k in rest;
      rest := rest - {k};
      var outcome := VerifyAuthority(req, result - {k}, g, limits);
      if outcome.Accepted? {
        ghost var before := result;
        result := result - {k};
        forall x | Antitone(req, g, limits, start) && x in result - rest
          ensures Verify(req, result - {x}, g, limits).Missing()
        {
          assert x in before - (rest + {k});
          assert result - {x} <= before - {x} <= start;
        }
      } else if !outcome.Missing() {
        assert result - {k} < start;
        return Error(outcome.failure);
      }
    }
    return Keys(result);
  }

  /** The whole of signature minimization: the starting set is found under the default limits. */
  method MinimizeRequiredSignatures(req: Required, sigs: set<PublicKey>, available: set<PublicKey>, g: Getters, limits: Limits)
    returns (r: KeysResult)
    ensures var start := available * Used(Run(EnvFor(req, g, DEFAULT_LIMITS.(recursion := limits.recursion), available),
                                              Queries(req, g), Start(sigs, {})).st.provided);
            && (r.Keys? ==> r.keys <= start)
            && (r.Keys? && Verify(req, start, g, limits).Accepted? ==> Verify(req, r.keys, g, limits).Accepted?)
            && (r.Keys? && Antitone(req, g, limits, start) ==>
                  forall k :: k in r.keys ==> Verify(req, r.keys - {k}, g, limits).Missing())
            && (r.Error? ==> && !r.failure.Missing()
                             && (|| (r.failure == MixedAuthorities && req.posting != [] && (req.owner != [] || req.active != []))
                                 || exists trial :: trial < start && Verify(req, trial, g, limits) == Rejected(r.failure)))
    ensures req.posting != [] && (req.owner != [] || req.active != []) ==> r == Error(MixedAuthorities)
  {
    r := GetRequiredSignatures(req, sigs, available, g, DEFAULT_LIMITS.(recursion := limits.recursion));
    if r.Keys? {
      r := MinimizeSignatures(req, r.keys, g, limits);
    }
  }
}
