/**
 Verifying the signatures of a transaction, whose operations are represented by the authorities they
 require.
 */
module TransactionAuthority {
  import opened Words
  import opened Authorities
  import opened AuthorityCheck
  import opened CheckSession
  import opened SignStates

  datatype Required = Required(active: seq<AccountName>,
                               owner: seq<AccountName>,
                               posting: seq<AccountName>,
                               other: seq<Authority>)

  datatype Getters = Getters(active: AuthorityGetter, owner: AuthorityGetter, posting: AuthorityGetter)

  datatype Limits = Limits(recursion: Uint32, membership: Uint32, accountAuths: Uint32)

  datatype Failure = MissingPosting | MissingActive | MissingOwner | MissingOther | IrrelevantSignature | MixedAuthorities {
    /** The failures that signature minimization catches; the others escape it. */
    predicate Missing() {
      !IrrelevantSignature? && !MixedAuthorities?
    }
  }

  datatype Outcome = Accepted | Rejected(failure: Failure) {
    predicate Missing() {
      Rejected? && failure.Missing()
    }
  }

  const DEFAULT_LIMITS := Limits(2, 40, 125)

  /** One requirement: any of the alternatives, tried in order, satisfies it. */
  datatype Demand = Demand(alternatives: seq<Query>, failure: Failure)

  datatype Judgement = Passed(st: State) | Failed(failure: Failure)

  function PostingDemand(g: Getters, id: AccountName): Demand {
    Demand([ByName(id), ByAuthority(g.active(id)), ByAuthority(g.owner(id))], MissingPosting)
  }

  function OtherDemand(auth: Authority): Demand {
    Demand([ByAuthority(auth)], MissingOther)
  }

  function ActiveDemand(g: Getters, id: AccountName): Demand {
    Demand([ByName(id), ByAuthority(g.owner(id))], MissingActive)
  }

  function OwnerDemand(g: Getters, id: AccountName): Demand {
    Demand([ByAuthority(g.owner(id))], MissingOwner)
  }

  function PostingDemands(g: Getters, ids: seq<AccountName>): seq<Demand> {
    seq(|ids|, i requires 0 <= i < |ids| => PostingDemand(g, ids[i]))
  }

  function OtherDemands(auths: seq<Authority>): seq<Demand> {
    seq(|auths|, i requires 0 <= i < |auths| => OtherDemand(auths[i]))
  }

  function ActiveDemands(g: Getters, ids: seq<AccountName>): seq<Demand> {
    seq(|ids|, i requires 0 <= i < |ids| => ActiveDemand(g, ids[i]))
  }

  function OwnerDemands(g: Getters, ids: seq<AccountName>): seq<Demand> {
    seq(|ids|, i requires 0 <= i < |ids| => OwnerDemand(g, ids[i]))
  }

  function Demands(req: Required, g: Getters): seq<Demand> {
    if req.posting != [] then PostingDemands(g, req.posting)
    else OtherDemands(req.other) + ActiveDemands(g, req.active) + OwnerDemands(g, req.owner)
  }

  function EnvFor(req: Required, g: Getters, limits: Limits, available: set<PublicKey>): Env {
    Env(if req.posting != [] then g.posting else g.active,
        available, limits.recursion, limits.membership, limits.accountAuths)
  }

  function AnyOf(env: Env, qs: seq<Query>, st: State): Verdict {
    if qs == [] then Verdict(false, st)
    else
      var first := Pose(env, qs[0], st);
      if first.ok then first else AnyOf(env, qs[1..], first.st)
  }

  function Judge(env: Env, ds: seq<Demand>, st: State): Judgement {
    if ds == [] then Passed(st)
    else
      var first := AnyOf(env, ds[0].alternatives, st);
      if first.ok then Judge(env, ds[1..], first.st) else Failed(ds[0].failure)
  }

  predicate Mixed(req: Required) {
    req.posting != [] && (req.active != [] || req.owner != [] || req.other != [])
  }

  function Verify(req: Required, sigs: set<PublicKey>, g: Getters, limits: Limits): Outcome {
    if Mixed(req) then Rejected(MixedAuthorities)
    else
      match Judge(EnvFor(req, g, limits, {}), Demands(req, g), Start(sigs, {}))
      case Failed(failure) => Rejected(failure)
      case Passed(st) => if Used(st.provided) == sigs then Accepted else Rejected(IrrelevantSignature)
  }

  /** Tries the alternatives in order and stops at the first that holds. */
  method MeetAny(s: SignState, qs: seq<Query>) returns (ok: bool)
    modifies s`provided, s`approvedBy
    ensures AnyOf(old(s.Reading()), qs, old(s.Snapshot(0))) == Verdict(ok, s.Snapshot(0))
  {
    ghost var env, r := s.Reading(), AnyOf(s.Reading(), qs, s.Snapshot(0));
    for i := 0 to |qs|
      invariant s.Reading() == env && r == AnyOf(env, qs[i..], s.Snapshot(0))
    {
      assert qs[i..][1..] == qs[i + 1..];
      match qs[i] {
        case ByName(id) => ok := s.CheckAccount(id);
        case ByAuthority(auth) => ok := s.CheckAuthority(auth, 0, 0);
      }
      if ok {
        return;
      }
    }
    ok := false;
  }

  /** Meets the demands in order and stops at the first that cannot be met. */
  method MeetAll(s: SignState, ds: seq<Demand>) returns (met: bool, failure: Failure)
    modifies s`provided, s`approvedBy
    ensures Judge(old(s.Reading()), ds, old(s.Snapshot(0))) == if met then Passed(s.Snapshot(0)) else Failed(failure)
  {
    ghost var env, r := s.Reading(), Judge(s.Reading(), ds, s.Snapshot(0));
    for i := 0 to |ds|
      invariant s.Reading() == env && r == Judge(env, ds[i..], s.Snapshot(0))
    {
      assert ds[i..][1..] == ds[i + 1..];
      var ok := MeetAny(s, ds[i].alternatives);
      if !ok {
        return false, ds[i].failure;
      }
    }
    return true, MissingOther;
  }

  method VerifyAuthority(req: Required, sigs: set<PublicKey>, g: Getters, limits: Limits) returns (outcome: Outcome)
    ensures outcome == Verify(req, sigs, g, limits)
  {
    if Mixed(req) {
      return Rejected(MixedAuthorities);
    }
    var s := new SignState(sigs, if req.posting != [] then g.posting else g.active, {});
    s.maxRecursion, s.maxMembership, s.maxAccountAuths := limits.recursion, limits.membership, limits.accountAuths;
    ghost var st := s.Snapshot(0);
    var met, failure := MeetAll(s, Demands(req, g));
    if !met {
      return Rejected(failure);
    }
    JudgeKeepsKeys(EnvFor(req, g, limits, {}), Demands(req, g), st);
    var irrelevant := s.RemoveUnusedSignatures();
    return if irrelevant then Rejected(IrrelevantSignature) else Accepted;
  }

  lemma {:induction false} JudgeKeepsKeys(env: Env, ds: seq<Demand>, st: State)
    requires env.available == {}
    ensures var r := Judge(env, ds, st); r.Passed? ==> r.st.provided.Keys == st.provided.Keys
  {
    if ds == [] {
    } else {
      KeysKept(env, ds[0].alternatives, st);
      JudgeKeepsKeys(env, ds[1..], AnyOf(env, ds[0].alternatives, st).st);
    }
  }

  lemma {:induction false} KeysKept(env: Env, qs: seq<Query>, st: State)
    requires env.available == {}
    ensures AnyOf(env, qs, st).st.provided.Keys == st.provided.Keys
  {
    if qs == [] {
    } else {
      AskKeepsSigners(env, qs[0], st);
      KeysKept(env, qs[1..], Pose(env, qs[0], st).st);
    }
  }

  lemma AskKeepsSigners(env: Env, q: Query, st: State)
    ensures Signers(env, Ask(env, q, st).st.provided) == Signers(env, st.provided)
    ensures st.approvedBy <= Ask(env, q, st).st.approvedBy
  {
    var m := LedgerOf(env, st, st.approvedBy);
    ApprovedIsLeastClosed(m);
    AskSound(m, env, q, st);
  }
}
