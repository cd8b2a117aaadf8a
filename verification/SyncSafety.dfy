/**
 What every step of a sync keeps: no block is requested or held twice, and the global list of requests
 is accounted for to the last entry.
 */
module SyncSafety {
  import opened BlockIds
  import opened SyncPeers
  import opened SyncStates
  import opened Lists

  // ----- The backlog -----

  ghost predicate SameRequests(s: State, s': State) {
    && s'.requests == s.requests && s'.peers.Keys == s.peers.Keys
    && forall p :: p in s.peers ==> s'.peers[p].requested == s.peers[p].requested
  }

  ghost function Held(s: State): multiset<BlockId> {
    multiset(s.arrived + s.received)
  }

  /** No block is lost and none invented: what is no longer held is in the chain's hands. */
  ghost predicate Conserves(s: State, r: State) {
    && s.handling <= r.handling && SameRequests(s, r)
    && Held(s) == Held(r) + multiset(r.handling[|s.handling|..])
  }

  lemma ConservesOn(s: State, m: State, r: State)
    requires Conserves(s, m) && Conserves(m, r)
    ensures Conserves(s, r)
  {
    assert r.handling[|s.handling|..] == m.handling[|s.handling|..] + r.handling[|m.handling|..];
  }

  lemma MergedConserves(s: State)
    ensures Conserves(s, Merged(s)) && Merged(s).arrived == []
    ensures |Merged(s).received| == |s.arrived| + |s.received|
  {
    ReversedKeeps(s.arrived);
    assert [] + Merged(s).received == Reversed(s.arrived) + s.received;
  }

  lemma PopConserves(m: State, id: BlockId)
    ensures SameRequests(m, PopAll(m, id))
  {
  }

  lemma PassConserves(m: State, k: nat)
    requires k < |m.received|
    ensures Conserves(m, Pass(m, k))
    ensures Pass(m, k).arrived == m.arrived && |Pass(m, k).received| == |m.received| - 1
  {
    var id := m.received[k];
    PopConserves(m, id);
    assert m.arrived + m.received == m.arrived + m.received[..k] + [id] + m.received[k + 1..];
    assert m.arrived + (m.received[..k] + m.received[k + 1..]) == m.arrived + m.received[..k] + m.received[k + 1..];
    assert (m.handling + [id])[|m.handling|..] == [id];
  }

  lemma SettleConserves(m: State, id: BlockId)
    ensures Conserves(m, SettleAll(PopAll(m, id), id))
    ensures SettleAll(PopAll(m, id), id).arrived == m.arrived
  {
    PopConserves(m, id);
    var n := PopAll(m, id);
    hide Popped, IsNext;
    assert SameRequests(n, SettleAll(n, id));
  }

  lemma PauseConserves(m: State, limits: Limits)
    ensures Conserves(m, Pause(m, limits)) && Pause(m, limits).arrived == m.arrived
  {
  }

  /** Working off the backlog conserves blocks and leaves the requests alone. */
  lemma {:induction false} DrainConserves(s: State, limits: Limits, accepted: set<BlockId>)
    ensures Conserves(s, Drain(s, limits, accepted)) && Drain(s, limits, accepted).arrived == []
    decreases |s.arrived| + |s.received|
  {
    hide Conserves, Merged, Pass, PopAll, SettleAll, Pause;
    MergedConserves(s);
    var m := Merged(s);
    var k := FirstReady(m, 0);
    if k == |m.received| {
      PauseConserves(m, limits);
      ConservesOn(s, m, Pause(m, limits));
    } else if m.received[k] in accepted {
      var n := SettleAll(PopAll(m, m.received[k]), m.received[k]);
      SettleConserves(m, m.received[k]);
      ConservesOn(s, m, n);
      PauseConserves(n, limits);
      ConservesOn(s, n, Pause(n, limits));
    } else {
      PassConserves(m, k);
      var next := Pass(m, k);
      ConservesOn(s, m, next);
      if |next.handling| >= limits.handling {
        PauseConserves(next, limits);
        ConservesOn(s, next, Pause(next, limits));
      } else {
        DrainConserves(next, limits, accepted);
        ConservesOn(s, next, Drain(next, limits, accepted));
      }
    }
  }

  // ----- One step keeps the requests apart -----

  lemma BacklogIsSafe(s: State, limits: Limits, accepted: set<BlockId>, finished: set<BlockId>)
    requires Safe(s)
    ensures Safe(Backlogged(s, limits, accepted, finished))
    ensures SameRequests(s, Backlogged(s, limits, accepted, finished))
  {
    var t := s.(handling := Unfinished(s.handling, finished));
    if |t.handling| < limits.handling {
      var u := t.(suspended := false);
      DrainConserves(u, limits, accepted);
      var r := Drain(u, limits, accepted);
      FewerStayDistinct(r.arrived + r.received, s.arrived + s.received);
    }
  }

  lemma FetchIsSafe(s: State, plan: Plan, limit: nat)
    requires Safe(s) && PlanIsSound(s, plan, limit)
    ensures Safe(Asked(s, plan))
  {
    var r := Asked(s, plan);
    forall p, q | p in r.peers && q in r.peers && p != q
      ensures r.peers[p].requested !! r.peers[q].requested
    {
      assert Items(PlanFor(plan, p)) !! Items(PlanFor(plan, q));
      assert s.peers[p].requested !! Items(PlanFor(plan, q));
      assert s.peers[q].requested !! Items(PlanFor(plan, p));
    }
    assert Buffered(r) == Buffered(s);
  }

  lemma ReceiveIsSafe(s: State, p: PeerId, id: BlockId)
    requires Safe(s) && p in s.peers
    ensures Safe(Delivered(s, p, id))
  {
    var r := Delivered(s, p, id);
    if id in s.peers[p].requested {
      assert r.arrived + r.received == [id] + (s.arrived + s.received);
      assert id !in s.arrived + s.received;
      assert Buffered(r) == Buffered(s) + {id};
    }
  }

  lemma CloseIsSafe(s: State, p: PeerId)
    requires Safe(s) && p in s.peers
    ensures Safe(Closed(s, p))
  {
    var r := Closed(s, p);
    forall q | q in r.peers
      ensures r.peers[q].requested <= r.requests
    {
      assert s.peers[q].requested !! s.peers[p].requested;
    }
  }

  lemma SameRequestsAreSafe(s: State, s': State)
    requires Safe(s) && SameRequests(s, s') && s'.arrived == s.arrived && s'.received == s.received
    ensures Safe(s')
  {
  }

  lemma ListingKeepsRequests(s: State, p: PeerId, reply: seq<BlockId>, remaining: nat, seen: set<BlockId>, s': State)
    requires p in s.peers && IsListed(s, p, reply, remaining, seen, s')
    ensures SameRequests(s, s') && s'.arrived == s.arrived && s'.received == s.received
  {
    hide IsMerged, ValidReply, SaysUpToDate, IsFirstElsewhere;
    var peer := s.peers[p];
    if peer.asked.Some? && ValidReply(peer.asked.value, reply) && !SaysUpToDate(peer, reply, remaining, seen) {
      var ids, dropped :| IsMergedPeer(s, p, reply, remaining, seen, ids, dropped, s');
    } else {
      hide IsMergedPeer;
    }
  }

  lemma NotAvailableIsSafe(s: State, p: PeerId, id: BlockId)
    requires Safe(s) && p in s.peers
    ensures Safe(Refused(s, p, id))
  {
  }

  lemma ConnectIsSafe(s: State, p: PeerId)
    requires Safe(s) && p !in s.peers
    ensures Safe(Update(s, p, NEW_PEER))
  {
  }

  /** Every step keeps the requests apart. */
  lemma SafeStep(s: State, e: Event, s': State)
    requires Safe(s) && Next(s, e, s')
    ensures Safe(s')
  {
    hide Safe, PlanIsSound, PlanIsComplete, Asked, Delivered, Refused, Closed, Backlogged, IsListed;
    match e
    case Connect(p) => ConnectIsSafe(s, p);
    case Fetch(plan, limit) =>
      if !s.suspended {
        FetchIsSafe(s, plan, limit);
      }
    case Receive(p, id) => ReceiveIsSafe(s, p, id);
    case NotAvailable(p, id) => NotAvailableIsSafe(s, p, id);
    case Close(p) => CloseIsSafe(s, p);
    case Backlog(limits, accepted, finished) => BacklogIsSafe(s, limits, accepted, finished);
    case Inventory(p, reply, remaining, seen) =>
      ListingKeepsRequests(s, p, reply, remaining, seen, s');
      SameRequestsAreSafe(s, s');
    case Restart(p) => SameRequestsAreSafe(s, s');
    case Other(p, peer) => SameRequestsAreSafe(s, s');
  }

  // ----- Accounting for the requests -----

  /** The blocks a step gives up on without a trace in any peer. */
  ghost function Lost(s: State, e: Event): set<BlockId> {
    if e.NotAvailable? && e.p in s.peers && e.id in s.peers[e.p].requested then {e.id} else {}
  }

  /** The global list holds what peers are to send, and what was lost. */
  ghost predicate Accounted(s: State, lost: set<BlockId>) {
    s.requests == Outstanding(s) + lost && Outstanding(s) !! lost
  }

  lemma SameOutstanding(s: State, s': State)
    requires SameRequests(s, s')
    ensures Outstanding(s') == Outstanding(s)
  {
    assert Outstanding(s') <= Outstanding(s) by {
      forall x | x in Outstanding(s')
        ensures x in Outstanding(s)
      {
        var p :| p in s'.peers && x in s'.peers[p].requested;
        assert p in s.peers && x in s.peers[p].requested;
      }
    }
    forall x | x in Outstanding(s)
      ensures x in Outstanding(s')
    {
      var p :| p in s.peers && x in s.peers[p].requested;
      assert p in s'.peers && x in s'.peers[p].requested;
    }
  }

  lemma AskedOutstanding(s: State, plan: Plan, limit: nat)
    requires PlanIsSound(s, plan, limit)
    ensures Outstanding(Asked(s, plan)) == Outstanding(s) + Planned(plan)
  {
    var r := Asked(s, plan);
    forall x | x in Outstanding(s) + Planned(plan)
      ensures x in Outstanding(r)
    {
      if x in Outstanding(s) {
        var p :| p in s.peers && x in s.peers[p].requested;
        assert p in r.peers && x in r.peers[p].requested;
      } else {
        var p :| p in plan && x in plan[p];
        assert p in r.peers && x in r.peers[p].requested;
      }
    }
    forall x | x in Outstanding(r)
      ensures x in Outstanding(s) + Planned(plan)
    {
      var p :| p in r.peers && x in r.peers[p].requested;
      if x !in s.peers[p].requested {
        assert p in plan && x in plan[p];
      }
    }
  }

  /** Taking a set of blocks away from one peer takes them out of circulation. */
  lemma LessOutstanding(s: State, s': State, p: PeerId, gone: set<BlockId>)
    requires Safe(s) && p in s.peers && gone <= s.peers[p].requested
    requires forall q :: q in s'.peers ==> q in s.peers
    requires forall q :: q in s.peers && q != p ==> q in s'.peers && s'.peers[q].requested == s.peers[q].requested
    requires if p in s'.peers then s'.peers[p].requested == s.peers[p].requested - gone else gone == s.peers[p].requested
    ensures Outstanding(s') == Outstanding(s) - gone && gone <= Outstanding(s)
  {
    forall x | x in Outstanding(s')
      ensures x in Outstanding(s) && x !in gone
    {
      var q :| q in s'.peers && x in s'.peers[q].requested;
      assert q in s.peers && x in s.peers[q].requested;
      assert q != p ==> s.peers[q].requested !! s.peers[p].requested;
    }
    forall x | x in Outstanding(s) && x !in gone
      ensures x in Outstanding(s')
    {
      var q :| q in s.peers && x in s.peers[q].requested;
      assert q in s'.peers && x in s'.peers[q].requested;
    }
  }

  lemma SameAccount(s: State, s': State, lost: set<BlockId>)
    requires Accounted(s, lost) && SameRequests(s, s')
    ensures Accounted(s', lost)
  {
    SameOutstanding(s, s');
  }

  lemma ConnectAccount(s: State, p: PeerId, lost: set<BlockId>)
    requires Accounted(s, lost) && p !in s.peers
    ensures Accounted(Update(s, p, NEW_PEER), lost)
  {
    var r := Update(s, p, NEW_PEER);
    forall x
      ensures x in Outstanding(r) <==> x in Outstanding(s)
    {
      if x in Outstanding(s) {
        var q :| q in s.peers && x in s.peers[q].requested;
        assert q in r.peers && x in r.peers[q].requested;
      }
    }
  }

  lemma FetchAccount(s: State, plan: Plan, limit: nat, lost: set<BlockId>)
    requires Accounted(s, lost) && PlanIsSound(s, plan, limit)
    ensures Accounted(Asked(s, plan), lost)
  {
    AskedOutstanding(s, plan, limit);
    assert Planned(plan) !! s.requests;
    assert Asked(s, plan).requests == s.requests + Planned(plan);
    hide Asked, Outstanding, Planned, PlanIsSound;
  }

  lemma ReceiveAccount(s: State, p: PeerId, id: BlockId, lost: set<BlockId>)
    requires Safe(s) && Accounted(s, lost) && p in s.peers
    ensures Accounted(Delivered(s, p, id), lost)
  {
    LessOutstanding(s, Delivered(s, p, id), p, if id in s.peers[p].requested then {id} else {});
  }

  lemma NotAvailableAccount(s: State, p: PeerId, id: BlockId, lost: set<BlockId>)
    requires Safe(s) && Accounted(s, lost) && p in s.peers
    ensures Accounted(Refused(s, p, id), lost + Lost(s, NotAvailable(p, id)))
  {
    LessOutstanding(s, Refused(s, p, id), p, if id in s.peers[p].requested then {id} else {});
  }

  lemma CloseAccount(s: State, p: PeerId, lost: set<BlockId>)
    requires Safe(s) && Accounted(s, lost) && p in s.peers
    ensures Accounted(Closed(s, p), lost)
  {
    LessOutstanding(s, Closed(s, p), p, s.peers[p].requested);
  }

  /** Every step keeps the books: only a block reported missing is lost. */
  lemma AccountedStep(s: State, e: Event, s': State, lost: set<BlockId>)
    requires Safe(s) && Accounted(s, lost) && Next(s, e, s')
    ensures Accounted(s', lost + Lost(s, e))
  {
    hide Safe, Accounted, PlanIsSound, PlanIsComplete, Asked, Delivered, Refused, Closed, Backlogged, IsListed;
    assert !e.NotAvailable? ==> lost + Lost(s, e) == lost;
    match e
    case Connect(p) => ConnectAccount(s, p, lost);
    case Fetch(plan, limit) =>
      if !s.suspended {
        FetchAccount(s, plan, limit, lost);
      }
    case Receive(p, id) => ReceiveAccount(s, p, id, lost);
    case NotAvailable(p, id) => NotAvailableAccount(s, p, id, lost);
    case Close(p) => CloseAccount(s, p, lost);
    case Backlog(limits, accepted, finished) =>
      BacklogIsSafe(s, limits, accepted, finished);
      SameAccount(s, s', lost);
    case Inventory(p, reply, remaining, seen) =>
      ListingKeepsRequests(s, p, reply, remaining, seen, s');
      SameAccount(s, s', lost);
    case Restart(p) => SameAccount(s, s', lost);
    case Other(p, peer) => SameAccount(s, s', lost);
  }
}
