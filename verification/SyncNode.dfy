/**
 The node that syncs: its bookkeeping changes in place, one step at a time.
 */
module SyncNodes {
  import opened BlockIds
  import opened SyncPeers
  import opened SyncStates
  import opened SyncOrder
  import opened Options
  import opened Lists

  function Extended(plan: Plan, p: PeerId, items: seq<BlockId>): Plan {
    if items == [] then plan else plan[p := items]
  }

  /** Blocks off a list that are not taken yet, from the front, up to the limit. */
  ghost predicate IsPick(ids: seq<BlockId>, taken: set<BlockId>, limit: nat, items: seq<BlockId>, n: nat) {
    && Distinct(items) && |items| <= Cap(limit)
    && n <= |ids| && (n == |ids| || |items| == Cap(limit))
    && (forall x :: x in items ==> x in ids[..n] && x !in taken)
    && (forall k :: 0 <= k < n ==> ids[k] in taken || ids[k] in items)
  }

  ghost function Taken(s: State, plan: Plan): set<BlockId> {
    Planned(plan) + s.requests + Buffered(s)
  }

  lemma NothingPlanned(s: State, limit: nat)
    ensures PlanIsSound(s, map[], limit) && Planned(map[]) == {}
  {
  }

  lemma PlannedOneMore(plan: Plan, p: PeerId, items: seq<BlockId>)
    requires p !in plan
    ensures Planned(plan[p := items]) == Planned(plan) + Items(items)
  {
    var more := plan[p := items];
    forall x | x in Planned(plan) + Items(items)
      ensures x in Planned(more)
    {
      if x in items {
        assert p in more && x in more[p];
      } else {
        var q :| q in plan && x in plan[q];
        assert q in more && x in more[q];
      }
    }
  }

  lemma ExtendedPlanned(plan: Plan, p: PeerId, items: seq<BlockId>)
    requires p !in plan
    ensures Planned(Extended(plan, p, items)) == Planned(plan) + Items(items)
  {
    PlannedOneMore(plan, p, items);
  }

  lemma PickIsSound(s: State, plan: Plan, limit: nat, p: PeerId, items: seq<BlockId>, n: nat)
    requires p in s.peers && Eligible(s.peers[p])
    requires IsPick(s.peers[p].ids, Taken(s, plan), limit, items, n) && items != []
    ensures LotIsSound(s, limit, p, items)
    ensures Items(items) !! Planned(plan)
  {
    hide Eligible;
    forall x | x in items
      ensures x in s.peers[p].ids && x !in s.requests && x !in Buffered(s) && x !in Planned(plan)
    {
      assert x in s.peers[p].ids[..n] && x !in Taken(s, plan);
    }
  }

  lemma ExtendedIsSound(s: State, plan: Plan, limit: nat, p: PeerId, items: seq<BlockId>, n: nat)
    requires PlanIsSound(s, plan, limit) && p in s.peers && Eligible(s.peers[p]) && p !in plan
    requires IsPick(s.peers[p].ids, Taken(s, plan), limit, items, n)
    ensures PlanIsSound(s, Extended(plan, p, items), limit)
  {
    if items != [] {
      PickIsSound(s, plan, limit, p, items, n);
      hide IsPick, LotIsSound;
      assert forall q :: q in plan ==> Items(plan[q]) <= Planned(plan);
    }
  }

  lemma ExtendedExhausts(s: State, plan: Plan, limit: nat, p: PeerId, items: seq<BlockId>, n: nat)
    requires p in s.peers && p !in plan
    requires IsPick(s.peers[p].ids, Taken(s, plan), limit, items, n)
    ensures Exhausts(s, Extended(plan, p, items), limit, p, n)
    ensures forall q, m: nat :: q in s.peers && q != p && Exhausts(s, plan, limit, q, m) ==>
              Exhausts(s, Extended(plan, p, items), limit, q, m)
  {
    ExtendedPlanned(plan, p, items);
    hide Planned;
  }

  function AskOne(s: State, p: PeerId, items: seq<BlockId>): State
    requires p in s.peers
  {
    Update(s, p, Ask(s.peers[p], items)).(requests := s.requests + Items(items))
  }

  lemma AskedNone(s: State)
    ensures Asked(s, map[]) == s
  {
    assert Planned(map[]) == {};
    assert forall p :: p in s.peers ==> Ask(s.peers[p], []).requested == s.peers[p].requested;
    assert Asked(s, map[]).peers == s.peers;
  }

  lemma AskTwice(peer: Peer, items: seq<BlockId>, more: seq<BlockId>)
    ensures Ask(Ask(peer, items), more) == Ask(peer, items + more)
  {
    assert Items(items + more) == Items(items) + Items(more);
    assert peer.requested + Items(items) + Items(more) == peer.requested + Items(items + more);
  }

  lemma AskedPeers(s: State, plan: Plan)
    ensures var r := Asked(s, plan);
            && r.peers.Keys == s.peers.Keys && r.requests == s.requests + Planned(plan)
            && r == s.(peers := r.peers, requests := r.requests)
            && forall q :: q in s.peers ==> r.peers[q] == Ask(s.peers[q], PlanFor(plan, q))
  {
  }

  lemma AskedOneMore(s: State, done: Plan, p: PeerId, items: seq<BlockId>)
    requires p in s.peers && p !in done
    ensures p in Asked(s, done).peers && AskOne(Asked(s, done), p, items) == Asked(s, done[p := items])
  {
    hide Planned, Asked, Ask;
    AskedPeers(s, done);
    AskedPeers(s, done[p := items]);
    var one, all := AskOne(Asked(s, done), p, items), Asked(s, done[p := items]);
    assert one.requests == all.requests by {
      PlannedOneMore(done, p, items);
    }
    assert Ask(Ask(s.peers[p], []), items) == Ask(s.peers[p], items) by {
      AskTwice(s.peers[p], [], items);
      assert [] + items == items;
    }
    hide Items;
    assert one.peers == all.peers;
  }

  lemma AskNone(s: State, p: PeerId)
    requires p in s.peers
    ensures AskOne(s, p, []) == s
  {
    assert Ask(s.peers[p], []).requested == s.peers[p].requested;
    assert AskOne(s, p, []).peers == s.peers;
  }

  lemma AskOnceMore(s: State, p: PeerId, items: seq<BlockId>, id: BlockId)
    requires p in s.peers
    ensures AskOne(AskOne(s, p, items), p, [id]) == AskOne(s, p, items + [id])
  {
    assert Items(items + [id]) == Items(items) + Items([id]);
    AskTwice(s.peers[p], items, [id]);
  }

  lemma NotReadyKeeps(s: State, id: BlockId)
    requires !Ready(s, id)
    ensures PopAll(s, id) == s
  {
    assert PopAll(s, id).peers == s.peers;
  }

  class SyncNode {
    var peers: map<PeerId, Peer>
    var requests: set<BlockId>
    var arrived: seq<BlockId>
    var received: seq<BlockId>
    var handling: seq<BlockId>
    var suspended: bool

    function Value(): State
      reads this
    {
      State(peers, requests, arrived, received, handling, suspended)
    }

    constructor ()
      ensures Value() == START
    {
      peers, requests, arrived, received, handling, suspended := map[], {}, [], [], [], false;
    }

    method OnConnect(p: PeerId)
      requires p !in peers
      modifies this
      ensures Next(old(Value()), Connect(p), Value())
      ensures peers == old(peers)[p := Peer(false, true, true, false, false, None, 0, BlockId(0, 0), [], {}, {})]
    {
      peers := peers[p := NEW_PEER];
    }

    // ----- Fetching -----

    method Pick(ids: seq<BlockId>, taken: set<BlockId>, limit: nat) returns (items: seq<BlockId>)
      ensures exists n :: IsPick(ids, taken, limit, items, n)
    {
      items := [];
      var i := 0;
      while i < |ids|
        invariant i <= |ids|
        invariant Distinct(items) && |items| < Cap(limit)
        invariant forall x :: x in items ==> x in ids[..i] && x !in taken
        invariant forall k :: 0 <= k < i ==> ids[k] in taken || ids[k] in items
      {
        var id := ids[i];
        i := i + 1;
        if id !in taken && id !in items {
          items := items + [id];
          if |items| >= limit {
            assert IsPick(ids, taken, limit, items, i);
            return;
          }
        }
      }
      assert IsPick(ids, taken, limit, items, i);
    }

    /** Schedules requests, going through the active peers in the given order. */
    method Schedule(order: seq<PeerId>, limit: nat) returns (plan: Plan)
      requires forall p :: p in order <==> p in peers && peers[p].active
      ensures IsPlan(Value(), plan, limit)
    {
      hide PlanIsSound, Exhausts, Planned, IsPick;
      plan := map[];
      NothingPlanned(Value(), limit);
      var chosen: set<BlockId> := {};
      var i := 0;
      while i < |order|
        invariant i <= |order|
        invariant chosen == Planned(plan)
        invariant PlanIsSound(Value(), plan, limit)
        invariant forall p :: p in plan ==> p in order[..i]
        invariant forall p :: p in order[..i] && Eligible(peers[p]) ==> exists n: nat :: Exhausts(Value(), plan, limit, p, n)
      {
        var p := order[i];
        var peer := peers[p];
        if p !in plan && peer.wanted && !peer.inhibited && peer.Idle() {
          var items := Pick(peer.ids, chosen + requests + Buffered(Value()), limit);
          ghost var n :| IsPick(peer.ids, chosen + requests + Buffered(Value()), limit, items, n);
          ExtendedPlanned(plan, p, items);
          ExtendedIsSound(Value(), plan, limit, p, items, n);
          ExtendedExhausts(Value(), plan, limit, p, items, n);
          if items != [] {
            plan := plan[p := items];
            chosen := chosen + Items(items);
          }
        }
        i := i + 1;
      }
      assert order[..i] == order;
    }

    /** Asks one peer for its lot. */
    method RequestFrom(p: PeerId, items: seq<BlockId>)
      requires p in peers
      modifies this
      ensures Value() == AskOne(old(Value()), p, items)
    {
      AskNone(Value(), p);
      var i := 0;
      while i < |items|
        invariant i <= |items|
        invariant p in peers && Value() == AskOne(old(Value()), p, items[..i])
      {
        AskOnceMore(old(Value()), p, items[..i], items[i]);
        assert items[..i + 1] == items[..i] + [items[i]];
        assert Items([items[i]]) == {items[i]};
        requests := requests + {items[i]};
        var peer := peers[p];
        peers := peers[p := peer.(requested := peer.requested + {items[i]})];
        i := i + 1;
      }
      assert items[..i] == items;
    }

    /** One round of fetching: schedule, then ask. */
    method FetchSyncItems(order: seq<PeerId>, limit: nat) returns (plan: Plan)
      requires forall p :: p in order <==> p in peers && peers[p].active
      modifies this
      ensures Next(old(Value()), Fetch(plan, limit), Value())
    {
      plan := map[];
      if suspended {
        return;
      }
      plan := Schedule(order, limit);
      RequestAll(plan);
    }

    /** Asks every peer for its lot. */
    method RequestAll(plan: Plan)
      requires plan.Keys <= peers.Keys
      modifies this
      ensures Value() == Asked(old(Value()), plan)
    {
      hide Asked, AskOne;
      var todo := plan.Keys;
      ghost var done: Plan := map[];
      AskedNone(Value());
      while todo != {}
        invariant todo <= plan.Keys && done == map p | p in plan && p !in todo :: plan[p]
        invariant Value() == Asked(old(Value()), done)
        decreases todo
      {
        var p :| p in todo;
        AskedOneMore(old(Value()), done, p, plan[p]);
        RequestFrom(p, plan[p]);
        todo := todo - {p};
        done := done[p := plan[p]];
      }
      assert done == plan;
    }

    // ----- Messages -----

    /** A block arrives; true when it was asked for. */
    method OnBlock(p: PeerId, id: BlockId) returns (expected: bool)
      requires p in peers
      modifies this
      ensures Next(old(Value()), Receive(p, id), Value())
      ensures expected <==> id in old(peers)[p].requested
      ensures expected ==>
                && peers == old(peers)[p := old(peers)[p].(requested := old(peers)[p].requested - {id})]
                && requests == old(requests) - {id} && arrived == [id] + old(arrived)
      ensures !expected ==>
                && peers == old(peers)[p := old(peers)[p].(active := false)]
                && requests == old(requests) && arrived == old(arrived)
    {
      var peer := peers[p];
      expected := id in peer.requested;
      if expected {
        peers := peers[p := peer.(requested := peer.requested - {id})];
        requests := requests - {id};
        arrived := [id] + arrived;
      } else {
        peers := peers[p := peer.(active := false)];
      }
    }

    method OnNotAvailable(p: PeerId, id: BlockId)
      requires p in peers
      modifies this
      ensures Next(old(Value()), NotAvailable(p, id), Value())
      ensures requests == old(requests) && arrived == old(arrived)
      ensures id !in old(peers)[p].requested ==> peers == old(peers)
      ensures id in old(peers)[p].requested ==>
                var without := old(peers)[p].(requested := old(peers)[p].requested - {id});
                peers == old(peers)[p := if without.serving then without.(inhibited := true) else without.(active := false)]
    {
      var peer := peers[p];
      if id in peer.requested {
        peer := peer.(requested := peer.requested - {id});
        if peer.serving {
          peer := peer.(inhibited := true);
        } else {
          peer := peer.(active := false);
        }
        peers := peers[p := peer];
      }
    }

    /** A connection is gone: what it was to send may be asked of others. */
    method OnClosed(p: PeerId)
      requires p in peers
      modifies this
      ensures Next(old(Value()), Close(p), Value())
      ensures peers == old(peers) - {p} && requests == old(requests) - old(peers)[p].requested && arrived == old(arrived)
    {
      var todo := peers[p].requested;
      peers := peers - {p};
      while todo != {}
        invariant todo <= old(peers[p].requested)
        invariant requests == old(requests) - (old(peers[p].requested) - todo)
        invariant peers == old(peers) - {p} && arrived == old(arrived) && received == old(received)
        invariant handling == old(handling) && suspended == old(suspended)
        decreases todo
      {
        var id :| id in todo;
        requests := requests - {id};
        todo := todo - {id};
      }
    }

    method StartSynchronizing(p: PeerId)
      requires p in peers
      modifies this
      ensures Next(old(Value()), Restart(p), Value())
      ensures peers == old(peers)[p := old(peers)[p].(ids := [], unfetched := 0, wanted := true,
                                                      lastSeen := BlockId(0, 0), inhibited := false)]
    {
      peers := peers[p := peers[p].(ids := [], unfetched := 0, wanted := true, lastSeen := NULL_ID, inhibited := false)];
    }

    /** A list of ids arrives; `seen` are the blocks the chain has. */
    method OnInventory(p: PeerId, reply: seq<BlockId>, remaining: nat, seen: set<BlockId>)
      requires p in peers
      modifies this
      ensures Next(old(Value()), Inventory(p, reply, remaining, seen), Value())
    {
      hide IsMerged;
      var peer := peers[p];
      if peer.asked.None? {
        return;
      }
      var ok := CheckReply(peer.asked.value, reply);
      if !ok {
        peers := peers[p := peer.(active := false)];
        return;
      }
      var isLast := reply == [] || (|reply| == 1 && reply[0] in seen);
      if remaining == 0 && isLast && peer.ids == [] && peer.unfetched == 0 {
        peers := peers[p := peer.(asked := None, wanted := false)];
        return;
      }
      var shared := reply != [] && exists q :: q in peers && q != p && peers[q].active && peers[q].ids != [] && peers[q].ids[0] == reply[0];
      var ids, lastSeen := MergeReply(peer.ids, reply, seen, shared, peer.lastSeen);
      ghost var dropped :| IsMerged(peer.ids, reply, seen, shared, ids, dropped) && LastDropped(reply, dropped, peer.lastSeen, lastSeen);
      peers := peers[p := peer.(asked := None, unfetched := remaining, ids := ids, lastSeen := lastSeen)];
      assert IsMergedPeer(old(Value()), p, reply, remaining, seen, ids, dropped, Value());
    }

    // ----- The backlog -----

    /** Puts what has arrived in front of the backlog, one block at a time. */
    method MergeArrived()
      modifies this`arrived, this`received
      ensures Value() == Merged(old(Value()))
    {
      var i := 0;
      while i < |arrived|
        invariant i <= |arrived| && arrived == old(arrived)
        invariant Reversed(arrived[i..]) + received == Reversed(arrived) + old(received)
      {
        assert arrived[i..] == [arrived[i]] + arrived[i + 1..];
        received := [arrived[i]] + received;
        i := i + 1;
      }
      arrived := [];
    }

    /** Takes a block off every list it heads. */
    method PopFromLists(id: BlockId) returns (found: bool)
      modifies this`peers
      ensures found <==> Ready(old(Value()), id)
      ensures Value() == PopAll(old(Value()), id)
    {
      found := false;
      var todo := peers.Keys;
      while todo != {}
        invariant peers.Keys == old(peers).Keys && todo <= peers.Keys
        invariant forall p :: p in peers ==> peers[p] == if p in todo then old(peers)[p] else Popped(old(peers)[p], id)
        invariant found <==> exists p :: p in peers && p !in todo && IsNext(old(peers)[p], id)
        decreases todo
      {
        var p :| p in todo;
        if IsNext(peers[p], id) {
          found := true;
          peers := peers[p := Popped(peers[p], id)];
        }
        todo := todo - {p};
      }
      assert peers == PopAll(old(Value()), id).peers;
    }

    method SettleOnLists(id: BlockId)
      modifies this`peers
      ensures Value() == SettleAll(old(Value()), id)
    {
      var todo := peers.Keys;
      while todo != {}
        invariant peers.Keys == old(peers).Keys && todo <= peers.Keys
        invariant forall p :: p in peers ==> peers[p] == if p in todo then old(peers)[p] else Settled(old(peers)[p], id)
        decreases todo
      {
        var p :| p in todo;
        if peers[p].active {
          peers := peers[p := peers[p].(processing := peers[p].processing - {id})];
        }
        todo := todo - {p};
      }
      assert peers == SettleAll(old(Value()), id).peers;
    }

    /** Finds the first block of the backlog that is next for some peer, and takes it off the lists. */
    method TakeUpFirst() returns (k: nat)
      modifies this`peers
      ensures k == FirstReady(old(Value()), 0)
      ensures Value() == if k < |received| then PopAll(old(Value()), received[k]) else old(Value())
    {
      k := 0;
      while k < |received|
        invariant k <= |received| && Value() == old(Value())
        invariant FirstReady(old(Value()), 0) == FirstReady(old(Value()), k)
      {
        var found := PopFromLists(received[k]);
        if found {
          return;
        }
        NotReadyKeeps(old(Value()), received[k]);
        k := k + 1;
      }
    }

    /** Forgets the calls into the chain that have finished. */
    method CollectFinished(finished: set<BlockId>)
      modifies this`handling
      ensures handling == Unfinished(old(handling), finished)
    {
      var kept: seq<BlockId> := [];
      var i := 0;
      while i < |handling|
        invariant i <= |handling| && handling == old(handling)
        invariant kept == Unfinished(handling[..i], finished)
      {
        assert handling[..i + 1][..i] == handling[..i];
        if handling[i] !in finished {
          kept := kept + [handling[i]];
        }
        i := i + 1;
      }
      assert handling[..i] == handling;
      handling := kept;
    }

    /** Works off the backlog. */
    method ProcessBacklog(limits: Limits, accepted: set<BlockId>, finished: set<BlockId>)
      modifies this
      ensures Next(old(Value()), Backlog(limits, accepted, finished), Value())
      ensures suspended <==> if |Unfinished(old(handling), finished)| >= limits.handling then old(suspended)
                             else |handling| >= limits.handling && |received| >= limits.prefetch
    {
      CollectFinished(finished);
      if |handling| >= limits.handling {
        return;
      }
      suspended := false;
      DrainSuspends(Value(), limits, accepted);
      DrainBacklog(limits, accepted);
    }

    method DrainBacklog(limits: Limits, accepted: set<BlockId>)
      modifies this
      ensures Value() == Drain(old(Value()), limits, accepted)
    {
      hide PopAll, SettleAll, Ready;
      var going := true;
      while going
        invariant going ==> Drain(Value(), limits, accepted) == Drain(old(Value()), limits, accepted)
        invariant !going ==> Value() == Drain(old(Value()), limits, accepted)
        decreases going, |arrived| + |received|
      {
        ghost var s := Value();
        ReversedKeeps(arrived);
        MergeArrived();
        var k := TakeUpFirst();
        going := false;
        if k < |received| {
          if received[k] in accepted {
            SettleOnLists(received[k]);
          } else {
            handling := handling + [received[k]];
            received := received[..k] + received[k + 1..];
            going := true;
          }
        }
        if |handling| >= limits.handling {
          if |received| >= limits.prefetch {
            suspended := true;
          }
          going := false;
        }
      }
    }
  }
}
