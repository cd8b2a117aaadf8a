/**
 The order in which blocks of a sync reach the chain, lists of ids without gaps, and what every whole
 run keeps.
 */
module SyncOrder {
  import opened Words
  import opened BlockIds
  import opened SyncPeers
  import opened SyncStates
  import opened SyncSafety
  import opened Options
  import opened Lists

  // ----- The order of a round -----

  ghost predicate Subsequence(a: seq<BlockId>, b: seq<BlockId>) {
    a == [] || (b != [] && if a[0] == b[0] then Subsequence(a[1..], b[1..]) else Subsequence(a, b[1..]))
  }

  /** The blocks taken up in a round, in order. */
  ghost function Trace(s: State, limits: Limits, accepted: set<BlockId>): seq<BlockId>
    decreases |s.arrived| + |s.received|
  {
    MergedConserves(s);
    var m := Merged(s);
    var k := FirstReady(m, 0);
    if k == |m.received| then []
    else
      var id := m.received[k];
      if id in accepted || |m.handling| + 1 >= limits.handling then [id]
      else
        PassConserves(m, k);
        [id] + Trace(Pass(m, k), limits, accepted)
  }

  /** The last block taken up is one that the chain has accepted before. */
  ghost predicate EndsIn(trace: seq<BlockId>, accepted: set<BlockId>) {
    trace != [] && trace[|trace| - 1] in accepted
  }

  /** `after` is `before` with some blocks off the front of its list, all taken up in the order of
      the trace and now in the hands of the chain, but for one that it had accepted before. */
  ghost predicate FollowsBy(before: Peer, after: Peer, trace: seq<BlockId>, accepted: set<BlockId>, n: nat) {
    && n <= |before.ids| && Subsequence(before.ids[..n], trace) && (before.active || n == 0)
    && after == before.(ids := before.ids[n..], processing := after.processing)
    && var taken := before.processing + Items(before.ids[..n]);
       after.processing == if before.active && EndsIn(trace, accepted) then taken - {trace[|trace| - 1]} else taken
  }

  ghost predicate Follows(before: Peer, after: Peer, trace: seq<BlockId>, accepted: set<BlockId>) {
    exists n: nat :: FollowsBy(before, after, trace, accepted, n)
  }

  lemma FollowNone(peer: Peer, accepted: set<BlockId>)
    ensures Follows(peer, peer, [], accepted)
  {
    assert peer.processing + Items(peer.ids[..0]) == peer.processing;
    assert FollowsBy(peer, peer, [], accepted, 0);
  }

  /** One block taken up, then the rest of the round. */
  lemma FollowOn(before: Peer, after: Peer, id: BlockId, rest: seq<BlockId>, accepted: set<BlockId>)
    requires Follows(Popped(before, id), after, rest, accepted) && id !in accepted
    ensures Follows(before, after, [id] + rest, accepted)
  {
    var n: nat :| FollowsBy(Popped(before, id), after, rest, accepted, n);
    hide FollowsBy;
    if IsNext(before, id) {
      FollowFirst(before, after, id, rest, accepted, n);
    } else {
      FollowLater(before, after, id, rest, accepted, n);
    }
  }

  lemma FollowFirst(before: Peer, after: Peer, id: BlockId, rest: seq<BlockId>, accepted: set<BlockId>, n: nat)
    requires IsNext(before, id) && id !in accepted && FollowsBy(Popped(before, id), after, rest, accepted, n)
    ensures FollowsBy(before, after, [id] + rest, accepted, n + 1)
  {
    var trace, taken, later := [id] + rest, before.ids[..n + 1], before.ids[1..][..n];
    assert trace[1..] == rest && taken[1..] == later && taken[0] == id;
    assert Subsequence(taken, trace);
    FirstTaken(before.ids, n);
    assert before.processing + {id} + Items(later) == before.processing + Items(taken);
    hide Items, Subsequence;
    LastOf(id, rest, accepted);
  }

  lemma FollowLater(before: Peer, after: Peer, id: BlockId, rest: seq<BlockId>, accepted: set<BlockId>, n: nat)
    requires !IsNext(before, id) && id !in accepted && FollowsBy(before, after, rest, accepted, n)
    ensures FollowsBy(before, after, [id] + rest, accepted, n)
  {
    var trace, taken := [id] + rest, before.ids[..n];
    assert trace[1..] == rest && (n > 0 ==> taken[0] != id);
    assert Subsequence(taken, trace);
    hide Items, Subsequence;
    LastOf(id, rest, accepted);
  }

  lemma LastOf(id: BlockId, rest: seq<BlockId>, accepted: set<BlockId>)
    requires id !in accepted
    ensures EndsIn([id] + rest, accepted) <==> EndsIn(rest, accepted)
    ensures rest != [] ==> ([id] + rest)[|rest|] == rest[|rest| - 1]
  {
  }

  lemma FirstTaken(ids: seq<BlockId>, n: nat)
    requires ids != [] && n < |ids|
    ensures Items(ids[..n + 1]) == {ids[0]} + Items(ids[1..][..n])
  {
    assert ids[..n + 1] == [ids[0]] + ids[1..][..n];
  }

  /** Off every peer's list, blocks go to the chain from the front, in the order the peer listed
      them; a connection that is not active keeps its list. */
  lemma {:induction false} DrainFollows(s: State, limits: Limits, accepted: set<BlockId>, p: PeerId)
    requires p in s.peers
    ensures p in Drain(s, limits, accepted).peers
    ensures Follows(s.peers[p], Drain(s, limits, accepted).peers[p], Trace(s, limits, accepted), accepted)
    decreases |s.arrived| + |s.received|
  {
    MergedConserves(s);
    var m := Merged(s);
    var k := FirstReady(m, 0);
    var r := Drain(s, limits, accepted);
    if k == |m.received| {
      FollowNone(s.peers[p], accepted);
    } else {
      var id := m.received[k];
      var popped := Popped(m.peers[p], id);
      hide Follows;
      if id in accepted || |m.handling| + 1 >= limits.handling {
        assert Trace(s, limits, accepted) == [id] + [];
        FollowEnd(s.peers[p], r.peers[p], id, accepted);
      } else {
        PassConserves(m, k);
        DrainFollows(Pass(m, k), limits, accepted, p);
        FollowOn(s.peers[p], r.peers[p], id, Trace(Pass(m, k), limits, accepted), accepted);
      }
    }
  }

  lemma FollowEnd(before: Peer, after: Peer, id: BlockId, accepted: set<BlockId>)
    requires after == if id in accepted then Settled(Popped(before, id), id) else Popped(before, id)
    ensures Follows(before, after, [id] + [], accepted)
  {
    var n := if IsNext(before, id) then 1 else 0;
    var trace, taken := [id] + [], before.ids[..n];
    assert trace == [id];
    assert Subsequence(taken, trace) by {
      assert n == 1 ==> taken == [id] && taken[1..] == [] && trace[1..] == [];
    }
    assert Items(taken) == if n == 1 then {id} else {};
    assert after.ids == before.ids[n..];
    assert FollowsBy(before, after, trace, accepted, n);
  }

  /** The calls into the chain grow by what was taken up, but for a last block that the chain has
      accepted before. */
  ghost predicate AllPassed(before: seq<BlockId>, after: seq<BlockId>, trace: seq<BlockId>, accepted: set<BlockId>) {
    || after == before + trace
    || (trace != [] && trace[|trace| - 1] in accepted && after == before + trace[..|trace| - 1])
  }

  lemma PassedOn(before: seq<BlockId>, id: BlockId, after: seq<BlockId>, rest: seq<BlockId>, accepted: set<BlockId>)
    requires AllPassed(before + [id], after, rest, accepted)
    ensures AllPassed(before, after, [id] + rest, accepted)
  {
    var trace := [id] + rest;
    assert before + trace == before + [id] + rest;
    if rest != [] {
      assert trace[..|trace| - 1] == [id] + rest[..|rest| - 1];
      assert before + ([id] + rest[..|rest| - 1]) == before + [id] + rest[..|rest| - 1];
    }
  }

  /** What goes to the chain in a round is what was taken up, in that order. */
  lemma {:induction false} TraceIsPassed(s: State, limits: Limits, accepted: set<BlockId>)
    ensures AllPassed(s.handling, Drain(s, limits, accepted).handling, Trace(s, limits, accepted), accepted)
    decreases |s.arrived| + |s.received|
  {
    MergedConserves(s);
    var m := Merged(s);
    var k := FirstReady(m, 0);
    if k < |m.received| {
      var id := m.received[k];
      if id !in accepted && |m.handling| + 1 < limits.handling {
        PassConserves(m, k);
        TraceIsPassed(Pass(m, k), limits, accepted);
        hide AllPassed, Ready;
        PassedOn(s.handling, id, Drain(s, limits, accepted).handling, Trace(Pass(m, k), limits, accepted), accepted);
      } else {
        assert Trace(s, limits, accepted) == [id];
        assert [id][..0] == [] && s.handling + [] == s.handling;
      }
    }
  }

  /** No block of the backlog is next for any peer. */
  ghost predicate AtRest(s: State) {
    forall x :: x in s.received ==> !Ready(s, x)
  }

  lemma NoneReady(m: State, limits: Limits)
    requires FirstReady(m, 0) == |m.received|
    ensures AtRest(Pause(m, limits))
  {
    var r := Pause(m, limits);
    forall x | x in r.received
      ensures !Ready(r, x)
    {
      var i :| 0 <= i < |m.received| && m.received[i] == x;
      assert !Ready(m, m.received[i]);
    }
  }

  lemma EndsOn(id: BlockId, rest: seq<BlockId>, accepted: set<BlockId>)
    requires EndsIn(rest, accepted)
    ensures EndsIn([id] + rest, accepted)
  {
  }

  /** A round goes on until the chain is busy, a block turns up that the chain has accepted before, or
      nothing is left to pass on. */
  lemma {:induction false} DrainSaturates(s: State, limits: Limits, accepted: set<BlockId>)
    ensures || |Drain(s, limits, accepted).handling| >= limits.handling
            || EndsIn(Trace(s, limits, accepted), accepted)
            || AtRest(Drain(s, limits, accepted))
    decreases |s.arrived| + |s.received|
  {
    MergedConserves(s);
    var m := Merged(s);
    var k := FirstReady(m, 0);
    if k == |m.received| {
      NoneReady(m, limits);
      hide AtRest;
    } else {
      hide AtRest, Ready;
      var id := m.received[k];
      if id !in accepted && |m.handling| + 1 < limits.handling {
        PassConserves(m, k);
        DrainSaturates(Pass(m, k), limits, accepted);
        var rest := Trace(Pass(m, k), limits, accepted);
        if EndsIn(rest, accepted) {
          EndsOn(id, rest, accepted);
        }
        hide EndsIn, PopAll;
      }
    }
  }

  /** Fetching is suspended by a round exactly when it leaves the chain busy and the backlog long. */
  lemma {:induction false} DrainSuspends(s: State, limits: Limits, accepted: set<BlockId>)
    requires !s.suspended
    ensures var r := Drain(s, limits, accepted);
            r.suspended <==> |r.handling| >= limits.handling && |r.received| >= limits.prefetch
    decreases |s.arrived| + |s.received|
  {
    MergedConserves(s);
    var m := Merged(s);
    var k := FirstReady(m, 0);
    if k < |m.received| && m.received[k] !in accepted && |m.handling| + 1 < limits.handling {
      hide Ready, PopAll, Merged;
      PassConserves(m, k);
      DrainSuspends(Pass(m, k), limits, accepted);
    }
  }

  // ----- The order of arrival -----

  lemma {:induction false} ReversedAt(q: seq<BlockId>, k: nat)
    requires k < |q|
    ensures |Reversed(q)| == |q| && Reversed(q)[k] == q[|q| - 1 - k]
  {
    ReversedKeeps(q);
    ReversedKeeps(q[1..]);
    if k < |q| - 1 {
      ReversedAt(q[1..], k);
    }
  }

  /** What arrived first is at the front of the backlog, and what was there before comes after it. */
  lemma MergedOrder(s: State, k: nat)
    requires k < |s.arrived| + |s.received|
    ensures var m := Merged(s);
            && |m.received| == |s.arrived| + |s.received|
            && m.received[k] == if k < |s.arrived| then s.arrived[|s.arrived| - 1 - k] else s.received[k - |s.arrived|]
  {
    ReversedKeeps(s.arrived);
    if k < |s.arrived| {
      ReversedAt(s.arrived, k);
    }
  }

  /** Wherever `b` is in the list, `a` is before it. */
  ghost predicate Precedes(a: BlockId, b: BlockId, list: seq<BlockId>) {
    forall k :: 0 <= k < |list| && list[k] == b ==> a in list[..k]
  }

  lemma PrecedesOn(a: BlockId, b: BlockId, id: BlockId, rest: seq<BlockId>)
    requires a == id || Precedes(a, b, rest)
    requires id != b
    ensures Precedes(a, b, [id] + rest)
  {
    var list := [id] + rest;
    forall k | 0 <= k < |list| && list[k] == b
      ensures a in list[..k]
    {
      assert list[..k] == [id] + rest[..k - 1] && rest[k - 1] == b;
    }
  }

  lemma FirstDiffers(list: seq<BlockId>, k: nat, i: nat)
    requires k < i < |list| && Distinct(list)
    ensures list[k] != list[i]
  {
  }

  lemma NothingMerged(s: State)
    requires s.arrived == []
    ensures Merged(s) == s
  {
    assert [] + s.received == s.received;
  }

  lemma WithoutOne(m: State, k: nat, i: nat)
    requires k < i < |m.received| && Distinct(m.received)
    ensures var r := Pass(m, k);
            r.received[i - 1] == m.received[i] && Distinct(r.received) && r.arrived == m.arrived
  {
    var r := m.received[..k] + m.received[k + 1..];
    forall x, y | 0 <= x < y < |r|
      ensures r[x] != r[y]
    {
      assert r[x] == m.received[if x < k then x else x + 1] && r[y] == m.received[if y < k then y else y + 1];
    }
  }

  lemma StaysReady(m: State, k: nat, a: BlockId)
    requires k < |m.received| && m.received[k] != a && Ready(m, a)
    ensures Ready(Pass(m, k), a)
  {
    var p :| p in m.peers && IsNext(m.peers[p], a);
    assert Pass(m, k).peers[p] == m.peers[p];
  }

  /** A block that is next for some peer is taken up before everything behind it in the backlog. */
  lemma {:induction false} TraceInOrder(s: State, limits: Limits, accepted: set<BlockId>, i: nat, j: nat)
    requires var m := Merged(s); i < j < |m.received| && Distinct(m.received) && Ready(m, m.received[i])
    ensures Precedes(Merged(s).received[i], Merged(s).received[j], Trace(s, limits, accepted))
    decreases |s.arrived| + |s.received|
  {
    hide Precedes, Pass, Merged, Conserves, Trace, FirstReady, Ready, Distinct;
    TraceStep(s, limits, accepted);
    MergedConserves(s);
    var m := Merged(s);
    var a, b, k := m.received[i], m.received[j], FirstReady(m, 0);
    FirstReadyIsBefore(m, i, j);
    if m.received[k] in accepted || |m.handling| + 1 >= limits.handling {
      PrecedesNone(a, b);
      PrecedesOn(a, b, m.received[k], []);
    } else {
      if k < i {
        OneLess(m, k, i, j);
        PassConserves(m, k);
        TraceInOrder(Pass(m, k), limits, accepted, i - 1, j - 1);
      }
      PrecedesOn(a, b, m.received[k], Trace(Pass(m, k), limits, accepted));
    }
  }

  lemma FirstReadyIsBefore(m: State, i: nat, j: nat)
    requires i < j < |m.received| && Distinct(m.received) && Ready(m, m.received[i])
    ensures FirstReady(m, 0) <= i && m.received[FirstReady(m, 0)] != m.received[j]
  {
    hide Ready;
  }

  lemma PrecedesNone(a: BlockId, b: BlockId)
    ensures Precedes(a, b, [])
  {
  }

  lemma TraceStep(s: State, limits: Limits, accepted: set<BlockId>)
    ensures var m, trace := Merged(s), Trace(s, limits, accepted);
            var k := FirstReady(m, 0);
            if k == |m.received| then trace == []
            else if m.received[k] in accepted || |m.handling| + 1 >= limits.handling then trace == [m.received[k]] + []
            else trace == [m.received[k]] + Trace(Pass(m, k), limits, accepted)
  {
  }

  /** What a pass of an earlier block leaves of two later ones. */
  lemma OneLess(m: State, k: nat, i: nat, j: nat)
    requires k < i < j < |m.received| && m.arrived == [] && Distinct(m.received) && Ready(m, m.received[i])
    ensures var next := Merged(Pass(m, k));
            && j - 1 < |next.received| && next.received[i - 1] == m.received[i] && next.received[j - 1] == m.received[j]
            && Distinct(next.received) && Ready(next, m.received[i])
  {
    hide Distinct, Ready, PopAll;
    WithoutOne(m, k, i);
    WithoutOne(m, k, j);
    FirstDiffers(m.received, k, i);
    StaysReady(m, k, m.received[i]);
    NothingMerged(Pass(m, k));
  }

  // ----- Lists without gaps -----

  lemma SuffixGapFree(ids: seq<BlockId>, n: nat)
    requires GapFree(ids) && n <= |ids|
    ensures GapFree(ids[n..])
  {
    var rest := ids[n..];
    forall i | 0 < i < |rest|
      ensures rest[i].num == Increment(rest[i - 1].num)
    {
      assert rest[i] == ids[n + i] && rest[i - 1] == ids[n + i - 1];
    }
  }

  lemma DrainKeepsGapFree(s: State, limits: Limits, accepted: set<BlockId>)
    requires ListsGapFree(s)
    ensures ListsGapFree(Drain(s, limits, accepted))
  {
    DrainConserves(s, limits, accepted);
    var r := Drain(s, limits, accepted);
    forall p | p in r.peers
      ensures GapFree(r.peers[p].ids)
    {
      assert p in s.peers;
      DrainFollows(s, limits, accepted, p);
      var n: nat :| FollowsBy(s.peers[p], r.peers[p], Trace(s, limits, accepted), accepted, n);
      SuffixGapFree(s.peers[p].ids, n);
    }
  }

  lemma ListingKeepsGapFree(s: State, p: PeerId, reply: seq<BlockId>, remaining: nat, seen: set<BlockId>, s': State)
    requires ListsGapFree(s) && p in s.peers && IsListed(s, p, reply, remaining, seen, s')
    ensures ListsGapFree(s')
  {
    var peer := s.peers[p];
    if peer.asked.Some? && ValidReply(peer.asked.value, reply) && !SaysUpToDate(peer, reply, remaining, seen) {
      var ids, dropped :| IsMergedPeer(s, p, reply, remaining, seen, ids, dropped, s');
      MergeKeepsGapFree(peer.ids, reply, seen, reply != [] && IsFirstElsewhere(s, p, reply[0]), ids, dropped);
      hide IsMerged;
    } else {
      hide IsMergedPeer, IsMerged;
    }
  }

  /** Every step keeps the lists without gaps. */
  lemma GapFreeStep(s: State, e: Event, s': State)
    requires ListsGapFree(s) && Next(s, e, s')
    ensures ListsGapFree(s')
  {
    hide IsListed, IsPlan, Drain;
    match e
    case Backlog(limits, accepted, finished) =>
      var t := s.(handling := Unfinished(s.handling, finished));
      DrainKeepsGapFree(t.(suspended := false), limits, accepted);
    case Inventory(p, reply, remaining, seen) => ListingKeepsGapFree(s, p, reply, remaining, seen, s');
    case _ =>
  }

  // ----- Whole runs -----

  const START := State(map[], {}, [], [], [], false)

  ghost predicate IsRun(states: seq<State>, events: seq<Event>) {
    && |states| == |events| + 1 && states[0] == START
    && forall i :: 0 <= i < |events| ==> Next(states[i], events[i], states[i + 1])
  }

  /** The blocks reported missing by a peer that was to send them, in the first `n` steps. */
  ghost function LostBy(states: seq<State>, events: seq<Event>, n: nat): set<BlockId>
    requires IsRun(states, events) && n <= |events|
  {
    if n == 0 then {} else LostBy(states, events, n - 1) + Lost(states[n - 1], events[n - 1])
  }

  /** In every state of every run the requests are apart, the lists have no gaps, and the global list
      of requests holds exactly what peers are to send and what was reported missing. */
  lemma {:induction false} RunsAreSafe(states: seq<State>, events: seq<Event>, n: nat)
    requires IsRun(states, events) && n <= |events|
    ensures Safe(states[n]) && ListsGapFree(states[n])
    ensures Accounted(states[n], LostBy(states, events, n))
  {
    hide Next, Safe, ListsGapFree, Accounted, Lost;
    if n == 0 {
      StartIsSafe();
    } else {
      RunsAreSafe(states, events, n - 1);
      var s, e, s' := states[n - 1], events[n - 1], states[n];
      assert Next(s, e, s');
      SafeStep(s, e, s');
      GapFreeStep(s, e, s');
      AccountedStep(s, e, s', LostBy(states, events, n - 1));
    }
  }

  lemma StartIsSafe()
    ensures Safe(START) && ListsGapFree(START) && Accounted(START, {})
  {
  }

  lemma {:induction false} LostGrows(states: seq<State>, events: seq<Event>, i: nat, j: nat)
    requires IsRun(states, events) && i <= j <= |events|
    ensures LostBy(states, events, i) <= LostBy(states, events, j)
    decreases j
  {
    hide Next, Lost;
    if i < j {
      LostGrows(states, events, i, j - 1);
    }
  }

  /** Until the backlog is next looked at, arrivals only go in front of the earlier ones. */
  lemma ArrivalStep(s: State, e: Event, s': State)
    requires Next(s, e, s') && !e.Backlog?
    ensures s'.received == s.received && s'.handling == s.handling
    ensures s'.arrived == s.arrived || (exists id :: s'.arrived == [id] + s.arrived)
  {
    hide IsListed, IsPlan;
    if e.Inventory? {
      ListingKeepsBuffers(s, e.p, e.reply, e.remaining, e.seen, s');
    }
  }

  lemma ListingKeepsBuffers(s: State, p: PeerId, reply: seq<BlockId>, remaining: nat, seen: set<BlockId>, s': State)
    requires p in s.peers && IsListed(s, p, reply, remaining, seen, s')
    ensures s'.arrived == s.arrived && s'.received == s.received && s'.handling == s.handling
  {
    hide IsMerged;
  }

  lemma {:induction false} ArrivalsStay(states: seq<State>, events: seq<Event>, i: nat, n: nat)
    requires IsRun(states, events) && i <= n <= |events| && forall r :: i <= r < n ==> !events[r].Backlog?
    ensures |states[i].arrived| <= |states[n].arrived|
    ensures states[n].arrived[|states[n].arrived| - |states[i].arrived|..] == states[i].arrived
    decreases n
  {
    if i < n {
      hide Next;
      ArrivalsStay(states, events, i, n - 1);
      var s, s' := states[n - 1].arrived, states[n].arrived;
      assert Next(states[n - 1], events[n - 1], states[n]);
      ArrivalStep(states[n - 1], events[n - 1], states[n]);
      if s' != s {
        var id :| s' == [id] + s;
        assert s'[|s'| - |states[i].arrived|..] == s[|s| - |states[i].arrived|..];
      }
    }
  }

  /** A block that a peer was to send arrives at this step. */
  ghost predicate Arrives(s: State, e: Event, id: BlockId) {
    e.Receive? && e.id == id && e.p in s.peers && id in s.peers[e.p].requested
  }

  lemma ArrivesInFront(s: State, e: Event, s': State, id: BlockId)
    requires Next(s, e, s') && Arrives(s, e, id)
    ensures s'.arrived == [id] + s.arrived
  {
  }

  /** Where a block is in the backlog when that is next looked at: behind those that arrived before
      it. */
  lemma ArrivalIsMerged(states: seq<State>, events: seq<Event>, i: nat, n: nat, id: BlockId)
    requires IsRun(states, events) && i < n <= |events| && Arrives(states[i], events[i], id)
    requires forall r :: i < r < n ==> !events[r].Backlog?
    ensures |states[i].arrived| < |Merged(states[n]).received| && Merged(states[n]).received[|states[i].arrived|] == id
  {
    hide Next, Merged, Arrives;
    assert Next(states[i], events[i], states[i + 1]);
    ArrivesInFront(states[i], events[i], states[i + 1], id);
    ArrivalsStay(states, events, i + 1, n);
    var k, all := |states[i].arrived|, states[n].arrived;
    assert all[|all| - 1 - k] == all[|all| - (k + 1)..][0];
    MergedOrder(states[n], k);
  }

  /** Of two blocks that arrive between two looks at the backlog, the earlier goes to the chain first,
      if it is next for some peer by then. */
  lemma FirstComeFirstServed(states: seq<State>, events: seq<Event>, i: nat, j: nat, n: nat, a: BlockId, b: BlockId)
    requires IsRun(states, events) && i < j < n < |events| && events[n].Backlog?
    requires forall r :: i < r < n ==> !events[r].Backlog?
    requires Arrives(states[i], events[i], a) && Arrives(states[j], events[j], b) && Ready(states[n], a)
    ensures var kept := Unfinished(states[n].handling, events[n].finished);
            kept <= states[n + 1].handling && Precedes(a, b, states[n + 1].handling[|kept|..])
  {
    hide Arrives, Ready, Merged, Drain, Trace, Safe;
    var s, limits, accepted := states[n], events[n].limits, events[n].accepted;
    ArrivalIsMerged(states, events, i, n, a);
    ArrivalIsMerged(states, events, j, n, b);
    ArrivalsStay(states, events, i + 1, j);
    assert |states[i].arrived| < |states[j].arrived| by {
      assert Next(states[i], events[i], states[i + 1]);
      ArrivesInFront(states[i], events[i], states[i + 1], a);
    }
    RunsAreSafe(states, events, n);
    assert Next(s, events[n], states[n + 1]);
    PassIsInOrder(s, limits, accepted, events[n].finished, |states[i].arrived|, |states[j].arrived|);
  }

  lemma PassIsInOrder(s: State, limits: Limits, accepted: set<BlockId>, finished: set<BlockId>, i: nat, j: nat)
    requires Safe(s) && i < j < |Merged(s).received| && Ready(s, Merged(s).received[i])
    ensures var kept, r := Unfinished(s.handling, finished), Backlogged(s, limits, accepted, finished);
            kept <= r.handling && Precedes(Merged(s).received[i], Merged(s).received[j], r.handling[|kept|..])
  {
    var kept := Unfinished(s.handling, finished);
    var t := s.(handling := kept, suspended := false);
    if |kept| < limits.handling {
      MergedConserves(s);
      FewerStayDistinct(Merged(s).received, s.arrived + s.received);
      assert Merged(t).received == Merged(s).received && Ready(Merged(t), Merged(s).received[i]);
      TraceInOrder(t, limits, accepted, i, j);
      TraceIsPassed(t, limits, accepted);
      hide Merged, Drain, Trace, Ready, Safe, Precedes, AllPassed, Distinct, Conserves;
      PassedPrecedes(Merged(s).received[i], Merged(s).received[j], kept, Drain(t, limits, accepted).handling,
                     Trace(t, limits, accepted), accepted);
    } else {
      assert kept[|kept|..] == [];
    }
  }

  lemma PassedPrecedes(a: BlockId, b: BlockId, before: seq<BlockId>, after: seq<BlockId>, trace: seq<BlockId>, accepted: set<BlockId>)
    requires AllPassed(before, after, trace, accepted) && Precedes(a, b, trace)
    ensures before <= after && Precedes(a, b, after[|before|..])
  {
    hide Precedes;
    PrefixPrecedes(a, b, trace);
    if after == before + trace {
      assert after[|before|..] == trace;
    } else {
      assert after[|before|..] == trace[..|trace| - 1];
    }
  }

  lemma PrefixPrecedes(a: BlockId, b: BlockId, list: seq<BlockId>)
    requires Precedes(a, b, list)
    ensures list != [] ==> Precedes(a, b, list[..|list| - 1])
  {
    if list != [] {
      var front := list[..|list| - 1];
      assert forall k :: 0 <= k < |front| ==> front[..k] == list[..k];
    }
  }

  /** The calls that are not finished are kept in order, and no others. */
  lemma {:induction false} UnfinishedAre(handling: seq<BlockId>, finished: set<BlockId>, x: BlockId)
    ensures multiset(Unfinished(handling, finished))[x] == if x in finished then 0 else multiset(handling)[x]
    ensures Subsequence(Unfinished(handling, finished), handling)
  {
    if handling == [] {
    } else {
      var front, last := handling[..|handling| - 1], handling[|handling| - 1];
      UnfinishedAre(front, finished, x);
      assert handling == front + [last];
      SubsequenceGrows(Unfinished(front, finished), front, last);
    }
  }

  lemma {:induction false} SubsequenceGrows(a: seq<BlockId>, b: seq<BlockId>, x: BlockId)
    requires Subsequence(a, b)
    ensures Subsequence(a, b + [x]) && Subsequence(a + [x], b + [x])
  {
    var ax, bx := a + [x], b + [x];
    if b == [] {
      assert a == [] && ax[1..] == [] && bx[1..] == [];
    } else {
      assert bx[1..] == b[1..] + [x];
      if a == [] {
        SubsequenceGrows([], b[1..], x);
        assert ax == [x] == [] + [x];
      } else {
        assert ax[1..] == a[1..] + [x];
        if a[0] == b[0] {
          SubsequenceGrows(a[1..], b[1..], x);
        } else {
          SubsequenceGrows(a, b[1..], x);
        }
      }
    }
  }

  /** A block reported missing stays on the global list for good: it is never asked of any peer
      again and never arrives. */
  lemma LostForGood(states: seq<State>, events: seq<Event>, i: nat, j: nat, id: BlockId)
    requires IsRun(states, events) && i <= j <= |events| && id in LostBy(states, events, i)
    ensures id in states[j].requests && id !in Outstanding(states[j]) && id !in Buffered(states[j])
  {
    LostGrows(states, events, i, j);
    RunsAreSafe(states, events, j);
  }

  // The shortest way to lose a block: one peer offers it, is asked for it, and does not have it.

  const BLOCK := BlockId(1, 7)

  const ASKED := NEW_PEER.(active := true, asked := Some([]))
  const OFFERING := ASKED.(asked := None, unfetched := 1, ids := [BLOCK])
  const SENDING := OFFERING.(requested := {BLOCK})
  const REFUSING := OFFERING.(inhibited := true)

  function Alone(peer: Peer, requests: set<BlockId>): State {
    State(map[0 := peer], requests, [], [], [], false)
  }

  lemma OfferIsListed()
    ensures Next(Alone(ASKED, {}), Inventory(0, [BLOCK], 1, {}), Alone(OFFERING, {}))
  {
    var s, s' := Alone(ASKED, {}), Alone(OFFERING, {});
    assert s' == Update(s, 0, OFFERING);
    assert !IsFirstElsewhere(s, 0, BLOCK);
    assert IsMerged([], [BLOCK], {}, false, [BLOCK], 0);
    assert IsMergedPeer(s, 0, [BLOCK], 1, {}, [BLOCK], 0, s');
  }

  lemma OfferIsFetched()
    ensures Next(Alone(OFFERING, {}), Fetch(map[0 := [BLOCK]], 1), Alone(SENDING, {BLOCK}))
  {
    var s := Alone(OFFERING, {});
    var plan: Plan := map[0 := [BLOCK]];
    assert Planned(plan) == {BLOCK} by {
      assert 0 in plan && BLOCK in plan[0];
    }
    assert Exhausts(s, plan, 1, 0, 1);
    assert Items([BLOCK]) == {BLOCK};
    assert Ask(OFFERING, [BLOCK]) == SENDING;
    assert Asked(s, plan).peers == map[0 := SENDING];
  }

  lemma RefusalLoses()
    ensures Next(Alone(SENDING, {BLOCK}), NotAvailable(0, BLOCK), Alone(REFUSING, {BLOCK}))
  {
    assert {BLOCK} - {BLOCK} == {};
  }

  lemma PeerIsAsked()
    ensures Next(START, Connect(0), Alone(NEW_PEER, {}))
    ensures Next(Alone(NEW_PEER, {}), Other(0, ASKED), Alone(ASKED, {}))
  {
  }

  /** A block can be lost: the global list is not the union of what the peers are to send. */
  lemma BlocksCanBeLost() returns (states: seq<State>, events: seq<Event>)
    ensures IsRun(states, events) && BLOCK in LostBy(states, events, |events|)
  {
    hide Next;
    PeerIsAsked();
    OfferIsListed();
    OfferIsFetched();
    RefusalLoses();
    states := [START, Alone(NEW_PEER, {}), Alone(ASKED, {}), Alone(OFFERING, {}), Alone(SENDING, {BLOCK}), Alone(REFUSING, {BLOCK})];
    events := [Connect(0), Other(0, ASKED), Inventory(0, [BLOCK], 1, {}), Fetch(map[0 := [BLOCK]], 1), NotAvailable(0, BLOCK)];
    assert IsRun(states, events);
    assert BLOCK in Lost(Alone(SENDING, {BLOCK}), events[4]);
    hide Lost;
    assert LostBy(states, events, 5) == LostBy(states, events, 4) + Lost(states[4], events[4]);
  }
}
