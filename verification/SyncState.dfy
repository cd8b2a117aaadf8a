/**
 The node's side of a sync with many peers, as values: which blocks are asked for, from whom, which
 have arrived, and the atomic steps between such states.
 */
module SyncStates {
  import opened BlockIds
  import opened SyncPeers
  import opened Options
  import opened Lists

  type PeerId = nat

  datatype State = State(
    peers: map<PeerId, Peer>,
    requests: set<BlockId>,       // blocks asked for, from anyone
    arrived: seq<BlockId>,        // blocks received since the backlog was last looked at
    received: seq<BlockId>,       // the backlog
    handling: seq<BlockId>,       // calls into the chain not known to have finished
    suspended: bool)              // no fetching until the backlog is worked off

  function Items(s: seq<BlockId>): set<BlockId> {
    set x | x in s
  }

  function Buffered(s: State): set<BlockId> {
    Items(s.arrived + s.received)
  }

  /** All blocks some peer is to send. */
  ghost function Outstanding(s: State): set<BlockId> {
    set p, x | p in s.peers && x in s.peers[p].requested :: x
  }

  /** No block is asked for twice or held twice, what a peer is to send is on the global list, and
      nothing on that list has arrived. */
  ghost predicate Safe(s: State) {
    && (forall p, q :: p in s.peers && q in s.peers && p != q ==> s.peers[p].requested !! s.peers[q].requested)
    && (forall p :: p in s.peers ==> s.peers[p].requested <= s.requests)
    && s.requests !! Buffered(s)
    && Distinct(s.arrived + s.received)
  }

  ghost predicate ListsGapFree(s: State) {
    forall p :: p in s.peers ==> GapFree(s.peers[p].ids)
  }

  function Update(s: State, p: PeerId, peer: Peer): State {
    s.(peers := s.peers[p := peer])
  }

  // ----- Fetching -----

  /** A peer that is connected, still needed, not held back, and not waiting for anything. */
  ghost predicate Eligible(peer: Peer) {
    && peer.active && peer.wanted && !peer.inhibited
    && !peer.occupied && peer.requested == {} && peer.asked == None
  }

  type Plan = map<PeerId, seq<BlockId>>

  ghost function Planned(plan: Plan): set<BlockId> {
    set p, x | p in plan && x in plan[p] :: x
  }

  function PlanFor(plan: Plan, p: PeerId): seq<BlockId> {
    if p in plan then plan[p] else []
  }

  /** A request is scheduled as soon as one block is found, so a limit of zero counts as one. */
  function Cap(limit: nat): nat {
    if limit == 0 then 1 else limit
  }

  /** New blocks that a free peer has offered, no more than the limit. */
  ghost predicate LotIsSound(s: State, limit: nat, p: PeerId, lot: seq<BlockId>) {
    && p in s.peers && Eligible(s.peers[p]) && Distinct(lot) && 0 < |lot| <= Cap(limit)
    && forall x :: x in lot ==> x in s.peers[p].ids && x !in s.requests && x !in Buffered(s)
  }

  /** A lot for some of the peers, and no block in two lots. */
  ghost predicate PlanIsSound(s: State, plan: Plan, limit: nat) {
    && (forall p :: p in plan ==> LotIsSound(s, limit, p, plan[p]))
    && (forall p, q :: p in plan && q in plan && p != q ==> Items(plan[p]) !! Items(plan[q]))
  }

  /** The list of a peer is taken care of from the front, up to where its lot was full. */
  ghost predicate Exhausts(s: State, plan: Plan, limit: nat, p: PeerId, n: nat)
    requires p in s.peers
  {
    var ids := s.peers[p].ids;
    && n <= |ids|
    && (forall x :: x in PlanFor(plan, p) ==> x in ids[..n])
    && (forall k :: 0 <= k < n ==> ids[k] in s.requests || ids[k] in Buffered(s) || ids[k] in Planned(plan))
    && (n == |ids| || |PlanFor(plan, p)| == Cap(limit))
  }

  /** No free peer is left with a block that nobody is asked for, unless its lot is full. */
  ghost predicate PlanIsComplete(s: State, plan: Plan, limit: nat) {
    forall p :: p in s.peers && Eligible(s.peers[p]) ==> exists n: nat :: Exhausts(s, plan, limit, p, n)
  }

  ghost predicate IsPlan(s: State, plan: Plan, limit: nat) {
    PlanIsSound(s, plan, limit) && PlanIsComplete(s, plan, limit)
  }

  function Ask(peer: Peer, items: seq<BlockId>): Peer {
    peer.(requested := peer.requested + Items(items))
  }

  ghost function Asked(s: State, plan: Plan): State {
    s.(peers := map p | p in s.peers :: Ask(s.peers[p], PlanFor(plan, p)),
       requests := s.requests + Planned(plan))
  }

  // ----- Working off the backlog -----

  function Reversed(q: seq<BlockId>): seq<BlockId> {
    if q == [] then [] else Reversed(q[1..]) + [q[0]]
  }

  /** What has arrived goes to the front of the backlog, the oldest first. */
  function Merged(s: State): State {
    s.(received := Reversed(s.arrived) + s.received, arrived := [])
  }

  predicate IsNext(peer: Peer, id: BlockId) {
    peer.active && peer.ids != [] && peer.ids[0] == id
  }

  predicate Ready(s: State, id: BlockId) {
    exists p :: p in s.peers && IsNext(s.peers[p], id)
  }

  /** The first block of the backlog, from `k` on, that is next for some active peer. */
  function FirstReady(s: State, k: nat): (i: nat)
    requires k <= |s.received|
    ensures k <= i <= |s.received|
    ensures i < |s.received| ==> Ready(s, s.received[i])
    ensures forall j :: k <= j < i ==> !Ready(s, s.received[j])
    decreases |s.received| - k
  {
    if k == |s.received| || Ready(s, s.received[k]) then k else FirstReady(s, k + 1)
  }

  function Popped(peer: Peer, id: BlockId): Peer {
    if IsNext(peer, id) then peer.(ids := peer.ids[1..], processing := peer.processing + {id}) else peer
  }

  function PopAll(s: State, id: BlockId): State {
    s.(peers := map p | p in s.peers :: Popped(s.peers[p], id))
  }

  function Settled(peer: Peer, id: BlockId): Peer {
    if peer.active then peer.(processing := peer.processing - {id}) else peer
  }

  function SettleAll(s: State, id: BlockId): State {
    s.(peers := map p | p in s.peers :: Settled(s.peers[p], id))
  }

  /** A block of the backlog leaves the lists it heads and goes to the chain. */
  function Pass(s: State, k: nat): State
    requires k < |s.received|
  {
    PopAll(s, s.received[k]).(received := s.received[..k] + s.received[k + 1..],
                              handling := s.handling + [s.received[k]])
  }

  /** Fetching pauses when the chain is busy and the backlog is long. */
  function Pause(s: State, limits: Limits): State {
    if |s.handling| >= limits.handling && |s.received| >= limits.prefetch then s.(suspended := true) else s
  }

  datatype Limits = Limits(handling: nat, prefetch: nat)

  /** Blocks that are next for some peer go to the chain one by one, until none is, or the chain is
      busy. One that the chain has accepted already is settled on the spot, and ends the round. */
  function Drain(s: State, limits: Limits, accepted: set<BlockId>): State
    decreases |s.arrived| + |s.received|
  {
    ReversedKeeps(s.arrived);
    var m := Merged(s);
    var k := FirstReady(m, 0);
    if k == |m.received| then Pause(m, limits)
    else
      var id := m.received[k];
      if id in accepted then Pause(SettleAll(PopAll(m, id), id), limits)
      else
        var next := Pass(m, k);
        if |next.handling| >= limits.handling then Pause(next, limits) else Drain(next, limits, accepted)
  }

  function Unfinished(handling: seq<BlockId>, finished: set<BlockId>): seq<BlockId> {
    if handling == [] then []
    else
      var rest := Unfinished(handling[..|handling| - 1], finished);
      var last := handling[|handling| - 1];
      if last in finished then rest else rest + [last]
  }

  function Backlogged(s: State, limits: Limits, accepted: set<BlockId>, finished: set<BlockId>): State {
    var s := s.(handling := Unfinished(s.handling, finished));
    if |s.handling| >= limits.handling then s else Drain(s.(suspended := false), limits, accepted)
  }

  lemma {:induction false} ReversedKeeps(q: seq<BlockId>)
    ensures |Reversed(q)| == |q| && multiset(Reversed(q)) == multiset(q)
  {
    if q == [] {
    } else {
      ReversedKeeps(q[1..]);
      assert q == [q[0]] + q[1..];
    }
  }

  // ----- Steps -----

  const NEW_PEER := Peer(false, true, true, false, false, None, 0, NULL_ID, [], {}, {})

  datatype Event =
    | Connect(p: PeerId)
    | Fetch(plan: Plan, limit: nat)
    | Receive(p: PeerId, id: BlockId)
    | NotAvailable(p: PeerId, id: BlockId)
    | Close(p: PeerId)
    | Backlog(limits: Limits, accepted: set<BlockId>, finished: set<BlockId>)
    | Inventory(p: PeerId, reply: seq<BlockId>, remaining: nat, seen: set<BlockId>)
    | Restart(p: PeerId)
    | Other(p: PeerId, peer: Peer)      // any other change to what is known of a peer

  ghost predicate Next(s: State, e: Event, s': State) {
    match e
    case Connect(p) => p !in s.peers && s' == Update(s, p, NEW_PEER)
    case Fetch(plan, limit) =>
      if s.suspended then s' == s else IsPlan(s, plan, limit) && s' == Asked(s, plan)
    case Receive(p, id) => p in s.peers && s' == Delivered(s, p, id)
    case NotAvailable(p, id) => p in s.peers && s' == Refused(s, p, id)
    case Close(p) => p in s.peers && s' == Closed(s, p)
    case Backlog(limits, accepted, finished) => s' == Backlogged(s, limits, accepted, finished)
    case Inventory(p, reply, remaining, seen) => p in s.peers && IsListed(s, p, reply, remaining, seen, s')
    case Restart(p) => p in s.peers && s' == Update(s, p, Restarted(s.peers[p]))
    case Other(p, peer) =>
      && p in s.peers && s' == Update(s, p, peer)
      && peer.ids == s.peers[p].ids && peer.requested == s.peers[p].requested
  }

  /** A block the peer was to send is buffered; a peer that sends any other is let go. */
  function Delivered(s: State, p: PeerId, id: BlockId): State
    requires p in s.peers
  {
    var peer := s.peers[p];
    if id in peer.requested then
      Update(s, p, peer.(requested := peer.requested - {id})).(requests := s.requests - {id}, arrived := [id] + s.arrived)
    else
      Update(s, p, peer.(active := false))
  }

  /** A peer without a block it was to send is not asked for more, or let go. The global entry
      stays. */
  function Refused(s: State, p: PeerId, id: BlockId): State
    requires p in s.peers
  {
    var peer := s.peers[p];
    if id !in peer.requested then s
    else
      var peer := peer.(requested := peer.requested - {id});
      Update(s, p, if peer.serving then peer.(inhibited := true) else peer.(active := false))
  }

  function Closed(s: State, p: PeerId): State
    requires p in s.peers
  {
    s.(peers := s.peers - {p}, requests := s.requests - s.peers[p].requested)
  }

  function Restarted(peer: Peer): Peer {
    peer.(ids := [], unfetched := 0, wanted := true, lastSeen := NULL_ID, inhibited := false)
  }

  /** Another peer is about to fetch this block first. */
  ghost predicate IsFirstElsewhere(s: State, p: PeerId, id: BlockId) {
    exists q :: q in s.peers && q != p && IsNext(s.peers[q], id)
  }

  /** A peer with nothing more to offer. */
  ghost predicate SaysUpToDate(peer: Peer, reply: seq<BlockId>, remaining: nat, seen: set<BlockId>) {
    && remaining == 0 && (reply == [] || (|reply| == 1 && reply[0] in seen))
    && peer.ids == [] && peer.unfetched == 0
  }

  /** The effect of a list of ids: nothing unless it was asked for; an invalid list costs the
      connection; an empty or known end of the chain ends the sync; anything else is merged. */
  ghost predicate IsListed(s: State, p: PeerId, reply: seq<BlockId>, remaining: nat, seen: set<BlockId>, s': State)
    requires p in s.peers
  {
    var peer := s.peers[p];
    if peer.asked.None? then s' == s
    else if !ValidReply(peer.asked.value, reply) then s' == Update(s, p, peer.(active := false))
    else if SaysUpToDate(peer, reply, remaining, seen) then s' == Update(s, p, peer.(asked := None, wanted := false))
    else exists ids, dropped :: IsMergedPeer(s, p, reply, remaining, seen, ids, dropped, s')
  }

  ghost predicate IsMergedPeer(s: State, p: PeerId, reply: seq<BlockId>, remaining: nat, seen: set<BlockId>,
                               ids: seq<BlockId>, dropped: nat, s': State)
    requires p in s.peers
  {
    var peer := s.peers[p];
    && IsMerged(peer.ids, reply, seen, reply != [] && IsFirstElsewhere(s, p, reply[0]), ids, dropped)
    && p in s'.peers && LastDropped(reply, dropped, peer.lastSeen, s'.peers[p].lastSeen)
    && s' == Update(s, p, peer.(asked := None, unfetched := remaining, ids := ids, lastSeen := s'.peers[p].lastSeen))
  }
}
