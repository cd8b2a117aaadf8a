/**
 What the node knows about one peer it syncs with: the list of block ids the peer has offered and
 the node has not fetched yet, and the steps that extend and describe that list.
 */
module SyncPeers {
  import opened Words
  import opened BlockIds
  import opened Options

  datatype Peer = Peer(
    active: bool,                     // among the active connections
    wanted: bool,                     // we need sync items from this peer
    serving: bool,                    // this peer needs sync items from us
    inhibited: bool,                  // no sync blocks are to be fetched from this peer
    occupied: bool,                   // items of normal operation are requested from this peer
    asked: Option<seq<BlockId>>,      // the synopsis of the outstanding request for ids
    unfetched: nat,                   // ids the peer has and has not listed yet
    lastSeen: BlockId,                // the last of this peer's blocks the chain has seen
    ids: seq<BlockId>,                // ids offered and not fetched yet
    requested: set<BlockId>,          // blocks asked for and not received yet
    processing: set<BlockId>)         // blocks handed to the chain and not settled yet
  {
    predicate Idle() {
      !occupied && requested == {} && asked.None?
    }
  }

  /** Consecutive block numbers. */
  predicate GapFree(ids: seq<BlockId>) {
    forall i :: 0 < i < |ids| ==> ids[i].num == Increment(ids[i - 1].num)
  }

  // ----- Replies to a request for ids -----

  /** A valid answer to a synopsis: empty, or a run of blocks from one of the blocks sent, or from
      block one when nothing was sent. */
  predicate ValidReply(synopsis: seq<BlockId>, reply: seq<BlockId>) {
    reply == [] || (GapFree(reply) && if synopsis == [] then reply[0].num == 1 else reply[0] in synopsis)
  }

  method CheckReply(synopsis: seq<BlockId>, reply: seq<BlockId>) returns (ok: bool)
    ensures ok <==> ValidReply(synopsis, reply)
  {
    if reply == [] {
      return true;
    }
    var first := reply[0].num;
    var i := 1;
    while i < |reply|
      invariant 1 <= i <= |reply|
      invariant forall j :: 0 <= j < i ==> reply[j].num == (first + j) % 0x1_0000_0000
    {
      if reply[i].num != (first + i) % 0x1_0000_0000 {
        Successor(first, i - 1);
        assert reply[i].num != Increment(reply[i - 1].num);
        return false;
      }
      i := i + 1;
    }
    forall j | 0 < j < |reply|
      ensures reply[j].num == Increment(reply[j - 1].num)
    {
      Successor(first, j - 1);
    }
    return if synopsis == [] then first == 1 else reply[0] in synopsis;
  }

  lemma Successor(first: Uint32, j: nat)
    ensures Increment((first + j) % 0x1_0000_0000) == (first + (j + 1)) % 0x1_0000_0000
  {
  }

  /** Where the last occurrence of `id` is; the length of the list when there is none. */
  ghost predicate IsLastIndex(ids: seq<BlockId>, id: BlockId, k: nat) {
    if id in ids then k < |ids| && ids[k] == id && id !in ids[k + 1..] else k == |ids|
  }

  /** The list after a reply: a list that is empty takes the part of the reply the chain has not seen
      (all of it when another peer is about to fetch its first block); otherwise the reply replaces
      everything from its first block on, and a reply that has nothing in common with the list
      replaces it all but for that first block, which the node has. */
  ghost predicate IsMerged(ids: seq<BlockId>, reply: seq<BlockId>, seen: set<BlockId>, shared: bool,
                           merged: seq<BlockId>, dropped: nat)
  {
    if reply == [] then merged == ids && dropped == 0
    else if ids == [] then
      && dropped <= |reply| && merged == reply[dropped..]
      && (if shared then dropped == 0
          else (forall i :: 0 <= i < dropped ==> reply[i] in seen) && (dropped < |reply| ==> reply[dropped] !in seen))
    else if reply[0] in ids then
      dropped == 0 && exists k: nat :: IsLastIndex(ids, reply[0], k) && merged == ids[..k] + reply
    else
      dropped == 1 && merged == reply[1..]
  }

  /** The last of the dropped blocks, which the chain has seen, becomes the last seen block. */
  ghost predicate LastDropped(reply: seq<BlockId>, dropped: nat, last: BlockId, lastSeen: BlockId) {
    dropped <= |reply| && lastSeen == if dropped == 0 then last else reply[dropped - 1]
  }

  /** Merges a reply into a list. */
  method MergeReply(ids: seq<BlockId>, reply: seq<BlockId>, seen: set<BlockId>, shared: bool, last: BlockId)
    returns (merged: seq<BlockId>, lastSeen: BlockId)
    ensures exists dropped :: IsMerged(ids, reply, seen, shared, merged, dropped) && LastDropped(reply, dropped, last, lastSeen)
  {
    merged, lastSeen := ids, last;
    ghost var dropped: nat := 0;
    var received := reply;
    if received != [] && ids == [] {
      if !shared {
        while received != [] && received[0] in seen
          invariant dropped <= |reply| && received == reply[dropped..]
          invariant forall i :: 0 <= i < dropped ==> reply[i] in seen
          invariant lastSeen == if dropped == 0 then last else reply[dropped - 1]
          decreases |received|
        {
          lastSeen := received[0];
          received := received[1..];
          dropped := dropped + 1;
        }
      }
    } else if received != [] {
      while merged != [] && received[0] != merged[|merged| - 1]
        invariant merged == ids[..|merged|] && |merged| <= |ids|
        invariant received[0] !in ids[|merged|..]
        decreases |merged|
      {
        merged := merged[..|merged| - 1];
      }
      if merged == [] {
        lastSeen := received[0];
        received := received[1..];
        dropped := 1;
      } else {
        merged := merged[..|merged| - 1];
        assert IsLastIndex(ids, reply[0], |merged|);
      }
    }
    merged := merged + received;
    assert IsMerged(ids, reply, seen, shared, merged, dropped) && LastDropped(reply, dropped, last, lastSeen);
  }

  /** A merged list has no gaps when neither the list nor the reply had one. */
  lemma MergeKeepsGapFree(ids: seq<BlockId>, reply: seq<BlockId>, seen: set<BlockId>, shared: bool,
                          merged: seq<BlockId>, dropped: nat)
    requires GapFree(ids) && GapFree(reply)
    requires IsMerged(ids, reply, seen, shared, merged, dropped)
    ensures GapFree(merged)
  {
    if reply != [] && ids != [] && reply[0] in ids {
      var k: nat :| IsLastIndex(ids, reply[0], k) && merged == ids[..k] + reply;
      forall i | 0 < i < |merged|
        ensures merged[i].num == Increment(merged[i - 1].num)
      {
        if i == k {
          assert merged[i] == reply[0] == ids[k];
        }
      }
    }
  }

  // ----- The synopsis -----

  datatype Result = Ok(synopsis: seq<BlockId>) | AssertionFailed

  /** The height after `low` on the way to `high`: half of what is left is skipped. */
  function NextHeight(low: int, high: int): (next: int)
    requires low <= high
    ensures low < next && high - next + 1 == (high - low + 1) / 2
  {
    low + (high - low + 2) / 2
  }

  /** What the synopsis takes off a list that starts at height `first`, from height `low` to height
      `high`. */
  ghost function Sampled(ids: seq<BlockId>, first: nat, low: int, high: int): seq<BlockId>
    requires high < first + |ids|
    decreases high - low
  {
    if low > high then []
    else (if low >= first then [ids[low - first]] else []) + Sampled(ids, first, NextHeight(low, high), high)
  }

  /** How many binary digits `n` has. */
  ghost function BitLength(n: nat): nat {
    if n == 0 then 0 else 1 + BitLength(n / 2)
  }

  /** Block numbers along a sample: strictly increasing, from `low` on, up to the last block of the
      list. */
  ghost predicate Climbs(sample: seq<BlockId>, low: int, ids: seq<BlockId>) {
    && ids != [] && sample != [] && sample[|sample| - 1] == ids[|ids| - 1]
    && (forall i :: 0 <= i < |sample| ==> sample[i] in ids && low <= sample[i].num)
    && (forall i, j :: 0 <= i < j < |sample| ==> sample[i].num < sample[j].num)
  }

  ghost predicate NumberedFrom(ids: seq<BlockId>, first: nat) {
    forall i :: 0 <= i < |ids| ==> ids[i].num == first + i
  }

  /** A sample climbs to the last block of the list, in no more steps than the distance has binary
      digits. */
  lemma {:induction false} SampledClimbs(ids: seq<BlockId>, first: nat, low: int, high: int)
    requires ids != [] && high == first + |ids| - 1 && low <= high && NumberedFrom(ids, first)
    ensures |Sampled(ids, first, low, high)| <= BitLength(high - low + 1)
    ensures Climbs(Sampled(ids, first, low, high), low, ids)
    decreases high - low
  {
    hide NextHeight, Sampled, NumberedFrom, Climbs, BitLength;
    var next := NextHeight(low, high);
    SampledStep(ids, first, low, high);
    LengthStep(high - low + 1);
    if next <= high {
      SampledClimbs(ids, first, next, high);
      var rest := Sampled(ids, first, next, high);
      if low >= first {
        NumberAt(ids, first, low);
        ClimbOn(ids[low - first], rest, next, ids);
      } else {
        Climbing(rest, next, low, ids);
        assert [] + rest == rest;
      }
    } else {
      NumberAt(ids, first, low);
      NothingSampled(ids, first, next, high);
      LastClimbs(low, ids);
      assert [ids[low - first]] + [] == [ids[|ids| - 1]];
    }
  }

  lemma SampledStep(ids: seq<BlockId>, first: nat, low: int, high: int)
    requires low <= high < first + |ids|
    ensures Sampled(ids, first, low, high) ==
            (if low >= first then [ids[low - first]] else []) + Sampled(ids, first, NextHeight(low, high), high)
  {
  }

  lemma NothingSampled(ids: seq<BlockId>, first: nat, low: int, high: int)
    requires high < low && high < first + |ids|
    ensures Sampled(ids, first, low, high) == []
  {
  }

  lemma LengthStep(n: nat)
    requires n > 0
    ensures BitLength(n) == 1 + BitLength(n / 2)
  {
  }

  lemma NumberAt(ids: seq<BlockId>, first: nat, h: int)
    requires NumberedFrom(ids, first) && first <= h < first + |ids|
    ensures ids[h - first].num == h
  {
  }

  lemma LastClimbs(low: int, ids: seq<BlockId>)
    requires ids != [] && low <= ids[|ids| - 1].num
    ensures Climbs([ids[|ids| - 1]], low, ids)
  {
  }

  lemma Climbing(rest: seq<BlockId>, next: int, low: int, ids: seq<BlockId>)
    requires low <= next && Climbs(rest, next, ids)
    ensures Climbs(rest, low, ids)
  {
  }

  lemma ClimbOn(head: BlockId, rest: seq<BlockId>, next: int, ids: seq<BlockId>)
    requires head in ids && head.num < next && Climbs(rest, next, ids)
    ensures Climbs([head] + rest, head.num, ids)
  {
    var sample := [head] + rest;
    forall i | 0 <= i < |sample|
      ensures sample[i] in ids && head.num <= sample[i].num && (i > 0 ==> head.num < sample[i].num)
    {
      if i > 0 {
        assert sample[i] == rest[i - 1];
      }
    }
    forall i, j | 0 <= i < j < |sample|
      ensures sample[i].num < sample[j].num
    {
      if i > 0 {
        assert sample[i] == rest[i - 1] && sample[j] == rest[j - 1];
      }
    }
  }

  /** One turn of the loop, in 32 bits. */
  function NextLow(low: Uint32, high: Uint32): Uint32 {
    (low + ((high - low + 2) % B32) / 2) % B32
  }

  /** The arithmetic of the loop does not wrap between `low` and `high`. */
  predicate LoopFits(low: int, high: int) {
    high < B32 - 1 && high - low + 2 < B32
  }

  lemma NextLowIsExact(low: Uint32, high: Uint32)
    requires low <= high && LoopFits(low, high)
    ensures NextLow(low, high) == NextHeight(low, high)
    ensures LoopFits(NextLow(low, high), high)
  {
    var step := high - low + 2;
    assert step % B32 == step && low + step / 2 < B32;
  }

  /** The top of the list, when block numbers stay within 32 bits. */
  ghost function Top(ids: seq<BlockId>): int
    requires ids != []
  {
    ids[0].num + |ids| - 1
  }

  ghost function Bottom(known: seq<BlockId>): nat {
    if known == [] then 1 else known[0].num
  }

  /** What is collected so far, with the sample from `low` on, makes up the whole. */
  ghost predicate Continues(whole: seq<BlockId>, soFar: seq<BlockId>,
                            ids: seq<BlockId>, first: nat, low: int, high: int)
  {
    high < first + |ids| && whole == soFar + Sampled(ids, first, low, high)
  }

  lemma TakeSample(whole: seq<BlockId>, soFar: seq<BlockId>, ids: seq<BlockId>, first: nat, low: int, high: int)
    requires low <= high && Continues(whole, soFar, ids, first, low, high)
    ensures Continues(whole, if low >= first then soFar + [ids[low - first]] else soFar,
                      ids, first, NextHeight(low, high), high)
  {
    hide NextHeight;
  }

  lemma NothingLeft(whole: seq<BlockId>, soFar: seq<BlockId>, ids: seq<BlockId>, first: nat, low: int, high: int)
    requires low > high && Continues(whole, soFar, ids, first, low, high)
    ensures whole == soFar
  {
  }

  /** Completes the synopsis of the chain with ids off the list. The index check fails exactly when
      the synopsis starts above the list. */
  method CompleteSynopsis(known: seq<BlockId>, ids: seq<BlockId>) returns (r: Result)
    requires ids != [] ==> Top(ids) < B32 && (Bottom(known) <= Top(ids) ==> LoopFits(Bottom(known), Top(ids)))
    ensures r.AssertionFailed? <==> ids != [] && Bottom(known) > Top(ids)
    ensures r.Ok? ==> r.synopsis == known + if ids == [] then [] else Sampled(ids, ids[0].num, Bottom(known), Top(ids))
  {
    var synopsis := known;
    if ids == [] {
      return Ok(synopsis);
    }
    var first := ids[0].num;
    var high: Uint32 := first + |ids| - 1;
    var low: Uint32 := if known == [] then 1 else known[0].num;
    ghost var whole := known + if low <= high then Sampled(ids, first, low, high) else [];
    r := TakeSamples(known, ids, first, low, high, whole);
  }

  /** The loop, which checks its index before it checks its bound. */
  method TakeSamples(known: seq<BlockId>, ids: seq<BlockId>, first: Uint32, start: Uint32, high: Uint32,
                     ghost whole: seq<BlockId>)
    returns (r: Result)
    requires high == first + |ids| - 1
    requires start <= high ==> LoopFits(start, high) && Continues(whole, known, ids, first, start, high)
    ensures r == if start > high then AssertionFailed else Ok(whole)
  {
    var synopsis, low := known, start;
    var going := true;
    while going
      invariant low > high && going ==> low == start
      invariant low <= high ==> going && LoopFits(low, high)
      invariant low == start || start <= high
      invariant !going ==> start <= high
      invariant start <= high ==> Continues(whole, synopsis, ids, first, low, high)
      decreases going, high - low
    {
      ghost var was := synopsis;
      if low >= first {
        var index := low - first;
        if index >= |ids| {
          return AssertionFailed;
        }
        synopsis := synopsis + [ids[index]];
      }
      NextLowIsExact(low, high);
      TakeSample(whole, was, ids, first, low, high);
      low := NextLow(low, high);
      going := low <= high;
    }
    NothingLeft(whole, synopsis, ids, first, low, high);
    return Ok(synopsis);
  }

  lemma {:induction false} GapFreeNumbers(ids: seq<BlockId>)
    requires ids != [] && GapFree(ids) && Top(ids) < B32
    ensures NumberedFrom(ids, ids[0].num)
  {
    var n := |ids| - 1;
    if n == 0 {
    } else {
      GapFreeNumbers(ids[..n]);
      assert ids[n - 1].num == ids[..n][n - 1].num == ids[0].num + n - 1;
      assert ids[n].num == Increment(ids[n - 1].num);
      assert forall i :: 0 <= i < n ==> ids[i] == ids[..n][i];
    }
  }

  /** Off a list without gaps, what the synopsis adds climbs to the last block of the list in
      logarithmically many steps. */
  lemma SynopsisReachesTop(known: seq<BlockId>, ids: seq<BlockId>)
    requires ids != [] && GapFree(ids) && Bottom(known) <= Top(ids) < B32
    ensures var added := Sampled(ids, ids[0].num, Bottom(known), Top(ids));
            Climbs(added, Bottom(known), ids) && |added| <= BitLength(Top(ids) - Bottom(known) + 1)
  {
    GapFreeNumbers(ids);
    SampledClimbs(ids, ids[0].num, Bottom(known), Top(ids));
  }

  /** Where the loop is after `k` turns, if it goes on. */
  ghost function LowAfter(k: nat, low: Uint32, high: Uint32): Uint32 {
    if k == 0 then low else LowAfter(k - 1, NextLow(low, high), high)
  }

  /** The loop stops exactly when its arithmetic does not wrap. */
  lemma LoopStops(low: Uint32, high: Uint32)
    requires low <= high
    ensures (exists k: nat :: LowAfter(k, low, high) > high) <==> LoopFits(low, high)
  {
    if LoopFits(low, high) {
      var k := TurnsToStop(low, high);
    } else if high < B32 - 1 {
      assert low == 0 && NextLow(0, high) == 0;
      forall k: nat
        ensures LowAfter(k, low, high) == 0
      {
        Stuck(k, low, high);
      }
    }
  }

  lemma {:induction false} TurnsToStop(low: Uint32, high: Uint32) returns (k: nat)
    requires low <= high && LoopFits(low, high)
    ensures LowAfter(k, low, high) > high
    decreases high - low
  {
    NextLowIsExact(low, high);
    var next := NextLow(low, high);
    if next <= high {
      var rest := TurnsToStop(next, high);
      k := rest + 1;
    } else {
      k := 1;
      assert LowAfter(0, next, high) == next;
    }
  }

  lemma {:induction false} Stuck(k: nat, low: Uint32, high: Uint32)
    requires NextLow(low, high) == low
    ensures LowAfter(k, low, high) == low
  {
    if k == 0 {
    } else {
      Stuck(k - 1, low, high);
    }
  }
}
