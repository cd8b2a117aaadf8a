/**
 The cache of messages recently seen, kept for a number of blocks.
 */
module MessageCaches {
  import opened Words

  /** How many blocks a message is kept. */
  const DURATION: Uint32 := 20

  type Hash = nat

  type Message = nat

  datatype Entry = Entry(message: Message, received: Uint32)

  datatype Lookup = Found(message: Message) | KeyNotFound

  // ----- The history behind the cache -----

  datatype Event = Accepted | Cached(hash: Hash, message: Message)

  /** How many blocks were accepted. */
  ghost function Blocks(history: seq<Event>): nat {
    if history == [] then 0
    else Blocks(history[..|history| - 1]) + if history[|history| - 1].Accepted? then 1 else 0
  }

  /** The message at `i` is stored by that event: its hash was not kept at the time. */
  ghost predicate Stores(history: seq<Event>, i: nat)
    requires i < |history|
    decreases i, 0
  {
    history[i].Cached? && forall j :: 0 <= j < i ==> !Keeps(history, j, i, history[i].hash)
  }

  /** The event at `j` stored the message with this hash, and no more than the duration has passed
      when the history is `n` long. */
  ghost predicate Keeps(history: seq<Event>, j: nat, n: nat, hash: Hash)
    requires j < n <= |history|
    decreases j, 1
  {
    && history[j].Cached? && history[j].hash == hash && Stores(history, j)
    && Blocks(history[..n]) <= Blocks(history[..j]) + DURATION
  }

  ghost predicate Kept(history: seq<Event>, hash: Hash) {
    exists j :: 0 <= j < |history| && Keeps(history, j, |history|, hash)
  }

  /** What a lookup after this history is to give: the message of the event that keeps the hash. */
  ghost predicate Recalls(history: seq<Event>, hash: Hash, answer: Lookup) {
    match answer
    case Found(message) =>
      exists j :: 0 <= j < |history| && Keeps(history, j, |history|, hash) && history[j].message == message
    case KeyNotFound => !Kept(history, hash)
  }

  lemma {:induction false} BlocksGrow(history: seq<Event>, i: nat, j: nat)
    requires i <= j <= |history|
    ensures Blocks(history[..i]) <= Blocks(history[..j])
    decreases j
  {
    if i < j {
      BlocksGrow(history, i, j - 1);
      assert history[..j][..j - 1] == history[..j - 1];
    }
  }

  /** What is kept later was kept all along. */
  lemma KeptAllAlong(history: seq<Event>, j: nat, m: nat, n: nat, hash: Hash)
    requires j < m <= n <= |history| && Keeps(history, j, n, hash)
    ensures Keeps(history, j, m, hash)
  {
    BlocksGrow(history, m, n);
  }

  /** At most one event keeps a hash. */
  lemma KeptOnce(history: seq<Event>, i: nat, j: nat, n: nat, hash: Hash)
    requires i < n && j < n <= |history| && Keeps(history, i, n, hash) && Keeps(history, j, n, hash)
    ensures i == j
  {
    if i < j {
      KeptAllAlong(history, i, j, n, hash);
    } else if j < i {
      KeptAllAlong(history, j, i, n, hash);
    }
  }

  /** A lookup has one answer. */
  lemma RecallIsUnique(history: seq<Event>, hash: Hash, a: Lookup, b: Lookup)
    requires Recalls(history, hash, a) && Recalls(history, hash, b)
    ensures a == b
  {
    if a.Found? && b.Found? {
      var i :| 0 <= i < |history| && Keeps(history, i, |history|, hash) && history[i].message == a.message;
      var j :| 0 <= j < |history| && Keeps(history, j, |history|, hash) && history[j].message == b.message;
      KeptOnce(history, i, j, |history|, hash);
    }
  }

  /** What happened is not changed by what happens next. */
  lemma {:induction false} PastIsFixed(history: seq<Event>, e: Event, i: nat)
    requires i < |history|
    ensures Stores(history + [e], i) <==> Stores(history, i)
    ensures forall n, hash :: i < n <= |history| ==> (Keeps(history + [e], i, n, hash) <==> Keeps(history, i, n, hash))
    decreases i
  {
    var longer := history + [e];
    forall n: nat | n <= |history|
      ensures longer[..n] == history[..n]
    {
    }
    if history[i].Cached? {
      forall j | 0 <= j < i
        ensures Keeps(longer, j, i, history[i].hash) <==> Keeps(history, j, i, history[i].hash)
      {
        PastIsFixed(history, e, j);
      }
    }
  }

  /** The cache holds what the history keeps, as long as the block clock has not wrapped. */
  ghost predicate Holds(messages: map<Hash, Entry>, history: seq<Event>) {
    && (forall hash :: hash in messages ==>
          exists j :: 0 <= j < |history| && IsEntry(messages[hash], history, j, hash))
    && (forall hash, j :: 0 <= j < |history| && Keeps(history, j, |history|, hash) ==> hash in messages)
  }

  ghost predicate IsEntry(entry: Entry, history: seq<Event>, j: nat, hash: Hash)
    requires j < |history|
  {
    && Keeps(history, j, |history|, hash)
    && entry.message == history[j].message && entry.received == Blocks(history[..j])
  }

  /** The messages whose time is not up at this clock. */
  function Unexpired(messages: map<Hash, Entry>, clock: nat): map<Hash, Entry> {
    map hash | hash in messages && clock <= messages[hash].received + DURATION :: messages[hash]
  }

  lemma NewBlock(messages: map<Hash, Entry>, history: seq<Event>, clock: nat)
    requires Holds(messages, history) && clock == Blocks(history) + 1
    ensures Holds(Unexpired(messages, clock), history + [Accepted])
  {
    var n, longer, kept := |history|, history + [Accepted], Unexpired(messages, clock);
    assert longer[..n] == history && longer[..|longer|] == longer;
    assert Blocks(longer) == clock;
    forall hash | hash in kept
      ensures exists j :: 0 <= j < |longer| && IsEntry(kept[hash], longer, j, hash)
    {
      var j :| 0 <= j < n && IsEntry(messages[hash], history, j, hash);
      PastIsFixed(history, Accepted, j);
      assert longer[..j] == history[..j];
      assert IsEntry(kept[hash], longer, j, hash);
    }
    forall hash, j | 0 <= j < |longer| && Keeps(longer, j, |longer|, hash)
      ensures hash in kept
    {
      KeptAllAlong(longer, j, n, |longer|, hash);
      PastIsFixed(history, Accepted, j);
      var i :| 0 <= i < n && IsEntry(messages[hash], history, i, hash);
      KeptOnce(history, i, j, n, hash);
      assert longer[..j] == history[..j];
    }
  }

  lemma MessageKeepsPast(history: seq<Event>, e: Event, j: nat, h: Hash)
    requires j < |history| && e.Cached?
    ensures Keeps(history + [e], j, |history| + 1, h) <==> Keeps(history, j, |history|, h)
    ensures Keeps(history + [e], j, |history|, h) <==> Keeps(history, j, |history|, h)
  {
    var n, longer := |history|, history + [e];
    PastIsFixed(history, e, j);
    assert longer[..n] == history == history[..n] && longer[..n + 1] == longer && longer[..j] == history[..j];
    assert Blocks(longer) == Blocks(history);
  }

  /** Caching a message stores it exactly when its hash is not kept. */
  lemma MessageIsStored(history: seq<Event>, hash: Hash, message: Message)
    ensures Keeps(history + [Cached(hash, message)], |history|, |history| + 1, hash) <==> !Kept(history, hash)
  {
    var n, longer := |history|, history + [Cached(hash, message)];
    assert longer[..n] == history && longer[..n + 1] == longer;
    assert Blocks(longer) == Blocks(history);
    forall j | 0 <= j < n
      ensures Keeps(longer, j, n, hash) <==> Keeps(history, j, n, hash)
    {
      MessageKeepsPast(history, Cached(hash, message), j, hash);
    }
    assert Stores(longer, n) <==> !Kept(history, hash);
  }

  function Stored(messages: map<Hash, Entry>, hash: Hash, entry: Entry): map<Hash, Entry> {
    if hash in messages then messages else messages[hash := entry]
  }

  lemma NewMessage(messages: map<Hash, Entry>, history: seq<Event>, hash: Hash, message: Message, clock: Uint32)
    requires Holds(messages, history) && clock == Blocks(history)
    ensures Holds(Stored(messages, hash, Entry(message, clock)), history + [Cached(hash, message)])
  {
    var n, e := |history|, Cached(hash, message);
    var longer, more := history + [e], Stored(messages, hash, Entry(message, clock));
    MessageIsStored(history, hash, message);
    assert longer[..n] == history;
    forall h | h in more
      ensures exists j :: 0 <= j < |longer| && IsEntry(more[h], longer, j, h)
    {
      if h in messages {
        var j :| 0 <= j < n && IsEntry(messages[h], history, j, h);
        MessageKeepsPast(history, e, j, h);
        assert longer[..j] == history[..j];
        assert IsEntry(more[h], longer, j, h);
      } else {
        assert IsEntry(more[h], longer, n, h);
      }
    }
    forall h, j | 0 <= j < |longer| && Keeps(longer, j, |longer|, h)
      ensures h in more
    {
      if j < n {
        MessageKeepsPast(history, e, j, h);
      }
    }
  }

  // ----- Caching again -----

  /** The messages held after a history. */
  ghost function Replay(history: seq<Event>): map<Hash, Entry>
    requires Blocks(history) < B32
  {
    if history == [] then map[]
    else
      var before := Replay(history[..|history| - 1]);
      match history[|history| - 1]
      case Accepted => Unexpired(before, Blocks(history))
      case Cached(hash, message) => Stored(before, hash, Entry(message, Blocks(history)))
  }

  lemma {:induction false} ReplayHolds(history: seq<Event>)
    requires Blocks(history) < B32
    ensures Holds(Replay(history), history)
  {
    if history == [] {
    } else {
      var before, e := history[..|history| - 1], history[|history| - 1];
      ReplayHolds(before);
      assert before + [e] == history;
      hide Holds;
      match e
      case Accepted => NewBlock(Replay(before), before, Blocks(history));
      case Cached(hash, message) => NewMessage(Replay(before), before, hash, message, Blocks(before));
    }
  }

  /** Histories that leave the same messages at the same clock have the same future. */
  lemma {:induction false} SameFuture(a: seq<Event>, b: seq<Event>, later: seq<Event>)
    requires Blocks(a) == Blocks(b) < B32 && Replay(a) == Replay(b) && Blocks(b + later) < B32
    ensures Blocks(a + later) == Blocks(b + later) && Replay(a + later) == Replay(b + later)
  {
    if later == [] {
      assert a + later == a && b + later == b;
    } else {
      var n := |later| - 1;
      assert (a + later)[..|a + later| - 1] == a + later[..n];
      assert (b + later)[..|b + later| - 1] == b + later[..n];
      SameFuture(a, b, later[..n]);
    }
  }

  lemma SameMessagesSameAnswers(messages: map<Hash, Entry>, a: seq<Event>, b: seq<Event>, hash: Hash, answer: Lookup)
    requires Holds(messages, a) && Holds(messages, b) && Recalls(a, hash, answer)
    ensures Recalls(b, hash, answer)
  {
    if answer.Found? {
      var i :| 0 <= i < |a| && Keeps(a, i, |a|, hash) && a[i].message == answer.message;
      var k :| 0 <= k < |a| && IsEntry(messages[hash], a, k, hash);
      KeptOnce(a, i, k, |a|, hash);
      var j :| 0 <= j < |b| && IsEntry(messages[hash], b, j, hash);
    } else {
      assert hash !in messages;
    }
  }

  /** Caching a message whose hash is kept changes no lookup, now or later: it does not replace the
      message and does not keep it for longer. */
  lemma RecachingChangesNothing(history: seq<Event>, hash: Hash, message: Message, later: seq<Event>, h: Hash, answer: Lookup)
    requires Kept(history, hash) && Blocks(history) < B32 && Blocks(history + later) < B32
    ensures Recalls(history + [Cached(hash, message)] + later, h, answer) <==> Recalls(history + later, h, answer)
  {
    var again := history + [Cached(hash, message)];
    assert again[..|again| - 1] == history;
    ReplayHolds(history);
    assert Replay(again) == Replay(history);
    SameFuture(again, history, later);
    ReplayHolds(again + later);
    ReplayHolds(history + later);
    var messages := Replay(history + later);
    if Recalls(history + later, h, answer) {
      SameMessagesSameAnswers(messages, history + later, again + later, h, answer);
    }
    if Recalls(again + later, h, answer) {
      SameMessagesSameAnswers(messages, again + later, history + later, h, answer);
    }
  }

  /** The block clock has 32 bits. */
  lemma ClockTicks(blocks: nat)
    ensures Increment(blocks % B32) == (blocks + 1) % B32
    ensures blocks + 1 < B32 ==> Increment(blocks % B32) == blocks + 1
  {
  }

  class MessageCache {
    var messages: map<Hash, Entry>
    var blockClock: Uint32

    /** Everything that happened to the cache. */
    ghost var history: seq<Event>

    ghost predicate Valid()
      reads this
    {
      && blockClock == Blocks(history) % B32
      && (Blocks(history) < B32 ==> Holds(messages, history))
    }

    constructor ()
      ensures Valid() && history == []
    {
      messages, blockClock, history := map[], 0, [];
    }

    /** Counts a block, and drops the messages whose time is up. */
    method BlockAccepted()
      requires Valid()
      modifies this
      ensures Valid() && history == old(history) + [Accepted]
    {
      hide Holds;
      ClockTicks(Blocks(history));
      blockClock := Increment(blockClock);
      hide Increment;
      var clock, all := blockClock, messages;
      if clock > DURATION {
        messages := map hash | hash in all && all[hash].received >= clock - DURATION :: all[hash];
      }
      history := history + [Accepted];
      assert messages == Unexpired(all, clock);
      assert history[..|history| - 1] == old(history);
      assert Blocks(history) == Blocks(old(history)) + 1;
      if Blocks(history) < B32 {
        NewBlock(all, old(history), clock);
      }
    }

    /** Keeps a message, unless there is one with this hash. */
    method CacheMessage(hash: Hash, message: Message)
      requires Valid()
      modifies this
      ensures Valid() && history == old(history) + [Cached(hash, message)]
    {
      hide Holds;
      if Blocks(history) < B32 {
        NewMessage(messages, history, hash, message, blockClock);
      }
      if hash !in messages {
        messages := messages[hash := Entry(message, blockClock)];
      }
      assert messages == Stored(old(messages), hash, Entry(message, blockClock));
      history := history + [Cached(hash, message)];
      assert history[..|history| - 1] == old(history);
    }

    /** Until the block clock wraps, a lookup recalls the history. */
    method GetMessage(hash: Hash) returns (answer: Lookup)
      requires Valid()
      ensures Blocks(history) < B32 ==> Recalls(history, hash, answer)
    {
      if hash in messages {
        return Found(messages[hash].message);
      }
      return KeyNotFound;
    }
  }
}
