/**
 Time-share scheduling by virtual time: a witness with more votes has a shorter lap, and whoever
 is due first is processed first. What every step keeps, and how fair whole runs are.
 */
module VirtualTime {
  import opened Words

  type Uint128 = n: nat | n < 0x1_0000_0000_0000_0000_0000_0000_0000_0000
  type Votes = n: nat | n < 0x8000_0000_0000_0000
  type WitnessId = nat

  const MAX_TIME: Uint128 := B128 - 1
  const LAP_LENGTH: Uint128 := B128 - 1

  /** The scheduling fields of a witness. */
  datatype Runner = Runner(votes: Votes, position: Uint128, lastUpdate: Uint128, scheduled: Uint128)

  datatype Track = Track(time: Uint128, runners: map<WitnessId, Runner>)

  /** How long one lap takes, as a function of the votes. */
  type LapRule = Votes -> Uint128

  /** The rule of the chain: the greatest lap that, taken once for every vote and once more, fits into
      128 bits. The rounds below are stated for any rule. */
  function Lap(votes: Votes): (lap: Uint128)
    ensures (votes + 1) * lap <= 0xFFFF_FFFF_FFFF_FFFF_FFFF_FFFF_FFFF_FFFF < (votes + 1) * (lap + 1)
    ensures votes + 1 < lap
  {
    LapBounds(LAP_LENGTH, votes + 1);
    LAP_LENGTH / (votes + 1)
  }

  lemma LapBounds(length: nat, d: nat)
    requires 0 < d <= 0x8000_0000_0000_0000 && length == 0xFFFF_FFFF_FFFF_FFFF_FFFF_FFFF_FFFF_FFFF
    ensures d * (length / d) <= length < d * (length / d + 1) && d < length / d
  {
    var q := length / d;
    assert d * q <= length < d * q + d;
    assert d * (q + 1) == d * q + d;
    if q <= d {
      Products(d, q + 1, 0x8000_0000_0000_0000, 0x8000_0000_0000_0001);
    }
  }

  lemma Products(a: nat, b: nat, c: nat, d: nat)
    requires a <= c && b <= d
    ensures a * b <= c * d
  {
    assert a * b <= c * b <= c * d;
  }

  /** More votes never make for a longer lap. */
  lemma MoreVotesShorterLap(votes: Votes, more: Votes)
    requires votes <= more
    ensures Lap(more) <= Lap(votes)
  {
    var d, e, lap := votes + 1, more + 1, Lap(more);
    Products(d, lap, e, lap);
    if lap > Lap(votes) {
      Products(d, Lap(votes) + 1, d, lap);
    }
  }

  /** Nobody is due before the current virtual time. */
  ghost predicate OnTime(s: Track) {
    forall w :: w in s.runners ==> s.time <= s.runners[w].scheduled
  }

  predicate SameVotes(s: Track, s': Track) {
    s.runners.Keys == s'.runners.Keys && forall w :: w in s.runners ==> s'.runners[w].votes == s.runners[w].votes
  }

  ghost function Laps(rule: LapRule, s: Track): map<WitnessId, nat> {
    map w | w in s.runners :: rule(s.runners[w].votes)
  }

  ghost predicate IsNewLap(r: Runner, lap: nat, time: Uint128, r': Runner) {
    r'.votes == r.votes && r'.position == 0 && r'.lastUpdate == time && r'.scheduled == time + lap
  }

  /** Those due first are processed, time advances to the latest of them, and each of them starts
      a new lap from there. */
  ghost predicate Advances(laps: map<WitnessId, nat>, s: Track, processed: set<WitnessId>, s': Track) {
    && s'.runners.Keys == s.runners.Keys == laps.Keys
    && processed <= s.runners.Keys
    && (forall p, q :: p in processed && q in s.runners && q !in processed
                       ==> s.runners[p].scheduled <= s.runners[q].scheduled)
    && (forall p :: p in processed ==> s.runners[p].scheduled <= s'.time)
    && (if processed == {} then s'.time == s.time else exists p :: p in processed && s.runners[p].scheduled == s'.time)
    && (forall p :: p in processed ==> IsNewLap(s.runners[p], laps[p], s'.time, s'.runners[p]))
    && (forall q :: q in s.runners && q !in processed ==> s'.runners[q] == s.runners[q])
  }

  /** One scheduling round without overflow. */
  ghost predicate Round(rule: LapRule, s: Track, processed: set<WitnessId>, s': Track) {
    SameVotes(s, s') && Advances(Laps(rule, s), s, processed, s')
  }

  /** What an overflow resets everything to. */
  function Reset(rule: LapRule, s: Track): Track {
    Track(0, map w | w in s.runners :: Runner(s.runners[w].votes, 0, 0, rule(s.runners[w].votes)))
  }

  /** A change of votes: the position reached so far is carried over, and a time that overflows
      is replaced by the end of time. */
  function Adjust(s: Track, w: WitnessId, votes: Votes): Track
    requires w in s.runners
  {
    var r := s.runners[w];
    var elapsed := (s.time - r.lastUpdate) % B128;
    var position := (r.position + r.votes * elapsed) % B128;
    var remaining := ((LAP_LENGTH - position) % B128) / (votes + 1);
    var due := (s.time + remaining) % B128;
    s.(runners := s.runners[w := Runner(votes, position, s.time, if due < s.time then MAX_TIME else due)])
  }

  /** A new witness is due at the end of time until it is voted for. */
  function Enter(s: Track, w: WitnessId): Track {
    s.(runners := s.runners[w := Runner(0, 0, 0, MAX_TIME)])
  }

  lemma RoundKeepsTime(laps: map<WitnessId, nat>, s: Track, processed: set<WitnessId>, s': Track)
    requires OnTime(s) && Advances(laps, s, processed, s')
    ensures OnTime(s') && s.time <= s'.time
  {
    if processed == {} {
    } else {
      var p :| p in processed && s.runners[p].scheduled == s'.time;
    }
  }

  datatype Step =
    | Schedule(processed: set<WitnessId>)
    | Overflow
    | Vote(w: WitnessId, votes: Votes)
    | Join(w: WitnessId)

  ghost predicate Next(rule: LapRule, s: Track, step: Step, s': Track) {
    match step
    case Schedule(processed) => Round(rule, s, processed, s')
    case Overflow => s' == Reset(rule, s)
    case Vote(w, votes) => w in s.runners && s' == Adjust(s, w, votes)
    case Join(w) => w !in s.runners && s' == Enter(s, w)
  }

  ghost predicate IsRun(rule: LapRule, states: seq<Track>, steps: seq<Step>) {
    |states| == |steps| + 1 && forall k :: 0 <= k < |steps| ==> Next(rule, states[k], steps[k], states[k + 1])
  }

  /** Over every run of rounds, resets, vote changes and new witnesses, nobody is ever due in the
      past, and time goes back only at a reset. */
  lemma {:induction false} RunsStayOnTime(rule: LapRule, states: seq<Track>, steps: seq<Step>, n: nat)
    requires IsRun(rule, states, steps) && OnTime(states[0]) && n < |states|
    ensures OnTime(states[n])
    ensures 0 < n && !steps[n - 1].Overflow? ==> states[n - 1].time <= states[n].time
  {
    if n == 0 {
    } else {
      RunsStayOnTime(rule, states, steps, n - 1);
      assert Next(rule, states[n - 1], steps[n - 1], states[n]);
      if steps[n - 1].Schedule? {
        RoundKeepsTime(Laps(rule, states[n - 1]), states[n - 1], steps[n - 1].processed, states[n]);
      }
    }
  }

  // ----- Changes of votes -----

  /** What a witness has covered of its lap, with what it will cover until it is due, is no more than
      the length of a lap. */
  ghost predicate Paced(s: Track) {
    forall w :: w in s.runners ==> IsPaced(s.runners[w], s.time)
  }

  ghost predicate IsPaced(r: Runner, time: Uint128) {
    r.lastUpdate <= time <= r.scheduled && r.position + (r.votes + 1) * (r.scheduled - r.lastUpdate) <= LAP_LENGTH
  }

  /** What a change of votes leaves: the position moves on by the old votes for the time since the last
      update, and the rest of the lap is covered at the new votes, or until the end of time. Nothing
      wraps around. */
  lemma VoteChange(s: Track, w: WitnessId, votes: Votes)
    requires Paced(s) && w in s.runners
    ensures var r, s', length := s.runners[w], Adjust(s, w, votes), 0xFFFF_FFFF_FFFF_FFFF_FFFF_FFFF_FFFF_FFFF;
            var r' := s'.runners[w];
            && s'.time == s.time && s'.runners.Keys == s.runners.Keys
            && (forall v :: v in s.runners && v != w ==> s'.runners[v] == s.runners[v])
            && r'.votes == votes && r'.lastUpdate == s.time
            && r'.position == r.position + r.votes * (s.time - r.lastUpdate) <= length
            && var due := s.time + (length - r'.position) / (votes + 1);
               s.time <= r'.scheduled == if due <= length then due else length
  {
    var r := s.runners[w];
    PositionFits(r, s.time);
    hide Paced, IsPaced, Adjust;
    var product := r.votes * (s.time - r.lastUpdate);
    AdjustIs(s, w, votes, product);
  }

  lemma VoteChangeIsPaced(s: Track, w: WitnessId, votes: Votes)
    requires Paced(s) && w in s.runners
    ensures Paced(Adjust(s, w, votes))
  {
    hide IsPaced, Adjust;
    VoteChange(s, w, votes);
    WaitIsPaced(Adjust(s, w, votes).runners[w], s.time);
  }

  /** Waiting for as long as the rest of the lap takes, or less. */
  lemma WaitIsPaced(r: Runner, time: Uint128)
    requires r.lastUpdate == time <= r.scheduled <= time + (LAP_LENGTH - r.position) / (r.votes + 1)
    ensures IsPaced(r, time)
  {
    RestFits(LAP_LENGTH - r.position, r.votes + 1, r.scheduled - time);
  }

  lemma AdjustIs(s: Track, w: WitnessId, votes: Votes, product: nat)
    requires w in s.runners && s.runners[w].lastUpdate <= s.time
    requires product == s.runners[w].votes * (s.time - s.runners[w].lastUpdate)
    requires s.runners[w].position + product <= LAP_LENGTH
    ensures var s', position := Adjust(s, w, votes), s.runners[w].position + product;
            var due := s.time + (LAP_LENGTH - position) / (votes + 1);
            && s'.time == s.time && s'.runners.Keys == s.runners.Keys
            && (forall v :: v in s.runners && v != w ==> s'.runners[v] == s.runners[v])
            && s'.runners[w].votes == votes && s'.runners[w].position == position && s'.runners[w].lastUpdate == s.time
            && s'.runners[w].scheduled == (if due <= MAX_TIME then due else MAX_TIME) && s.time <= due
  {
    var r, position := s.runners[w], s.runners[w].position + product;
    Small(s.time - r.lastUpdate);
    Small(position);
    Small(LAP_LENGTH - position);
    var rest := (LAP_LENGTH - position) / (votes + 1);
    SmallerQuotient(LAP_LENGTH - position, votes + 1);
    Wrapped(s.time, rest);
  }

  lemma Small(x: nat)
    requires x < B128
    ensures x % B128 == x
  {
  }

  lemma SmallerQuotient(x: nat, d: nat)
    requires d > 0
    ensures 0 <= x / d <= x
  {
    var q := x / d;
    assert x == q * d + x % d;
    if q > 0 {
      Products(q, 1, q, d);
    }
  }

  lemma Wrapped(a: Uint128, b: Uint128)
    ensures var sum := (a + b) % B128; if a + b < B128 then sum == a + b else sum < a
  {
  }

  lemma PositionFits(r: Runner, time: Uint128)
    requires IsPaced(r, time)
    ensures r.lastUpdate <= time && 0 <= r.votes * (time - r.lastUpdate)
    ensures r.position + r.votes * (time - r.lastUpdate) <= LAP_LENGTH
  {
    Products(r.votes, time - r.lastUpdate, r.votes + 1, r.scheduled - r.lastUpdate);
  }

  lemma RestFits(rest: nat, d: nat, wait: nat)
    requires d > 0 && wait <= rest / d
    ensures d * wait <= rest
  {
    Products(d, wait, d, rest / d);
  }

  /** Over every run under the rule of the chain, everyone is paced; so no change of votes ever wraps
      around. */
  lemma {:induction false} RunsStayPaced(states: seq<Track>, steps: seq<Step>, n: nat)
    requires IsRun(Lap, states, steps) && Paced(states[0]) && n < |states|
    ensures Paced(states[n])
  {
    if n == 0 {
    } else {
      RunsStayPaced(states, steps, n - 1);
      PacedStep(states[n - 1], steps[n - 1], states[n]);
    }
  }

  lemma PacedStep(s: Track, step: Step, s': Track)
    requires Paced(s) && Next(Lap, s, step, s')
    ensures Paced(s')
  {
    hide Adjust, Lap, IsPaced, Round;
    match step
    case Schedule(processed) => PacedRound(s, processed, s');
    case Overflow => PacedReset(s);
    case Vote(w, votes) => VoteChangeIsPaced(s, w, votes);
    case Join(w) => NewcomerIsPaced(s.time);
  }

  lemma PacedRound(s: Track, processed: set<WitnessId>, s': Track)
    requires Paced(s) && Round(Lap, s, processed, s')
    ensures Paced(s')
  {
    assert OnTime(s) by {
      forall w | w in s.runners
        ensures s.time <= s.runners[w].scheduled
      {
        assert IsPaced(s.runners[w], s.time);
      }
    }
    RoundKeepsTime(Laps(Lap, s), s, processed, s');
    hide Round, IsPaced, Lap, OnTime;
    forall w | w in s'.runners
      ensures IsPaced(s'.runners[w], s'.time)
    {
      StillPaced(s, processed, s', w);
    }
  }

  lemma PacedReset(s: Track)
    ensures Paced(Reset(Lap, s))
  {
    hide Lap, IsPaced;
    forall w | w in s.runners
      ensures IsPaced(Reset(Lap, s).runners[w], 0)
    {
      NewLapIsPaced(Reset(Lap, s).runners[w], 0);
    }
  }

  lemma NewLapIsPaced(r: Runner, time: Uint128)
    requires r.position == 0 && r.lastUpdate == time && r.scheduled == time + Lap(r.votes)
    ensures IsPaced(r, time)
  {
  }

  lemma NewcomerIsPaced(time: Uint128)
    ensures IsPaced(Runner(0, 0, 0, MAX_TIME), time)
  {
  }

  lemma StillPaced(s: Track, processed: set<WitnessId>, s': Track, w: WitnessId)
    requires Paced(s) && Round(Lap, s, processed, s') && OnTime(s') && s.time <= s'.time && w in s'.runners
    ensures IsPaced(s'.runners[w], s'.time)
  {
    if w in processed {
      NewLapIsPaced(s'.runners[w], s'.time);
    } else {
      assert IsPaced(s.runners[w], s.time);
    }
  }

  // ----- Proportional share -----

  /** A stretch of rounds: `rounds[k]` takes `states[k]` to `states[k + 1]`. */
  ghost predicate IsStretch(rule: LapRule, states: seq<Track>, rounds: seq<set<WitnessId>>) {
    |states| == |rounds| + 1 && forall k :: 0 <= k < |rounds| ==> Round(rule, states[k], rounds[k], states[k + 1])
  }

  /** The same with the laps, which never change, written out. */
  ghost predicate IsLapped(laps: map<WitnessId, nat>, states: seq<Track>, rounds: seq<set<WitnessId>>) {
    |states| == |rounds| + 1 && forall k :: 0 <= k < |rounds| ==> Advances(laps, states[k], rounds[k], states[k + 1])
  }

  /** How often `v` is processed in rounds `i` up to but not including `j`. */
  ghost function Turns(rounds: seq<set<WitnessId>>, v: WitnessId, i: nat, j: nat): nat
    requires i <= j <= |rounds|
  {
    if i == j then 0 else Turns(rounds, v, i, j - 1) + if v in rounds[j - 1] then 1 else 0
  }

  /** The virtual time those turns take, at `lap` each. */
  ghost function LapTime(rounds: seq<set<WitnessId>>, v: WitnessId, lap: nat, i: nat, j: nat): nat
    requires i <= j <= |rounds|
  {
    if i == j then 0 else LapTime(rounds, v, lap, i, j - 1) + if v in rounds[j - 1] then lap else 0
  }

  lemma {:induction false} LapTimeIsTurns(rounds: seq<set<WitnessId>>, v: WitnessId, lap: nat, i: nat, j: nat)
    requires i <= j <= |rounds|
    ensures LapTime(rounds, v, lap, i, j) == Turns(rounds, v, i, j) * lap
    decreases j
  {
    if i == j {
    } else {
      LapTimeIsTurns(rounds, v, lap, i, j - 1);
      OneMoreLap(Turns(rounds, v, i, j - 1), lap);
    }
  }

  lemma OneMoreLap(n: nat, lap: nat)
    ensures (n + 1) * lap == n * lap + lap
  {
  }

  lemma {:induction false} LapsFixed(rule: LapRule, states: seq<Track>, rounds: seq<set<WitnessId>>, k: nat)
    requires IsStretch(rule, states, rounds) && k <= |rounds|
    ensures Laps(rule, states[k]) == Laps(rule, states[0])
  {
    if k == 0 {
    } else {
      LapsFixed(rule, states, rounds, k - 1);
      assert Round(rule, states[k - 1], rounds[k - 1], states[k]);
    }
  }

  lemma {:induction false} StretchOnTime(laps: map<WitnessId, nat>, states: seq<Track>, rounds: seq<set<WitnessId>>, k: nat)
    requires IsLapped(laps, states, rounds) && OnTime(states[0]) && k <= |rounds|
    ensures OnTime(states[k])
  {
    if k == 0 {
    } else {
      StretchOnTime(laps, states, rounds, k - 1);
      RoundKeepsTime(laps, states[k - 1], rounds[k - 1], states[k]);
    }
  }

  /** `w` started its lap at `base`; since then `v` has used up `taken` of virtual time. */
  ghost predicate LapUnderWay(laps: map<WitnessId, nat>, s: Track, w: WitnessId, v: WitnessId, base: nat, taken: nat) {
    && s.runners.Keys == laps.Keys && w in laps && v in laps
    && s.runners[w].scheduled == base + laps[w]
    && s.runners[v].scheduled >= base + taken
    && taken <= laps[w] + laps[v]
  }

  lemma LapStarts(laps: map<WitnessId, nat>, s: Track, processed: set<WitnessId>, s': Track, w: WitnessId, v: WitnessId)
    requires Advances(laps, s, processed, s') && OnTime(s') && v in laps && w in processed
    ensures LapUnderWay(laps, s', w, v, s'.time, if v in processed then laps[v] else 0)
  {
  }

  lemma LapContinues(laps: map<WitnessId, nat>, s: Track, processed: set<WitnessId>, s': Track,
                     w: WitnessId, v: WitnessId, base: nat, taken: nat)
    requires Advances(laps, s, processed, s') && LapUnderWay(laps, s, w, v, base, taken) && w !in processed
    ensures LapUnderWay(laps, s', w, v, base, taken + if v in processed then laps[v] else 0)
  {
    if v in processed {
      var p :| p in processed && s.runners[p].scheduled == s'.time;
      assert s.runners[v].scheduled <= s'.time <= s.runners[w].scheduled;
    }
  }

  /** While `w` waits out one lap, the turns `v` takes fit into that lap. */
  lemma {:induction false} TurnsFitLap(laps: map<WitnessId, nat>, states: seq<Track>, rounds: seq<set<WitnessId>>,
                                       w: WitnessId, v: WitnessId, i: nat, k: nat)
    requires IsLapped(laps, states, rounds) && OnTime(states[0]) && v in laps
    requires i < k <= |rounds| && w in rounds[i] && forall r :: i < r < k ==> w !in rounds[r]
    ensures LapUnderWay(laps, states[k], w, v, states[i + 1].time, LapTime(rounds, v, laps[v], i, k))
    decreases k
  {
    hide IsLapped, Advances, OnTime, LapUnderWay;
    RoundAt(laps, states, rounds, k - 1);
    if k == i + 1 {
      StretchOnTime(laps, states, rounds, k);
      LapStarts(laps, states[i], rounds[i], states[k], w, v);
      assert LapTime(rounds, v, laps[v], i, i) == 0;
    } else {
      TurnsFitLap(laps, states, rounds, w, v, i, k - 1);
      LapContinues(laps, states[k - 1], rounds[k - 1], states[k], w, v,
                   states[i + 1].time, LapTime(rounds, v, laps[v], i, k - 1));
    }
  }

  lemma RoundAt(laps: map<WitnessId, nat>, states: seq<Track>, rounds: seq<set<WitnessId>>, k: nat)
    requires IsLapped(laps, states, rounds) && k < |rounds|
    ensures |states| == |rounds| + 1 && Advances(laps, states[k], rounds[k], states[k + 1])
  {
  }

  /** From one processing of `w` up to its next, `v` is processed at most once more than the
      number of its laps that fit into one lap of `w`. */
  lemma ProportionalShare(rule: LapRule, states: seq<Track>, rounds: seq<set<WitnessId>>,
                          w: WitnessId, v: WitnessId, i: nat, j: nat)
    requires IsStretch(rule, states, rounds) && OnTime(states[0])
    requires w in states[0].runners && v in states[0].runners && rule(states[0].runners[v].votes) > 0
    requires i < j < |rounds| && w in rounds[i] && w in rounds[j] && forall r :: i < r < j ==> w !in rounds[r]
    ensures Turns(rounds, v, i, j) <= 1 + rule(states[0].runners[w].votes) / rule(states[0].runners[v].votes)
  {
    var laps := Laps(rule, states[0]);
    forall k | 0 <= k < |rounds| ensures Advances(laps, states[k], rounds[k], states[k + 1]) {
      LapsFixed(rule, states, rounds, k);
      assert Round(rule, states[k], rounds[k], states[k + 1]);
    }
    TurnsFitLap(laps, states, rounds, w, v, i, j);
    LapTimeIsTurns(rounds, v, laps[v], i, j);
    QuotientBound(Turns(rounds, v, i, j), laps[v], laps[w]);
  }

  /** The same under the rule of the chain, in votes: the turns of `v` are to one turn of `w` as their
      votes are, and at most one more. */
  lemma ShareByVotes(states: seq<Track>, rounds: seq<set<WitnessId>>, w: WitnessId, v: WitnessId, i: nat, j: nat)
    requires IsStretch(Lap, states, rounds) && OnTime(states[0])
    requires w in states[0].runners && v in states[0].runners
    requires i < j < |rounds| && w in rounds[i] && w in rounds[j] && forall r :: i < r < j ==> w !in rounds[r]
    ensures var length := 0xFFFF_FFFF_FFFF_FFFF_FFFF_FFFF_FFFF_FFFF;
            Turns(rounds, v, i, j) <= 1 + (length / (states[0].runners[w].votes + 1)) / (length / (states[0].runners[v].votes + 1))
    ensures Turns(rounds, v, i, j) <= 1 + (states[0].runners[v].votes + 1) / (states[0].runners[w].votes + 1)
  {
    ProportionalShare(Lap, states, rounds, w, v, i, j);
    LapsByVotes(states[0].runners[w].votes, states[0].runners[v].votes);
    hide IsStretch, OnTime, Turns;
  }

  /** How many laps of one witness fit into a lap of another. */
  lemma LapsByVotes(w: Votes, v: Votes)
    ensures var length := 0xFFFF_FFFF_FFFF_FFFF_FFFF_FFFF_FFFF_FFFF;
            Lap(w) == length / (w + 1) && Lap(v) == length / (v + 1)
    ensures Lap(w) / Lap(v) <= (v + 1) / (w + 1)
  {
    FitsByRatio(w + 1, v + 1, Lap(w), Lap(v), 0xFFFF_FFFF_FFFF_FFFF_FFFF_FFFF_FFFF_FFFF);
  }

  lemma FitsByRatio(a: nat, b: nat, x: nat, y: nat, length: nat)
    requires 0 < a && 0 < b <= y && a * x <= length < b * (y + 1)
    ensures x / y <= b / a
  {
    var q := x / y;
    assert q * y <= x;
    Products(a, q * y, a, x);
    assert (a * q) * y == a * (q * y);
    assert b * (y + 1) == b * y + b && (b + 1) * y == b * y + y;
    if a * q > b {
      Products(b + 1, y, a * q, y);
    }
    AtMostQuotient(q, a, b);
  }

  lemma AtMostQuotient(q: nat, a: nat, b: nat)
    requires a > 0 && a * q <= b
    ensures q <= b / a
  {
    var k := b / a;
    assert b < a * k + a == a * (k + 1);
    if q > k {
      Products(a, k + 1, a, q);
    }
  }

  lemma QuotientBound(n: nat, d: nat, m: nat)
    requires d > 0 && (n > 0 ==> n * d <= m + d)
    ensures n <= 1 + m / d
  {
    var q := m / d;
    assert m < q * d + d;
    assert n * d < (q + 2) * d;
    SmallerFactor(n, q + 2, d);
  }

  lemma SmallerFactor(a: int, b: int, d: nat)
    requires a * d < b * d
    ensures a < b
  {
  }
}
