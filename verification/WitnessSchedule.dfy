/**
 Choosing a slate and moving virtual time: the witnesses processed start a new lap, or everything is
 reset when that would overflow.
 */
module WitnessSchedule {
  import opened Words
  import opened VirtualTime
  import opened WitnessSelection
  import opened Lists

  // ----- Advancing the processed witnesses -----

  ghost function TrackOf(time: Uint128, ws: Witnesses): Track {
    Track(time, map w | w in ws :: ws[w].runner)
  }

  predicate Overflows(rule: LapRule, ws: Witnesses, processed: seq<WitnessId>, time: Uint128)
    requires forall w :: w in processed ==> w in ws
  {
    exists i :: 0 <= i < |processed| && time + rule(ws[processed[i]].runner.votes) >= B128
  }

  /** Nothing but the scheduling fields and the kind of a witness is touched by the scheduler. */
  ghost predicate SameApartFromSchedule(ws: Witnesses, ws': Witnesses) {
    && ws'.Keys == ws.Keys
    && forall w :: w in ws ==> ws'[w] == ws[w].(runner := ws'[w].runner, schedule := ws'[w].schedule)
  }

  ghost predicate SameKinds(ws: Witnesses, ws': Witnesses)
    requires ws'.Keys == ws.Keys
  {
    forall w :: w in ws ==> ws'[w].schedule == ws[w].schedule
  }

  method ResetVirtualTime(rule: LapRule, ws: Witnesses) returns (ws': Witnesses)
    ensures SameApartFromSchedule(ws, ws') && SameKinds(ws, ws')
    ensures forall w :: w in ws ==> ws'[w].runner == Runner(ws[w].runner.votes, 0, 0, rule(ws[w].runner.votes))
  {
    ws' := ws;
    var rest := ws.Keys;
    while rest != {}
      invariant rest <= ws.Keys && SameApartFromSchedule(ws, ws') && SameKinds(ws, ws')
      invariant forall w :: w in ws && w !in rest ==>
                  ws'[w].runner == Runner(ws[w].runner.votes, 0, 0, rule(ws[w].runner.votes))
      invariant forall w :: w in rest ==> ws'[w] == ws[w]
      decreases rest
    {
      var w :| w in rest;
      var votes := ws'[w].runner.votes;
      ws' := ws'[w := ws'[w].(runner := Runner(votes, 0, 0, rule(votes)))];
      rest := rest - {w};
    }
  }

  /** A sum of two 128-bit numbers, and whether it wrapped around. */
  function Add128(a: Uint128, b: Uint128): (sum: Uint128)
    ensures sum < a <==> a + b >= B128
    ensures a + b < B128 ==> sum == a + b
  {
    (a + b) % B128
  }

  function NewLap(rule: LapRule, w: Witness, time: Uint128): Witness {
    w.(runner := Runner(w.runner.votes, 0, time, Add128(time, rule(w.runner.votes))))
  }

  /** Starts a new lap for everyone processed, or stops at the first overflow. */
  method AdvanceProcessed(rule: LapRule, ws: Witnesses, processed: seq<WitnessId>, time: Uint128)
    returns (ws': Witnesses, overflow: bool)
    requires Distinct(processed) && forall w :: w in processed ==> w in ws
    ensures overflow == Overflows(rule, ws, processed, time)
    ensures ws'.Keys == ws.Keys && forall w :: w in ws ==> ws'[w] == ws[w] || ws'[w] == NewLap(rule, ws[w], time)
    ensures !overflow ==> Lapped(rule, ws, processed, time, ws')
  {
    ws' := ws;
    for i := 0 to |processed|
      invariant ws'.Keys == ws.Keys
      invariant forall k :: 0 <= k < i ==> time + rule(ws[processed[k]].runner.votes) < B128
      invariant forall w :: w in ws ==> ws'[w] == if w in processed[..i] then NewLap(rule, ws[w], time) else ws[w]
    {
      var w := processed[i];
      assert w !in processed[..i];
      var due := Add128(time, rule(ws'[w].runner.votes));
      if due < time {
        return ws', true;
      }
      ws' := ws'[w := ws'[w].(runner := Runner(ws'[w].runner.votes, 0, time, due))];
      assert forall x :: x in processed[..i + 1] <==> x in processed[..i] || x == w;
    }
    assert processed[..|processed|] == processed;
    return ws', false;
  }

  method AssignKind(ws: Witnesses, chosen: seq<WitnessId>, kind: Kind) returns (ws': Witnesses)
    requires forall w :: w in chosen ==> w in ws
    ensures ws'.Keys == ws.Keys
    ensures forall w :: w in ws ==> ws'[w] == if w in chosen then ws[w].(schedule := kind) else ws[w]
  {
    ws' := ws;
    for i := 0 to |chosen|
      invariant ws'.Keys == ws.Keys
      invariant forall w :: w in ws ==> ws'[w] == if w in chosen[..i] then ws[w].(schedule := kind) else ws[w]
    {
      assert forall x :: x in chosen[..i + 1] <==> x in chosen[..i] || x == chosen[i];
      ws' := ws'[chosen[i] := ws'[chosen[i]].(schedule := kind)];
    }
    assert chosen[..|chosen|] == chosen;
  }

  // ----- A slate -----

  /** What the choice of producers comes to, before it is installed. */
  datatype Slate = Slate(elected: seq<WitnessId>,
                         picked: seq<WitnessId>,
                         processed: seq<WitnessId>,
                         witnesses: Witnesses,
                         time: Uint128)

  ghost predicate Chosen(ws: Witnesses, byVote: seq<WitnessId>, bySchedule: seq<WitnessId>, maxVoted: nat, slate: Slate) {
    && Enumerates(ws, byVote) && Enumerates(ws, bySchedule)
    && slate.elected <= Eligible(ws, byVote, [])
    && (|slate.elected| == maxVoted || slate.elected == Eligible(ws, byVote, []))
    && slate.processed <= bySchedule
    && slate.picked == Eligible(ws, slate.processed, slate.elected)
    && (slate.processed == bySchedule || |slate.elected| + |slate.picked| == MAX_WITNESSES)
    && (slate.processed != [] ==>
          |slate.elected| + |Eligible(ws, slate.processed[..|slate.processed| - 1], slate.elected)| < MAX_WITNESSES)
    && |slate.elected| + |slate.picked| <= MAX_WITNESSES
  }

  lemma PrefixDistinct<T>(s: seq<T>, t: seq<T>)
    requires s <= t && Distinct(t)
    ensures Distinct(s) && forall x :: x in s ==> x in t
  {
    assert s == t[..|s|];
  }

  lemma ConcatDistinct<T>(s: seq<T>, t: seq<T>)
    requires Distinct(s) && Distinct(t) && forall x :: x in s ==> x !in t
    ensures Distinct(s + t)
  {
    assert forall i :: 0 <= i < |s| ==> s[i] in s;
  }

  /** The scheduled witnesses are all different and all have signing keys. */
  lemma ChosenIsValid(ws: Witnesses, byVote: seq<WitnessId>, bySchedule: seq<WitnessId>, maxVoted: nat, slate: Slate)
    requires Chosen(ws, byVote, bySchedule, maxVoted, slate)
    ensures Distinct(slate.elected + slate.picked)
    ensures forall w :: w in slate.elected || w in slate.picked ==> w in ws && ws[w].hasSigningKey
    ensures forall w :: w in slate.picked ==> w !in slate.elected
    ensures |slate.elected + slate.picked| <= MAX_WITNESSES
  {
    EligibleElements(ws, byVote, []);
    PrefixDistinct(slate.elected, Eligible(ws, byVote, []));
    PrefixDistinct(slate.processed, bySchedule);
    EligibleElements(ws, slate.processed, slate.elected);
    ConcatDistinct(slate.elected, slate.picked);
  }

  /** Somebody is scheduled unless nobody has a signing key. */
  lemma ChosenIsNonempty(ws: Witnesses, byVote: seq<WitnessId>, bySchedule: seq<WitnessId>, maxVoted: nat, slate: Slate)
    requires Chosen(ws, byVote, bySchedule, maxVoted, slate)
    ensures slate.elected + slate.picked == [] <==> forall w :: w in ws ==> !ws[w].hasSigningKey
  {
    ChosenIsValid(ws, byVote, bySchedule, maxVoted, slate);
    if slate.elected + slate.picked == [] {
      EligibleElements(ws, bySchedule, slate.elected);
      forall w | w in ws ensures !ws[w].hasSigningKey {
        assert w in bySchedule && w !in Eligible(ws, bySchedule, slate.elected);
      }
    } else {
      var w := (slate.elected + slate.picked)[0];
      assert w in slate.elected || w in slate.picked;
    }
  }

  /** Nobody who could sign was passed over for a witness with fewer votes, or with as many and a later
      name. */
  lemma ElectedHaveMostVotes(ws: Witnesses, byVote: seq<WitnessId>, bySchedule: seq<WitnessId>, maxVoted: nat, slate: Slate,
                             w: WitnessId, v: WitnessId)
    requires Chosen(ws, byVote, bySchedule, maxVoted, slate) && IsVoteOrder(ws, byVote)
    requires w in slate.elected && v in ws && ws[v].hasSigningKey && v !in slate.elected
    ensures w in ws
    ensures || ws[w].runner.votes > ws[v].runner.votes
            || (ws[w].runner.votes == ws[v].runner.votes && NameBefore(ws[w].owner, ws[v].owner))
  {
    var e := Eligible(ws, byVote, []);
    EligibleElements(ws, byVote, []);
    hide Eligible;
    var i :| 0 <= i < |slate.elected| && slate.elected[i] == w;
    var j :| 0 <= j < |e| && e[j] == v;
    assert forall k :: 0 <= k < |slate.elected| ==> e[k] == slate.elected[k] && e[k] in slate.elected;
    var a, b := EligibleInOrder(ws, byVote, [], i, j);
  }

  /** Nobody who could sign was passed over for a witness that is due later, or at the same time and
      with a higher id. */
  lemma PickedAreDueFirst(ws: Witnesses, byVote: seq<WitnessId>, bySchedule: seq<WitnessId>, maxVoted: nat, slate: Slate,
                          p: WitnessId, v: WitnessId)
    requires Chosen(ws, byVote, bySchedule, maxVoted, slate) && IsScheduleOrder(ws, bySchedule)
    requires p in slate.picked && v in ws && ws[v].hasSigningKey && v !in slate.elected && v !in slate.picked
    ensures p in ws
    ensures ws[p].runner.scheduled < ws[v].runner.scheduled || (ws[p].runner.scheduled == ws[v].runner.scheduled && p < v)
  {
    PrefixDistinct(slate.processed, bySchedule);
    EligibleElements(ws, slate.processed, slate.elected);
    hide Eligible;
    var i :| 0 <= i < |slate.processed| && slate.processed[i] == p;
    var j :| 0 <= j < |bySchedule| && bySchedule[j] == v;
    assert bySchedule[i] == p;
    assert forall k :: 0 <= k < |slate.processed| ==> bySchedule[k] == slate.processed[k] && bySchedule[k] in slate.processed;
  }

  function KindOf(elected: seq<WitnessId>, picked: seq<WitnessId>, w: WitnessId, before: Kind): Kind {
    if w in elected then Top20 else if w in picked then Timeshare else before
  }

  method AssignKinds(ws: Witnesses, elected: seq<WitnessId>, picked: seq<WitnessId>) returns (ws': Witnesses)
    requires forall w :: w in elected || w in picked ==> w in ws
    requires forall w :: w in picked ==> w !in elected
    ensures ws'.Keys == ws.Keys
    ensures forall w :: w in ws ==> ws'[w] == ws[w].(schedule := KindOf(elected, picked, w, ws[w].schedule))
  {
    ws' := AssignKind(ws, elected, Top20);
    ws' := AssignKind(ws', picked, Timeshare);
  }

  ghost function AsSet<T>(s: seq<T>): set<T> {
    set x | x in s
  }

  /** Virtual time after processing: that of the last witness looked at. */
  ghost function DueTime(ws: Witnesses, processed: seq<WitnessId>, now: Uint128): Uint128
    requires forall w :: w in processed ==> w in ws
  {
    if processed == [] then now else ws[processed[|processed| - 1]].runner.scheduled
  }

  /** Assigned kinds, and a virtual-time step that is either a fair round or a full reset. */
  ghost predicate Scheduled(rule: LapRule, now: Uint128, ws: Witnesses, slate: Slate) {
    && SameApartFromSchedule(ws, slate.witnesses)
    && (forall w :: w in slate.processed ==> w in ws)
    && (forall w :: w in ws ==> slate.witnesses[w].schedule == KindOf(slate.elected, slate.picked, w, ws[w].schedule))
    && var before, after := TrackOf(now, ws), TrackOf(slate.time, slate.witnesses);
       if Overflows(rule, ws, slate.processed, DueTime(ws, slate.processed, now)) then after == Reset(rule, before)
       else Round(rule, before, AsSet(slate.processed), after)
  }

  /** In schedule order, a prefix is due no later than the rest, and its last member last. */
  lemma PrefixIsDueFirst(ws: Witnesses, bySchedule: seq<WitnessId>, processed: seq<WitnessId>)
    requires IsScheduleOrder(ws, bySchedule) && processed <= bySchedule
    ensures forall p :: p in processed ==>
              p in ws && ws[p].runner.scheduled <= ws[processed[|processed| - 1]].runner.scheduled
    ensures forall p, q :: p in processed && q in ws && q !in processed ==>
              ws[p].runner.scheduled <= ws[q].runner.scheduled
  {
    forall p | p in processed
      ensures p in ws && ws[p].runner.scheduled <= ws[processed[|processed| - 1]].runner.scheduled
    {
      var i :| 0 <= i < |processed| && processed[i] == p;
      assert bySchedule[i] == p && bySchedule[|processed| - 1] == processed[|processed| - 1];
    }
    forall p, q | p in processed && q in ws && q !in processed
      ensures ws[p].runner.scheduled <= ws[q].runner.scheduled
    {
      var i :| 0 <= i < |processed| && processed[i] == p;
      var j :| 0 <= j < |bySchedule| && bySchedule[j] == q;
      assert bySchedule[i] == p;
      assert forall k :: 0 <= k < |processed| ==> bySchedule[k] in processed;
    }
  }

  ghost predicate Lapped(rule: LapRule, ws: Witnesses, processed: seq<WitnessId>, time: Uint128, ws': Witnesses) {
    && ws'.Keys == ws.Keys
    && forall w :: w in ws ==> ws'[w] == if w in processed then NewLap(rule, ws[w], time) else ws[w]
  }

  lemma LappedKeepsRest(rule: LapRule, ws: Witnesses, processed: seq<WitnessId>, time: Uint128, ws': Witnesses, now: Uint128)
    requires Lapped(rule, ws, processed, time, ws')
    ensures SameApartFromSchedule(ws, ws') && SameKinds(ws, ws')
    ensures SameVotes(TrackOf(now, ws), TrackOf(time, ws'))
  {
  }

  lemma RoundFromFacts(rule: LapRule, now: Uint128, ws: Witnesses, processed: seq<WitnessId>, time: Uint128, ws': Witnesses)
    requires (forall w :: w in processed ==> w in ws) && time == DueTime(ws, processed, now)
    requires Lapped(rule, ws, processed, time, ws') && SameVotes(TrackOf(now, ws), TrackOf(time, ws'))
    requires forall p :: p in processed ==> ws[p].runner.scheduled <= time
    requires forall p, q :: p in processed && q in ws && q !in processed ==> ws[p].runner.scheduled <= ws[q].runner.scheduled
    requires forall p :: p in processed ==> ws'[p].runner.scheduled == time + rule(ws[p].runner.votes)
    ensures Round(rule, TrackOf(now, ws), AsSet(processed), TrackOf(time, ws'))
  {
    if processed != [] {
      var last := processed[|processed| - 1];
      assert last in AsSet(processed) && TrackOf(now, ws).runners[last].scheduled == time;
    }
  }

  /** Processing a prefix of the schedule order without overflow is a fair round. */
  lemma PrefixIsRound(rule: LapRule, now: Uint128, ws: Witnesses, bySchedule: seq<WitnessId>, processed: seq<WitnessId>,
                      time: Uint128, ws': Witnesses)
    requires IsScheduleOrder(ws, bySchedule) && processed <= bySchedule && !Overflows(rule, ws, processed, time)
    requires time == DueTime(ws, processed, now) && Lapped(rule, ws, processed, time, ws')
    ensures Round(rule, TrackOf(now, ws), AsSet(processed), TrackOf(time, ws'))
  {
    PrefixIsDueFirst(ws, bySchedule, processed);
    LappedKeepsRest(rule, ws, processed, time, ws', now);
    LapsAreDue(rule, ws, processed, time, ws');
    hide IsScheduleOrder, Overflows, Lapped, Round, SameVotes, TrackOf;
    RoundFromFacts(rule, now, ws, processed, time, ws');
  }

  lemma LapsAreDue(rule: LapRule, ws: Witnesses, processed: seq<WitnessId>, time: Uint128, ws': Witnesses)
    requires forall w :: w in processed ==> w in ws
    requires !Overflows(rule, ws, processed, time) && Lapped(rule, ws, processed, time, ws')
    ensures forall p :: p in processed ==> ws'[p].runner.scheduled == time + rule(ws[p].runner.votes)
  {
    forall p | p in processed ensures ws'[p].runner.scheduled == time + rule(ws[p].runner.votes) {
      var i :| 0 <= i < |processed| && processed[i] == p;
      assert time + rule(ws[processed[i]].runner.votes) < B128;
    }
  }

  /** Whatever laps had been started before the overflow, the reset wipes them out. */
  lemma ResetForgets(rule: LapRule, ws: Witnesses, ws': Witnesses, ws'': Witnesses, time: Uint128, now: Uint128)
    requires ws'.Keys == ws.Keys && forall w :: w in ws ==> ws'[w] == ws[w] || ws'[w] == NewLap(rule, ws[w], time)
    requires SameApartFromSchedule(ws', ws'') && SameKinds(ws', ws'')
    requires forall w :: w in ws' ==> ws''[w].runner == Runner(ws'[w].runner.votes, 0, 0, rule(ws'[w].runner.votes))
    ensures SameApartFromSchedule(ws, ws'') && SameKinds(ws, ws'')
    ensures TrackOf(0, ws'') == Reset(rule, TrackOf(now, ws))
  {
    forall w | w in ws ensures ws''[w] == ws[w].(runner := ws''[w].runner) && ws'[w].runner.votes == ws[w].runner.votes {
      assert ws''[w] == ws'[w].(runner := ws''[w].runner, schedule := ws''[w].schedule);
    }
  }

  /** Advances everyone processed, or resets the whole track when that would overflow. */
  method AdvanceTime(rule: LapRule, ws: Witnesses, bySchedule: seq<WitnessId>, processed: seq<WitnessId>,
                     due: Uint128, ghost now: Uint128)
    returns (ws': Witnesses, time: Uint128)
    requires IsScheduleOrder(ws, bySchedule) && processed <= bySchedule
    requires (forall w :: w in processed ==> w in ws) && due == DueTime(ws, processed, now)
    ensures SameApartFromSchedule(ws, ws') && SameKinds(ws, ws')
    ensures if Overflows(rule, ws, processed, due) then TrackOf(time, ws') == Reset(rule, TrackOf(now, ws))
            else Round(rule, TrackOf(now, ws), AsSet(processed), TrackOf(time, ws'))
  {
    PrefixDistinct(processed, bySchedule);
    var overflow;
    time := due;
    ws', overflow := AdvanceProcessed(rule, ws, processed, time);
    if overflow {
      ghost var partial := ws';
      ws' := ResetVirtualTime(rule, ws');
      ResetForgets(rule, ws, partial, ws', time, now);
      time := 0;
    } else {
      LappedKeepsRest(rule, ws, processed, time, ws', now);
      PrefixIsRound(rule, now, ws, bySchedule, processed, time, ws');
    }
  }

  /** Assigning kinds leaves everything the scheduler looks at alone. */
  lemma KindsDoNotMatter(rule: LapRule, ws: Witnesses, ws': Witnesses, bySchedule: seq<WitnessId>,
                         processed: seq<WitnessId>, now: Uint128)
    requires IsScheduleOrder(ws, bySchedule) && processed <= bySchedule
    requires ws'.Keys == ws.Keys && forall w :: w in ws ==> ws'[w] == ws[w].(schedule := ws'[w].schedule)
    ensures IsScheduleOrder(ws', bySchedule) && (forall w :: w in processed ==> w in ws)
    ensures DueTime(ws', processed, now) == DueTime(ws, processed, now)
    ensures forall time :: Overflows(rule, ws', processed, time) == Overflows(rule, ws, processed, time)
    ensures TrackOf(now, ws') == TrackOf(now, ws)
  {
    PrefixDistinct(processed, bySchedule);
    forall time: Uint128 ensures Overflows(rule, ws', processed, time) == Overflows(rule, ws, processed, time) {
      assert forall i :: 0 <= i < |processed| ==> ws'[processed[i]].runner == ws[processed[i]].runner;
    }
  }

  method ChooseSlate(rule: LapRule, ws: Witnesses, byVote: seq<WitnessId>, bySchedule: seq<WitnessId>, maxVoted: nat, now: Uint128)
    returns (slate: Slate)
    requires IsVoteOrder(ws, byVote) && IsScheduleOrder(ws, bySchedule) && maxVoted <= MAX_WITNESSES
    ensures Chosen(ws, byVote, bySchedule, maxVoted, slate) && Scheduled(rule, now, ws, slate)
  {
    var elected := SelectVoted(ws, byVote, maxVoted);
    var picked, processed, due := SelectTimeshare(ws, bySchedule, elected, now);
    slate := Slate(elected, picked, processed, ws, now);
    ChosenIsValid(ws, byVote, bySchedule, maxVoted, slate);
    var marked := AssignKinds(ws, elected, picked);
    KindsDoNotMatter(rule, ws, marked, bySchedule, processed, now);
    var advanced, time := AdvanceTime(rule, marked, bySchedule, processed, due, now);
    slate := Slate(elected, picked, processed, advanced, time);
  }
}
