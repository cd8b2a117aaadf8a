/**
 The database side of the schedule update, and what one update guarantees as a whole.
 */
module ScheduleUpdate {
  import opened Words
  import opened VirtualTime
  import opened Counting
  import opened Governance
  import opened WitnessSelection
  import opened WitnessSchedule
  import opened Lists

  ghost function Owners(ws: Witnesses, ids: seq<WitnessId>): seq<AccountName>
    requires forall w :: w in ids ==> w in ws
  {
    seq(|ids|, i requires 0 <= i < |ids| => ws[ids[i]].owner)
  }

  method OwnersOf(ws: Witnesses, ids: seq<WitnessId>) returns (names: seq<AccountName>)
    requires forall w :: w in ids ==> w in ws
    ensures names == Owners(ws, ids) && |names| == |ids|
  {
    names := seq(|ids|, i requires 0 <= i < |ids| => ws[ids[i]].owner);
  }

  ghost predicate UniqueOwners(ws: Witnesses) {
    && (forall v, w :: v in ws && w in ws && ws[v].owner == ws[w].owner ==> v == w)
    && (forall w :: w in ws ==> ws[w].owner != "")
  }

  ghost predicate IsOwner(ws: Witnesses, name: AccountName) {
    exists w :: w in ws && ws[w].owner == name
  }

  /** `members` are the witnesses that `names` refer to. */
  ghost predicate Resolves(ws: Witnesses, names: seq<AccountName>, members: seq<Witness>) {
    && |members| == |names|
    && forall i :: 0 <= i < |names| ==> members[i].owner == names[i] && members[i] in ws.Values
  }

  method Resolve(ws: Witnesses, names: seq<AccountName>) returns (members: seq<Witness>)
    requires forall name :: name in names ==> IsOwner(ws, name)
    ensures Resolves(ws, names, members)
  {
    members := [];
    for i := 0 to |names|
      invariant Resolves(ws, names[..i], members)
    {
      assert IsOwner(ws, names[i]);
      var w :| w in ws && ws[w].owner == names[i];
      members := members + [ws[w]];
    }
    assert names[..|names|] == names;
  }

  function Versions(members: seq<Witness>): seq<nat> {
    seq(|members|, i requires 0 <= i < |members| => members[i].runningVersion)
  }

  function HardforkVotes(members: seq<Witness>): seq<HardforkVote> {
    seq(|members|, i requires 0 <= i < |members| => members[i].hardforkVote)
  }

  function Fees(members: seq<Witness>): seq<int> {
    seq(|members|, i requires 0 <= i < |members| => members[i].props.accountCreationFee)
  }

  function BlockSizes(members: seq<Witness>): seq<int> {
    seq(|members|, i requires 0 <= i < |members| => members[i].props.maximumBlockSize)
  }

  function InterestRates(members: seq<Witness>): seq<int> {
    seq(|members|, i requires 0 <= i < |members| => members[i].props.dollarInterestRate)
  }

  function SubsidyLimits(members: seq<Witness>): seq<int> {
    seq(|members|, i requires 0 <= i < |members| => members[i].props.accountSubsidyLimit)
  }

  /** What is read of each member. */
  lemma WhatIsRead(members: seq<Witness>, i: nat)
    requires i < |members|
    ensures |Versions(members)| == |HardforkVotes(members)| == |members|
    ensures |Fees(members)| == |BlockSizes(members)| == |InterestRates(members)| == |SubsidyLimits(members)| == |members|
    ensures Versions(members)[i] == members[i].runningVersion && HardforkVotes(members)[i] == members[i].hardforkVote
    ensures Fees(members)[i] == members[i].props.accountCreationFee
    ensures BlockSizes(members)[i] == members[i].props.maximumBlockSize
    ensures InterestRates(members)[i] == members[i].props.dollarInterestRate
    ensures SubsidyLimits(members)[i] == members[i].props.accountSubsidyLimit
  {
  }

  ghost predicate AreMedians(members: seq<Witness>, medians: Props) {
    && IsMedian(Fees(members), medians.accountCreationFee)
    && IsMedian(BlockSizes(members), medians.maximumBlockSize)
    && IsMedian(InterestRates(members), medians.dollarInterestRate)
    && IsMedian(SubsidyLimits(members), medians.accountSubsidyLimit)
  }

  method MedianProps(members: seq<Witness>) returns (medians: Props)
    requires members != []
    ensures AreMedians(members, medians)
  {
    var fee := Median(Fees(members));
    var size := Median(BlockSizes(members));
    var rate := Median(InterestRates(members));
    var limit := Median(SubsidyLimits(members));
    medians := Props(fee, size, rate, limit);
  }

  /** What a scheduled witness of the given kind is paid for. */
  function KindWeight(top20Weight: nat, timeshareWeight: nat, kind: Kind): nat {
    match kind
    case Top20 => top20Weight
    case Timeshare => timeshareWeight
    case Unscheduled => 0
  }

  ghost function PayWeight(top20Weight: nat, timeshareWeight: nat, ws: Witnesses, ids: seq<WitnessId>): nat
    requires forall w :: w in ids ==> w in ws
  {
    if ids == [] then 0
    else KindWeight(top20Weight, timeshareWeight, ws[ids[0]].schedule) + PayWeight(top20Weight, timeshareWeight, ws, ids[1..])
  }

  lemma {:induction false} PayOfKind(t: nat, s: nat, ws: Witnesses, ids: seq<WitnessId>, rest: seq<WitnessId>, kind: Kind, weight: nat)
    requires weight == KindWeight(t, s, kind)
    requires forall w :: w in ids ==> w in ws && ws[w].schedule == kind
    requires forall w :: w in rest ==> w in ws
    ensures PayWeight(t, s, ws, ids + rest) == weight * |ids| + PayWeight(t, s, ws, rest)
  {
    if ids == [] {
      assert ids + rest == rest;
    } else {
      var all := ids + rest;
      assert all[1..] == ids[1..] + rest && all[0] == ids[0];
      PayOfKind(t, s, ws, ids[1..], rest, kind, weight);
      OneMore(weight, |ids[1..]|);
    }
  }

  lemma OneMore(weight: nat, n: nat)
    ensures weight * (n + 1) == weight + weight * n
  {
  }

  /** The normalization factor is the pay of the whole slate by assigned kind. */
  lemma PayOfSlate(rule: LapRule, t: nat, s: nat, now: Uint128, ws: Witnesses, slate: Slate)
    requires Scheduled(rule, now, ws, slate)
    requires forall w :: w in slate.elected || w in slate.picked ==> w in ws
    requires Distinct(slate.elected + slate.picked)
    ensures PayWeight(t, s, slate.witnesses, slate.elected + slate.picked) == t * |slate.elected| + s * |slate.picked|
  {
    hide Overflows, DueTime, TrackOf, Reset, Round;
    forall w | w in slate.picked ensures w !in slate.elected {
      var ids, n := slate.elected + slate.picked, |slate.elected|;
      var j :| 0 <= j < |slate.picked| && slate.picked[j] == w;
      assert ids[n + j] == w && forall i :: 0 <= i < n ==> ids[i] == slate.elected[i];
    }
    var none: seq<WitnessId> := [];
    PayOfKind(t, s, slate.witnesses, slate.picked, none, Timeshare, s);
    assert slate.picked + none == slate.picked;
    PayOfKind(t, s, slate.witnesses, slate.elected, slate.picked, Top20, t);
  }

  ghost predicate MajorityDecision(members: seq<Witness>, required: nat, before: nat, after: nat) {
    if HasMajority(Versions(members), required)
    then IsMajorityVersion(Versions(members), required, after) else after == before
  }

  datatype Hardfork = Hardfork(current: nat, next: nat, nextTime: nat)

  /** The winning vote is adopted; without one the next hardfork is the current one. */
  ghost predicate HardforkDecision(members: seq<Witness>, required: nat, before: Hardfork, after: Hardfork) {
    var votes := HardforkVotes(members);
    after.current == before.current &&
    if exists v :: v in votes && CountIf(votes, Is(v)) >= required
    then
      var adopted := HardforkVote(after.next, after.nextTime);
      && adopted in votes && CountIf(votes, Is(adopted)) >= required
      && forall v :: v in votes && (v.version < after.next || (v.version == after.next && v.time < after.nextTime))
           ==> CountIf(votes, Is(v)) < required
    else after == before.(next := before.current)
  }

  method DecideHardfork(members: seq<Witness>, required: nat, before: Hardfork) returns (after: Hardfork)
    ensures HardforkDecision(members, required, before, after)
  {
    var winner := WinningHardfork(HardforkVotes(members), required);
    match winner {
      case Some(vote) => after := before.(next := vote.version, nextTime := vote.time);
      case None => after := before.(next := before.current);
    }
  }

  /** The schedule object, with the two dynamic global properties that follow the medians. */
  datatype Schedule = Schedule(
    witnesses: Witnesses,
    time: Uint128,
    names: seq<AccountName>,
    num: nat,
    pay: nat,
    majorityVersion: nat,
    hardfork: Hardfork,
    medians: Props,
    nextShuffleBlockNum: Uint32,
    maximumBlockSize: nat,
    dollarInterestRate: nat)

  datatype Config = Config(maxVoted: nat, required: nat, top20Weight: nat, timeshareWeight: nat)

  /** Who is scheduled, how virtual time moves, and what the slate is paid. The installed names are
      those of the slate, shuffled, and the rest of the array is blank. */
  ghost predicate InstallsSlate(config: Config, rule: LapRule, draw: nat -> nat, byVote: seq<WitnessId>,
                                bySchedule: seq<WitnessId>, before: Schedule, after: Schedule, slate: Slate)
  {
    && Chosen(before.witnesses, byVote, bySchedule, config.maxVoted, slate)
    && Scheduled(rule, before.time, before.witnesses, slate)
    && after.witnesses == slate.witnesses && after.time == slate.time
    && after.num <= |after.names| == MAX_WITNESSES && IsRoll(slate, after.names[..after.num])
    && after.names[..after.num] == Shuffled(Owners(slate.witnesses, slate.elected + slate.picked), draw, 0)
    && (forall i :: after.num <= i < MAX_WITNESSES ==> after.names[i] == "")
    && after.pay == SlatePay(config.top20Weight, config.timeshareWeight, slate)
  }

  /** What the outgoing slate decided. */
  ghost predicate Decides(config: Config, before: Schedule, after: Schedule, outgoing: seq<Witness>) {
    && before.num <= |before.names| && Resolves(before.witnesses, before.names[..before.num], outgoing)
    && MajorityDecision(outgoing, config.required, before.majorityVersion, after.majorityVersion)
    && HardforkDecision(outgoing, config.required, before.hardfork, after.hardfork)
  }

  /** The medians are those of the incoming slate. */
  ghost predicate SetsMedians(after: Schedule, incoming: seq<Witness>) {
    && after.num <= |after.names| && Resolves(after.witnesses, after.names[..after.num], incoming)
    && AreMedians(incoming, after.medians)
    && after.maximumBlockSize == after.medians.maximumBlockSize
    && after.dollarInterestRate == after.medians.dollarInterestRate
  }

  lemma Installed(config: Config, rule: LapRule, draw: nat -> nat, byVote: seq<WitnessId>, bySchedule: seq<WitnessId>,
                  before: Schedule, after: Schedule, slate: Slate, names: seq<AccountName>)
    requires Chosen(before.witnesses, byVote, bySchedule, config.maxVoted, slate)
    requires Scheduled(rule, before.time, before.witnesses, slate)
    requires after.witnesses == slate.witnesses && after.time == slate.time
    requires after.num <= |after.names| == MAX_WITNESSES && IsRoll(slate, after.names[..after.num])
    requires IsNamed(slate, names) && after.names[..after.num] == Shuffled(names, draw, 0)
    requires forall i :: after.num <= i < MAX_WITNESSES ==> after.names[i] == ""
    requires (forall w :: w in slate.elected || w in slate.picked ==> w in slate.witnesses)
    requires after.pay == SlatePay(config.top20Weight, config.timeshareWeight, slate)
    ensures InstallsSlate(config, rule, draw, byVote, bySchedule, before, after, slate)
  {
  }

  ghost predicate IsUpdate(config: Config, headBlockNum: Uint32, rule: LapRule, draw: nat -> nat, byVote: seq<WitnessId>,
                           bySchedule: seq<WitnessId>, before: Schedule, after: Schedule)
  {
    && (exists slate :: InstallsSlate(config, rule, draw, byVote, bySchedule, before, after, slate))
    && (exists outgoing :: Decides(config, before, after, outgoing))
    && (exists incoming :: SetsMedians(after, incoming))
    && after.nextShuffleBlockNum == (headBlockNum + after.num) % B32
  }

  class ScheduleDatabase {
    var witnesses: Witnesses
    var currentVirtualTime: Uint128
    const shuffled: array<AccountName>
    var numScheduled: nat
    var payNormalization: nat
    var majorityVersion: nat
    var hardfork: Hardfork
    var medians: Props
    var nextShuffleBlockNum: Uint32
    var maximumBlockSize: nat
    var dollarInterestRate: nat
    const config: Config

    function View(): Schedule
      reads this, shuffled
    {
      Schedule.Schedule(witnesses, currentVirtualTime, shuffled[..], numScheduled, payNormalization, majorityVersion, hardfork,
               medians, nextShuffleBlockNum, maximumBlockSize, dollarInterestRate)
    }

    ghost predicate Valid()
      reads this, shuffled
    {
      && shuffled.Length == MAX_WITNESSES && config.maxVoted <= MAX_WITNESSES
      && UniqueOwners(witnesses)
      && 1 <= numScheduled <= MAX_WITNESSES
      && (forall i :: 0 <= i < numScheduled ==> IsOwner(witnesses, shuffled[i]))
      && OnTime(TrackOf(currentVirtualTime, witnesses))
    }

    lemma ValidParts()
      requires Valid()
      ensures shuffled.Length == MAX_WITNESSES && config.maxVoted <= MAX_WITNESSES
      ensures UniqueOwners(witnesses) && OnTime(TrackOf(currentVirtualTime, witnesses))
      ensures numScheduled <= shuffled.Length && forall i :: 0 <= i < numScheduled ==> IsOwner(witnesses, shuffled[i])
    {
    }

    lemma ValidFromParts()
      requires shuffled.Length == MAX_WITNESSES && config.maxVoted <= MAX_WITNESSES
      requires UniqueOwners(witnesses) && OnTime(TrackOf(currentVirtualTime, witnesses))
      requires 1 <= numScheduled <= MAX_WITNESSES
      requires forall name :: name in shuffled[..numScheduled] ==> IsOwner(witnesses, name)
      ensures Valid()
    {
      assert forall i :: 0 <= i < numScheduled ==> shuffled[i] in shuffled[..numScheduled];
    }

    constructor (genesis: AccountName, key: bool, config: Config)
      requires genesis != "" && config.maxVoted <= MAX_WITNESSES
      ensures Valid()
    {
      var props := Props(0, 0, 0, 0);
      witnesses := map[0 := Witness(genesis, key, Runner(0, 0, 0, MAX_TIME), Timeshare, 0, HardforkVote(0, 0), props)];
      currentVirtualTime := 0;
      shuffled := new AccountName[MAX_WITNESSES](_ => "");
      numScheduled := 1;
      payNormalization := 25;
      majorityVersion := 0;
      hardfork := Hardfork(0, 0, 0);
      medians := props;
      nextShuffleBlockNum, maximumBlockSize, dollarInterestRate := 1, 0, 0;
      this.config := config;
      new;
      shuffled[0] := genesis;
      assert 0 in witnesses && witnesses[0].owner == shuffled[0];
    }

    /** Writes the names of the slate into the array, blanks the rest, and shuffles. */
    method Install(names: seq<AccountName>, draw: nat -> nat)
      requires shuffled.Length == MAX_WITNESSES && |names| <= MAX_WITNESSES
      modifies shuffled
      ensures shuffled[..|names|] == Shuffled(names, draw, 0)
      ensures forall i :: |names| <= i < MAX_WITNESSES ==> shuffled[i] == ""
    {
      for i := 0 to MAX_WITNESSES
        invariant forall k :: 0 <= k < i ==> shuffled[k] == if k < |names| then names[k] else ""
      {
        shuffled[i] := if i < |names| then names[i] else "";
      }
      assert shuffled[..|names|] == names;
      ghost var tail := shuffled[|names|..];
      Shuffle(shuffled, |names|, draw);
      assert forall i :: |names| <= i < MAX_WITNESSES ==> shuffled[i] == tail[i - |names|];
    }

    /** The slate an update is going to install, and the names on it. */
    method PlanSlate(rule: LapRule, byVote: seq<WitnessId>, bySchedule: seq<WitnessId>)
      returns (slate: Slate, names: seq<AccountName>)
      requires UniqueOwners(witnesses) && config.maxVoted <= MAX_WITNESSES
      requires IsVoteOrder(witnesses, byVote) && IsScheduleOrder(witnesses, bySchedule)
      ensures Chosen(witnesses, byVote, bySchedule, config.maxVoted, slate) && Scheduled(rule, currentVirtualTime, witnesses, slate)
      ensures IsRoll(slate, names) && Distinct(slate.elected + slate.picked) && IsNamed(slate, names)
      ensures |names| <= MAX_WITNESSES
      ensures names == [] <==> forall w :: w in witnesses ==> !witnesses[w].hasSigningKey
    {
      hide *;
      slate := ChooseSlate(rule, witnesses, byVote, bySchedule, config.maxVoted, currentVirtualTime);
      ChosenIsValid(witnesses, byVote, bySchedule, config.maxVoted, slate);
      ChosenIsNonempty(witnesses, byVote, bySchedule, config.maxVoted, slate);
      names := OwnersOf(witnesses, slate.elected + slate.picked);
      NamesOfSlate(rule, currentVirtualTime, witnesses, slate, names);
    }

    /** What the witnesses scheduled so far have decided. */
    method CountVotes() returns (majority: nat, next: Hardfork, outgoing: seq<Witness>)
      requires numScheduled <= shuffled.Length && forall i :: 0 <= i < numScheduled ==> IsOwner(witnesses, shuffled[i])
      ensures Resolves(witnesses, shuffled[..numScheduled], outgoing)
      ensures MajorityDecision(outgoing, config.required, majorityVersion, majority)
      ensures HardforkDecision(outgoing, config.required, hardfork, next)
    {
      outgoing := Resolve(witnesses, shuffled[..numScheduled]);
      majority := MajorityVersion(Versions(outgoing), config.required, majorityVersion);
      next := DecideHardfork(outgoing, config.required, hardfork);
    }

    /** One schedule update. It fails, and the database undoes everything, exactly when nobody has
        a signing key: the median step then looks up a witness with an empty name. */
    method UpdateWitnessSchedule4(headBlockNum: Uint32, rule: LapRule, byVote: seq<WitnessId>, bySchedule: seq<WitnessId>, draw: nat -> nat)
      returns (ok: bool)
      requires Valid() && IsVoteOrder(witnesses, byVote) && IsScheduleOrder(witnesses, bySchedule)
      modifies this, shuffled
      ensures Valid()
      ensures ok <==> exists w :: w in old(witnesses) && old(witnesses)[w].hasSigningKey
      ensures if ok then IsUpdate(config, headBlockNum, rule, draw, byVote, bySchedule, old(View()), View())
              else unchanged(this) && unchanged(shuffled)
    {
      hide Chosen, Scheduled, IsRoll, SlatePay, Resolves, MajorityDecision, HardforkDecision;
      hide IsVoteOrder, IsScheduleOrder, UniqueOwners, IsOwner, OnTime, TrackOf, Valid, Distinct, SetsMedians;
      hide IsNamed, Shuffled, Owners, InstallsSlate;
      ValidParts();
      var slate, names := PlanSlate(rule, byVote, bySchedule);
      var majority, next, outgoing := CountVotes();
      if names == [] {
        return false;
      }
      RollParts(slate, names);
      var pay := PayFactor(rule, config.top20Weight, config.timeshareWeight, currentVirtualTime, witnesses, slate);
      StaysOnTime(rule, currentVirtualTime, witnesses, slate);
      Commit(headBlockNum, slate, names, pay, majority, draw);
      RollParts(slate, shuffled[..numScheduled]);
      hardfork := next;
      var incoming := UpdateMedianWitnessProps();
      ValidFromParts();
      ghost var before, after := old(View()), View();
      assert after.names[..after.num] == shuffled[..numScheduled];
      Installed(config, rule, draw, byVote, bySchedule, before, after, slate, names);
      assert Decides(config, before, after, outgoing) by {
        assert before.names[..before.num] == old(shuffled[..numScheduled]);
      }
      ok := true;
    }

    /** The medians of the scheduled witnesses, two of which become global properties. */
    method UpdateMedianWitnessProps() returns (members: seq<Witness>)
      requires 0 < numScheduled <= shuffled.Length
      requires forall i :: 0 <= i < numScheduled ==> IsOwner(witnesses, shuffled[i])
      modifies this`medians, this`maximumBlockSize, this`dollarInterestRate
      ensures SetsMedians(View(), members)
    {
      hide AreMedians, IsOwner;
      members := Resolve(witnesses, shuffled[..numScheduled]);
      assert members != [];
      medians := MedianProps(members);
      maximumBlockSize, dollarInterestRate := medians.maximumBlockSize, medians.dollarInterestRate;
      assert View().names[..numScheduled] == shuffled[..numScheduled];
    }

    /** Called for every block; the schedule changes only at the end of a round of blocks. */
    method UpdateWitnessSchedule(headBlockNum: Uint32, headTime: bv32, byVote: seq<WitnessId>, bySchedule: seq<WitnessId>)
      returns (ok: bool)
      requires Valid() && IsVoteOrder(witnesses, byVote) && IsScheduleOrder(witnesses, bySchedule)
      modifies this, shuffled
      ensures Valid()
      ensures ok <==> headBlockNum % MAX_WITNESSES != 0 || exists w :: w in old(witnesses) && old(witnesses)[w].hasSigningKey
      ensures if ok && headBlockNum % MAX_WITNESSES == 0
              then IsUpdate(config, headBlockNum, Lap, Draws(headTime), byVote, bySchedule, old(View()), View())
              else unchanged(this) && unchanged(shuffled)
    {
      var roundEnds := headBlockNum % MAX_WITNESSES == 0;
      hide *;
      ok := true;
      if roundEnds {
        ok := UpdateWitnessSchedule4(headBlockNum, Lap, byVote, bySchedule, Draws(headTime));
      }
    }

    /** Writes the new slate back. */
    method Commit(headBlockNum: Uint32, slate: Slate, names: seq<AccountName>, pay: nat, majority: nat, draw: nat -> nat)
      requires shuffled.Length == MAX_WITNESSES && |names| <= MAX_WITNESSES && IsRoll(slate, names)
      modifies this`witnesses, this`currentVirtualTime, this`numScheduled, this`payNormalization,
               this`majorityVersion, this`nextShuffleBlockNum, shuffled
      ensures witnesses == slate.witnesses && currentVirtualTime == slate.time && numScheduled == |names|
      ensures IsRoll(slate, shuffled[..numScheduled]) && shuffled[..numScheduled] == Shuffled(names, draw, 0)
      ensures forall i :: numScheduled <= i < MAX_WITNESSES ==> shuffled[i] == ""
      ensures payNormalization == pay && majorityVersion == majority
      ensures nextShuffleBlockNum == (headBlockNum + numScheduled) % B32
    {
      hide IsRoll;
      Install(names, draw);
      ShuffledPermutes(names, draw, 0);
      PermutedRoll(slate, names, shuffled[..|names|]);
      witnesses, currentVirtualTime, numScheduled := slate.witnesses, slate.time, |names|;
      payNormalization, majorityVersion := pay, majority;
      nextShuffleBlockNum := (headBlockNum + numScheduled) % B32;
    }
  }

  /** The names of the slate in some order, each of them once. */
  ghost predicate IsRoll(slate: Slate, names: seq<AccountName>) {
    && (forall w :: w in slate.elected || w in slate.picked ==> w in slate.witnesses)
    && |names| == |slate.elected + slate.picked|
    && multiset(names) == multiset(Owners(slate.witnesses, slate.elected + slate.picked))
    && Distinct(names)
    && UniqueOwners(slate.witnesses)
    && forall name :: name in names ==> IsOwner(slate.witnesses, name)
  }

  /** The names are those of the slate in its own order. */
  ghost predicate IsNamed(slate: Slate, names: seq<AccountName>) {
    && (forall w :: w in slate.elected + slate.picked ==> w in slate.witnesses)
    && names == Owners(slate.witnesses, slate.elected + slate.picked)
  }

  lemma RollParts(slate: Slate, names: seq<AccountName>)
    requires IsRoll(slate, names)
    ensures forall w :: w in slate.elected || w in slate.picked ==> w in slate.witnesses
    ensures UniqueOwners(slate.witnesses)
    ensures forall name :: name in names ==> IsOwner(slate.witnesses, name)
  {
  }

  /** What the slate is paid, by the kind each member was assigned. */
  ghost function SlatePay(top20Weight: nat, timeshareWeight: nat, slate: Slate): nat
    requires forall w :: w in slate.elected || w in slate.picked ==> w in slate.witnesses
  {
    PayWeight(top20Weight, timeshareWeight, slate.witnesses, slate.elected + slate.picked)
  }

  method PayFactor(ghost rule: LapRule, top20Weight: nat, timeshareWeight: nat,
                   ghost now: Uint128, ghost ws: Witnesses, slate: Slate) returns (pay: nat)
    requires Scheduled(rule, now, ws, slate) && Distinct(slate.elected + slate.picked)
    requires forall w :: w in slate.elected || w in slate.picked ==> w in slate.witnesses
    ensures pay == SlatePay(top20Weight, timeshareWeight, slate)
  {
    PayOfSlate(rule, top20Weight, timeshareWeight, now, ws, slate);
    pay := top20Weight * |slate.elected| + timeshareWeight * |slate.picked|;
  }

  lemma PermutedRoll(slate: Slate, names: seq<AccountName>, shuffled: seq<AccountName>)
    requires IsRoll(slate, names) && multiset(shuffled) == multiset(names) && |shuffled| == |names|
    ensures IsRoll(slate, shuffled)
  {
    PermutedNames(names, shuffled, slate.witnesses);
  }

  lemma DistinctOwners(ws: Witnesses, ids: seq<WitnessId>)
    requires UniqueOwners(ws) && Distinct(ids) && forall w :: w in ids ==> w in ws
    ensures Distinct(Owners(ws, ids))
  {
  }

  lemma NamesOfSlate(rule: LapRule, now: Uint128, ws: Witnesses, slate: Slate, names: seq<AccountName>)
    requires UniqueOwners(ws) && Distinct(slate.elected + slate.picked) && Scheduled(rule, now, ws, slate)
    requires forall w :: w in slate.elected + slate.picked ==> w in ws
    requires names == Owners(ws, slate.elected + slate.picked)
    ensures IsRoll(slate, names) && IsNamed(slate, names)
  {
    hide Overflows, DueTime, TrackOf, Reset, Round;
    var ids, ws' := slate.elected + slate.picked, slate.witnesses;
    assert forall w :: w in slate.elected || w in slate.picked ==> w in ids;
    assert names == Owners(ws', ids);
    DistinctOwners(ws, ids);
    forall name | name in names ensures IsOwner(ws', name) {
      var i :| 0 <= i < |names| && names[i] == name;
      assert ids[i] in ws' && ws'[ids[i]].owner == name;
    }
  }

  lemma PermutedNames(names: seq<AccountName>, shuffled: seq<AccountName>, ws: Witnesses)
    requires multiset(shuffled) == multiset(names) && |shuffled| == |names| && Distinct(names)
    requires forall name :: name in names ==> IsOwner(ws, name)
    ensures Distinct(shuffled)
    ensures forall name :: name in shuffled ==> IsOwner(ws, name)
  {
    forall name | name in shuffled ensures IsOwner(ws, name) {
      assert name in multiset(shuffled);
    }
    DistinctPermutes(names, shuffled);
  }

  lemma DistinctPermutes<T>(s: seq<T>, t: seq<T>)
    requires multiset(s) == multiset(t) && Distinct(s)
    ensures Distinct(t)
  {
    FewerStayDistinct(t, s);
  }

  lemma StaysOnTime(rule: LapRule, now: Uint128, ws: Witnesses, slate: Slate)
    requires Scheduled(rule, now, ws, slate) && OnTime(TrackOf(now, ws))
    ensures OnTime(TrackOf(slate.time, slate.witnesses))
  {
    var before, after := TrackOf(now, ws), TrackOf(slate.time, slate.witnesses);
    if Round(rule, before, AsSet(slate.processed), after) {
      RoundKeepsTime(Laps(rule, before), before, AsSet(slate.processed), after);
    }
  }
}
