/**
 Picking the next slate of block producers: the highest voted witnesses, then the time-share
 witnesses due first, and the in-place shuffle of the result.
 */
module WitnessSelection {
  import opened VirtualTime
  import opened Governance
  import opened Lists

  type AccountName = string
  const MAX_WITNESSES := 21

  datatype Kind = Top20 | Timeshare | Unscheduled

  datatype Props = Props(accountCreationFee: int,
                         maximumBlockSize: nat,
                         dollarInterestRate: nat,
                         accountSubsidyLimit: nat)

  datatype Witness = Witness(owner: AccountName,
                             hasSigningKey: bool,
                             runner: Runner,
                             schedule: Kind,
                             runningVersion: nat,
                             hardforkVote: HardforkVote,
                             props: Props)

  type Witnesses = map<WitnessId, Witness>

  /** An index lists every witness once. */
  ghost predicate Enumerates(ws: Witnesses, order: seq<WitnessId>) {
    Distinct(order) && forall w :: w in ws <==> w in order
  }

  predicate NameBefore(a: AccountName, b: AccountName) {
    if b == [] then false
    else if a == [] then true
    else a[0] < b[0] || (a[0] == b[0] && NameBefore(a[1..], b[1..]))
  }

  /** Names are ordered by the first character that differs, and a name comes before what extends it. */
  lemma {:induction false} NameOrder(a: AccountName, b: AccountName, common: nat)
    requires common <= |a| && common <= |b| && a[..common] == b[..common]
    requires common == |a| || common == |b| || a[common] != b[common]
    ensures NameBefore(a, b) <==> common < |b| && (common == |a| || a[common] < b[common])
  {
    if common == 0 {
    } else {
      assert a[0] == a[..common][0] == b[..common][0] == b[0];
      assert a[1..][..common - 1] == a[..common][1..] && b[1..][..common - 1] == b[..common][1..];
      NameOrder(a[1..], b[1..], common - 1);
    }
  }

  /** Most votes first, then by name. */
  ghost predicate IsVoteOrder(ws: Witnesses, order: seq<WitnessId>) {
    && Enumerates(ws, order)
    && forall i, j :: 0 <= i < j < |order| ==>
         var a, b := ws[order[i]], ws[order[j]];
         a.runner.votes > b.runner.votes || (a.runner.votes == b.runner.votes && NameBefore(a.owner, b.owner))
  }

  /** Due first, then by id. */
  ghost predicate IsScheduleOrder(ws: Witnesses, order: seq<WitnessId>) {
    && Enumerates(ws, order)
    && forall i, j :: 0 <= i < j < |order| ==>
         var a, b := ws[order[i]].runner.scheduled, ws[order[j]].runner.scheduled;
         a < b || (a == b && order[i] < order[j])
  }

  /** The witnesses of a list that could sign a block and are not already taken, in list order. */
  ghost function Eligible(ws: Witnesses, order: seq<WitnessId>, taken: seq<WitnessId>): seq<WitnessId>
    requires forall w :: w in order ==> w in ws
  {
    if order == [] then []
    else
      var last := order[|order| - 1];
      Eligible(ws, order[..|order| - 1], taken) + if ws[last].hasSigningKey && last !in taken then [last] else []
  }

  lemma {:induction false} EligibleStep(ws: Witnesses, order: seq<WitnessId>, taken: seq<WitnessId>, i: nat)
    requires i < |order| && forall w :: w in order ==> w in ws
    ensures Eligible(ws, order[..i + 1], taken) ==
            Eligible(ws, order[..i], taken) + if ws[order[i]].hasSigningKey && order[i] !in taken then [order[i]] else []
  {
    assert order[..i + 1][..i] == order[..i];
  }

  lemma {:induction false} EligibleElements(ws: Witnesses, order: seq<WitnessId>, taken: seq<WitnessId>)
    requires (forall w :: w in order ==> w in ws) && Distinct(order)
    ensures var e := Eligible(ws, order, taken);
            Distinct(e) && forall w :: w in e <==> w in order && ws[w].hasSigningKey && w !in taken
  {
    if order == [] {
    } else {
      var front, last := order[..|order| - 1], order[|order| - 1];
      EligibleElements(ws, front, taken);
      assert forall w :: w in order <==> w in front || w == last;
      assert last !in front;
    }
  }

  lemma {:induction false} EligiblePrefix(ws: Witnesses, order: seq<WitnessId>, taken: seq<WitnessId>, i: nat)
    requires i <= |order| && forall w :: w in order ==> w in ws
    ensures Eligible(ws, order[..i], taken) <= Eligible(ws, order, taken)
    decreases |order| - i
  {
    if i < |order| {
      EligibleStep(ws, order, taken, i);
      EligiblePrefix(ws, order, taken, i + 1);
    } else {
      assert order[..i] == order;
    }
  }

  /** The eligible witnesses keep the order of the list. */
  lemma {:induction false} EligibleInOrder(ws: Witnesses, order: seq<WitnessId>, taken: seq<WitnessId>, i: nat, j: nat)
    returns (a: nat, b: nat)
    requires (forall w :: w in order ==> w in ws) && i < j < |Eligible(ws, order, taken)|
    ensures a < b < |order| && order[a] == Eligible(ws, order, taken)[i] && order[b] == Eligible(ws, order, taken)[j]
  {
    var front, last := order[..|order| - 1], order[|order| - 1];
    var e := Eligible(ws, front, taken);
    if j < |e| {
      a, b := EligibleInOrder(ws, front, taken, i, j);
    } else {
      b := |order| - 1;
      a := EligibleAt(ws, front, taken, i);
    }
  }

  lemma {:induction false} EligibleAt(ws: Witnesses, order: seq<WitnessId>, taken: seq<WitnessId>, i: nat) returns (a: nat)
    requires (forall w :: w in order ==> w in ws) && i < |Eligible(ws, order, taken)|
    ensures a < |order| && order[a] == Eligible(ws, order, taken)[i]
  {
    var front := order[..|order| - 1];
    if i < |Eligible(ws, front, taken)| {
      a := EligibleAt(ws, front, taken, i);
    } else {
      a := |order| - 1;
    }
  }

  /** The elected witnesses are the first eligible ones in vote order. */
  method SelectVoted(ws: Witnesses, byVote: seq<WitnessId>, maxVoted: nat) returns (elected: seq<WitnessId>)
    requires forall w :: w in byVote ==> w in ws
    ensures elected <= Eligible(ws, byVote, [])
    ensures |elected| == maxVoted || elected == Eligible(ws, byVote, [])
    ensures |elected| <= maxVoted
  {
    elected := [];
    var i := 0;
    while i < |byVote| && |elected| < maxVoted
      invariant i <= |byVote| && |elected| <= maxVoted
      invariant elected == Eligible(ws, byVote[..i], [])
    {
      EligibleStep(ws, byVote, [], i);
      if ws[byVote[i]].hasSigningKey {
        elected := elected + [byVote[i]];
      }
      i := i + 1;
    }
    EligiblePrefix(ws, byVote, [], i);
    assert byVote[..|byVote|] == byVote;
  }

  /** Fills the remaining places from the witnesses due first. Everybody passed over on the way is
      processed too, and time moves on to the last one looked at. */
  method SelectTimeshare(ws: Witnesses, bySchedule: seq<WitnessId>, elected: seq<WitnessId>, now: Uint128)
    returns (picked: seq<WitnessId>, processed: seq<WitnessId>, time: Uint128)
    requires (forall w :: w in bySchedule ==> w in ws) && |elected| <= MAX_WITNESSES
    ensures processed <= bySchedule && picked == Eligible(ws, processed, elected)
    ensures |elected| + |picked| <= MAX_WITNESSES
    ensures processed == bySchedule || |elected| + |picked| == MAX_WITNESSES
    ensures time == if processed == [] then now else ws[processed[|processed| - 1]].runner.scheduled
    ensures processed != [] ==>
              |elected| + |Eligible(ws, processed[..|processed| - 1], elected)| < MAX_WITNESSES
  {
    picked, time := [], now;
    var i := 0;
    while i < |bySchedule| && |elected| + |picked| < MAX_WITNESSES
      invariant i <= |bySchedule| && |elected| + |picked| <= MAX_WITNESSES
      invariant picked == Eligible(ws, bySchedule[..i], elected)
      invariant time == if i == 0 then now else ws[bySchedule[i - 1]].runner.scheduled
      invariant i > 0 ==> |elected| + |Eligible(ws, bySchedule[..i - 1], elected)| < MAX_WITNESSES
    {
      EligibleStep(ws, bySchedule, elected, i);
      var w := bySchedule[i];
      time := ws[w].runner.scheduled;
      if ws[w].hasSigningKey && w !in elected {
        picked := picked + [w];
      }
      i := i + 1;
    }
    processed := bySchedule[..i];
    assert i > 0 ==> processed[..|processed| - 1] == bySchedule[..i - 1];
  }

  // ----- Shuffle -----

  function Seed(headTime: bv32, i: bv64): bv64 {
    ((headTime as bv64) << 32) + i * 2685821657736338717
  }

  function Mix(seed: bv64): bv64 {
    var a := seed ^ (seed >> 12);
    var b := a ^ (a << 25);
    var c := b ^ (b >> 27);
    c * 2685821657736338717
  }

  /** The pseudo-random number for position `i`, from the head block time. */
  function Scramble(headTime: bv32, i: nat): nat {
    Mix(Seed(headTime, (i % 0x1_0000_0000) as bv64)) as nat
  }

  function Draws(headTime: bv32): nat -> nat {
    i => Scramble(headTime, i)
  }

  /** The numbers drawn for a few times and positions. */
  lemma NumbersDrawn()
    ensures Mix(Seed(0, 0)) == 0
    ensures Mix(Seed(1, 0)) == 4396774442519208864
    ensures Mix(Seed(1, 1)) == 16292610654323759860
    ensures Mix(Seed(1_500_000_000, 20)) == 625279340764895358
  {
  }

  function Exchange<T>(s: seq<T>, i: nat, j: nat): seq<T>
    requires i < |s| && j < |s|
  {
    s[i := s[j]][j := s[i]]
  }

  /** The position exchanged with position `i`: itself or a later one. */
  function Target(draw: nat -> nat, i: nat, n: nat): (j: nat)
    requires i < n
    ensures i <= j < n
  {
    i + draw(i) % (n - i)
  }

  /** The list after each position from `i` on has been exchanged with its target. */
  function Shuffled<T>(s: seq<T>, draw: nat -> nat, i: nat): seq<T>
    requires i <= |s|
    decreases |s| - i
  {
    if i == |s| then s else Shuffled(Exchange(s, i, Target(draw, i, |s|)), draw, i + 1)
  }

  /** Whatever is drawn, nobody is lost or repeated by the shuffle. */
  lemma {:induction false} ShuffledPermutes<T>(s: seq<T>, draw: nat -> nat, i: nat)
    requires i <= |s|
    ensures |Shuffled(s, draw, i)| == |s| && multiset(Shuffled(s, draw, i)) == multiset(s)
    decreases |s| - i
  {
    if i < |s| {
      var t := Exchange(s, i, Target(draw, i, |s|));
      assert multiset(t) == multiset(s);
      ShuffledPermutes(t, draw, i + 1);
    }
  }

  /** The element drawn for position `i` stays there, and the ones before it are left alone. */
  lemma {:induction false} ShuffledAt<T>(s: seq<T>, draw: nat -> nat, i: nat)
    requires i < |s|
    ensures |Shuffled(s, draw, i)| == |s| && Shuffled(s, draw, i)[..i] == s[..i]
    ensures Shuffled(s, draw, i)[i] == s[i + draw(i) % (|s| - i)]
    decreases |s| - i
  {
    var t := Exchange(s, i, Target(draw, i, |s|));
    if i + 1 < |s| {
      ShuffledAt(t, draw, i + 1);
      var r := Shuffled(t, draw, i + 1);
      assert r[..i + 1][i] == t[i] && r[..i] == r[..i + 1][..i] && t[..i + 1][..i] == s[..i];
    } else {
      assert t[..i] == s[..i];
    }
  }

  /** Only the draws from `i` on matter. */
  lemma {:induction false} LaterDraws<T>(s: seq<T>, draw: nat -> nat, other: nat -> nat, i: nat)
    requires i <= |s| && forall k :: i <= k < |s| ==> draw(k) == other(k)
    ensures Shuffled(s, draw, i) == Shuffled(s, other, i)
    decreases |s| - i
  {
    if i < |s| {
      LaterDraws(Exchange(s, i, Target(draw, i, |s|)), draw, other, i + 1);
    }
  }

  /** Every order of the list can be drawn. */
  lemma {:induction false} EveryOrderIsDrawn<T>(s: seq<T>, t: seq<T>, i: nat) returns (draw: nat -> nat)
    requires |s| == |t| && i <= |s| && s[..i] == t[..i] && multiset(s) == multiset(t)
    ensures Shuffled(s, draw, i) == t
    decreases |s| - i
  {
    if i == |s| {
      draw := _ => 0;
      assert s[..i] == s && t[..i] == t;
    } else {
      var j := FindAfter(s, t, i);
      ExchangeFits(s, t, i, j);
      hide Exchange, Shuffled;
      var later := EveryOrderIsDrawn(Exchange(s, i, j), t, i + 1);
      draw := DrawBefore(s, later, i, j);
    }
  }

  /** A draw for position `i`, and other draws from then on. */
  lemma DrawBefore<T>(s: seq<T>, later: nat -> nat, i: nat, j: nat) returns (draw: nat -> nat)
    requires i <= j < |s|
    ensures |Exchange(s, i, j)| == |s| && Shuffled(s, draw, i) == Shuffled(Exchange(s, i, j), later, i + 1)
  {
    draw := k => if k == i then j - i else later(k);
    var t := Exchange(s, i, j);
    assert |t| == |s|;
    hide Exchange, Shuffled;
    assert draw(i) % (|s| - i) == j - i by {
      SmallDraw(j - i, |s| - i);
    }
    ShuffleStep(s, draw, i);
    LaterDraws(t, draw, later, i + 1);
  }

  lemma ShuffleStep<T>(s: seq<T>, draw: nat -> nat, i: nat)
    requires i < |s|
    ensures i + draw(i) % (|s| - i) < |s|
    ensures Shuffled(s, draw, i) == Shuffled(Exchange(s, i, i + draw(i) % (|s| - i)), draw, i + 1)
  {
  }

  lemma SmallDraw(d: nat, n: nat)
    requires d < n
    ensures d % n == d
  {
  }

  lemma ExchangeFits<T>(s: seq<T>, t: seq<T>, i: nat, j: nat)
    requires |s| == |t| && i <= j < |s| && s[..i] == t[..i] && s[j] == t[i]
    ensures var r := Exchange(s, i, j);
            |r| == |s| && multiset(r) == multiset(s) && r[..i + 1] == t[..i + 1]
  {
    assert Exchange(s, i, j)[..i + 1] == s[..i] + [s[j]] == t[..i + 1];
  }

  lemma FindAfter<T>(s: seq<T>, t: seq<T>, i: nat) returns (j: nat)
    requires |s| == |t| && i < |s| && s[..i] == t[..i] && multiset(s) == multiset(t)
    ensures i <= j < |s| && s[j] == t[i]
  {
    var front, rest, rest' := s[..i], s[i..], t[i..];
    assert s == front + rest && t == front + rest';
    var x := rest'[0];
    assert multiset(s)[x] == multiset(front)[x] + multiset(rest)[x];
    assert multiset(t)[x] == multiset(front)[x] + multiset(rest')[x];
    assert x in multiset(rest');
    assert x in multiset(rest);
    var k :| 0 <= k < |rest| && rest[k] == x;
    j := i + k;
  }

  /** Shuffles the first `n` names in place. */
  method Shuffle(names: array<AccountName>, n: nat, draw: nat -> nat)
    requires n <= names.Length
    modifies names
    ensures names[..n] == Shuffled(old(names[..n]), draw, 0)
    ensures names[n..] == old(names[n..])
  {
    for i := 0 to n
      invariant Shuffled(names[..n], draw, i) == Shuffled(old(names[..n]), draw, 0)
      invariant names[n..] == old(names[n..])
    {
      Swap(names, n, i, Target(draw, i, n));
    }
  }

  method Swap(names: array<AccountName>, n: nat, i: nat, j: nat)
    requires i < n <= names.Length && j < n
    modifies names
    ensures names[..n] == Exchange(old(names[..n]), i, j)
    ensures names[n..] == old(names[n..])
  {
    names[i], names[j] := names[j], names[i];
  }
}
