/**
 Which signatures a check uses: exactly the signing keys that it reads before it stops, in the
 authorities that it gets to.
 */
module KeyMarks {
  import opened Words
  import opened Authorities
  import opened AuthorityCheck
  import opened CheckSession

  // ----- The keys of one authority -----

  /** The last of the first `n` keys signs, and brings the weight of the signing ones to the
      threshold. */
  ghost predicate Reaches(auth: Authority, signers: set<PublicKey>, n: nat) {
    0 < n <= |auth.keys| && auth.keys[n - 1].0 in signers && KeyWeight(auth.keys[..n], signers) % B32 >= auth.threshold
  }

  /** Nothing is read after the first `n` keys. */
  ghost predicate StopsAfter(limit: Uint32, auth: Authority, signers: set<PublicKey>, n: nat) {
    n == |auth.keys| || Reaches(auth, signers, n) || 0 < limit <= n
  }

  /** How many keys are read: as few as make the check stop. */
  ghost function KeysRead(limit: Uint32, auth: Authority, signers: set<PublicKey>, from: nat): (n: nat)
    requires from <= |auth.keys|
    ensures from <= n <= |auth.keys| && StopsAfter(limit, auth, signers, n)
    ensures forall j :: from <= j < n ==> !StopsAfter(limit, auth, signers, j)
    decreases |auth.keys| - from
  {
    if StopsAfter(limit, auth, signers, from) then from else KeysRead(limit, auth, signers, from + 1)
  }

  ghost function SigningKeys(keys: seq<(PublicKey, Weight)>, signers: set<PublicKey>): set<PublicKey> {
    set j | 0 <= j < |keys| && keys[j].0 in signers :: keys[j].0
  }

  /** The keys that a check of this authority uses. */
  ghost function ReadKeys(limit: Uint32, auth: Authority, signers: set<PublicKey>): set<PublicKey> {
    SigningKeys(auth.keys[..KeysRead(limit, auth, signers, 0)], signers)
  }

  /** The signatures after some more keys have been used. */
  ghost function Marked(provided: map<PublicKey, bool>, keys: set<PublicKey>): map<PublicKey, bool> {
    map k | k in provided.Keys + keys :: k in keys || (k in provided && provided[k])
  }

  lemma MarkedIs(provided: map<PublicKey, bool>, keys: set<PublicKey>, more: set<PublicKey>)
    ensures Used(Marked(provided, keys)) == Used(provided) + keys
    ensures Marked(Marked(provided, keys), more) == Marked(provided, keys + more)
    ensures Marked(provided, {}) == provided
  {
  }

  lemma MarkUsedIs(env: Env, provided: map<PublicKey, bool>, k: PublicKey)
    ensures CanSign(env, provided, k) <==> k in Signers(env, provided)
    ensures MarkUsed(env, provided, k) == Marked(provided, if k in Signers(env, provided) then {k} else {})
    ensures Signers(env, MarkUsed(env, provided, k)) == Signers(env, provided)
  {
    MarkedIs(provided, {}, {});
    if k in Signers(env, provided) {
      assert MarkUsed(env, provided, k) == Marked(provided, {k});
    }
  }

  lemma {:induction false} WeightOfMore(keys: seq<(PublicKey, Weight)>, signers: set<PublicKey>, i: nat)
    requires i < |keys|
    ensures KeyWeight(keys[..i + 1], signers) == KeyWeight(keys[..i], signers) + if keys[i].0 in signers then keys[i].1 else 0
  {
    var more, less := keys[..i + 1], keys[..i];
    if i == 0 {
      assert more[1..] == [];
    } else {
      assert more[1..] == keys[1..][..i] && less[1..] == keys[1..][..i - 1];
      WeightOfMore(keys[1..], signers, i - 1);
    }
  }

  lemma SigningKeysFrom(keys: seq<(PublicKey, Weight)>, signers: set<PublicKey>)
    requires keys != []
    ensures SigningKeys(keys, signers) == (if keys[0].0 in signers then {keys[0].0} else {}) + SigningKeys(keys[1..], signers)
  {
    var rest := keys[1..];
    forall k | k in SigningKeys(keys, signers)
      ensures k in (if keys[0].0 in signers then {keys[0].0} else {}) + SigningKeys(rest, signers)
    {
      var j :| 0 <= j < |keys| && keys[j].0 in signers && keys[j].0 == k;
      assert j > 0 ==> rest[j - 1] == keys[j];
    }
    forall k | k in SigningKeys(rest, signers)
      ensures k in SigningKeys(keys, signers)
    {
      var j :| 0 <= j < |rest| && rest[j].0 in signers && rest[j].0 == k;
      assert keys[j + 1] == rest[j];
    }
  }

  /** What a scan of the keys that starts after the first `i` comes to. */
  ghost predicate ReadsOn(env: Env, auth: Authority, i: nat, n: nat, st: State, r: Scan)
    requires i <= n <= |auth.keys|
  {
    var signers := Signers(env, st.provided);
    && r.st == st.(provided := Marked(st.provided, SigningKeys(auth.keys[i..n], signers)))
    && if n > i && Reaches(auth, signers, n) then r == Return(true, r.st)
       else if n > i && 0 < env.maxMembership <= n then r == Return(false, r.st)
       else n == |auth.keys| && r == Next(KeyWeight(auth.keys, signers) % B32, n, r.st)
  }

  lemma AddWeightIs(weight: nat, w: Weight)
    ensures AddWeight(weight % B32, w) == (weight + w) % B32
  {
  }

  /** One key of the scan. */
  lemma ScanStep(env: Env, auth: Authority, i: nat, st: State, st1: State)
    requires i < |auth.keys| && st1 == st.(provided := MarkUsed(env, st.provided, auth.keys[i].0))
    ensures var signers := Signers(env, st.provided);
            && Signers(env, st1.provided) == signers
            && ScanKeys(env, auth.threshold, auth.keys[i..], KeyWeight(auth.keys[..i], signers) % B32, i, st) ==
               if Reaches(auth, signers, i + 1) then Return(true, st1)
               else if 0 < env.maxMembership <= i + 1 then Return(false, st1)
               else ScanKeys(env, auth.threshold, auth.keys[i + 1..], KeyWeight(auth.keys[..i + 1], signers) % B32, i + 1, st1)
  {
    var keys, signers := auth.keys, Signers(env, st.provided);
    MarkUsedIs(env, st.provided, keys[i].0);
    WeightOfMore(keys, signers, i);
    AddWeightIs(KeyWeight(keys[..i], signers), keys[i].1);
    assert keys[i..][1..] == keys[i + 1..];
    hide AddWeight, KeyWeight, MarkUsed;
  }

  /** The keys marked by one step and then by the rest of the scan. */
  lemma MarksAdd(env: Env, keys: seq<(PublicKey, Weight)>, i: nat, n: nat, st: State)
    requires i < n <= |keys|
    ensures var signers := Signers(env, st.provided);
            Marked(MarkUsed(env, st.provided, keys[i].0), SigningKeys(keys[i + 1..n], signers)) ==
            Marked(st.provided, SigningKeys(keys[i..n], signers))
  {
    var signers := Signers(env, st.provided);
    assert keys[i..n][1..] == keys[i + 1..n];
    SigningKeysFrom(keys[i..n], signers);
    MarkUsedIs(env, st.provided, keys[i].0);
    MarkedIs(st.provided, if keys[i].0 in signers then {keys[i].0} else {}, SigningKeys(keys[i + 1..n], signers));
  }

  lemma NoneSign(env: Env, keys: seq<(PublicKey, Weight)>, i: nat, provided: map<PublicKey, bool>)
    requires i <= |keys|
    ensures Marked(provided, SigningKeys(keys[i..i], Signers(env, provided))) == provided
  {
    MarkedIs(provided, {}, {});
    assert SigningKeys(keys[i..i], Signers(env, provided)) == {};
  }

  lemma {:induction false} ScanReadsOn(env: Env, auth: Authority, i: nat, n: nat, st: State)
    requires i <= |auth.keys|
    requires n == if i == |auth.keys| then i else KeysRead(env.maxMembership, auth, Signers(env, st.provided), i + 1)
    ensures ReadsOn(env, auth, i, n, st,
                    ScanKeys(env, auth.threshold, auth.keys[i..], KeyWeight(auth.keys[..i], Signers(env, st.provided)) % B32, i, st))
    decreases |auth.keys| - i
  {
    hide Marked, SigningKeys, MarkUsed, Signers, KeyWeight;
    var keys, signers := auth.keys, Signers(env, st.provided);
    if i == |keys| {
      assert keys[..i] == keys;
      NoneSign(env, keys, i, st.provided);
    } else {
      var st1 := st.(provided := MarkUsed(env, st.provided, keys[i].0));
      ScanStep(env, auth, i, st, st1);
      MarksAdd(env, keys, i, n, st);
      hide Reaches, ScanKeys;
      if Reaches(auth, signers, i + 1) || 0 < env.maxMembership <= i + 1 {
        assert n == i + 1;
        NoneSign(env, keys, i + 1, st1.provided);
      } else {
        ScanReadsOn(env, auth, i + 1, n, st1);
      }
    }
  }

  lemma NoKeysNoWeight(keys: seq<(PublicKey, Weight)>, signers: set<PublicKey>)
    requires keys == []
    ensures KeyWeight(keys, signers) == 0
  {
  }

  /** The scan of the keys, without the scan: it uses the signing ones among those it reads, answers
      true if the last of them reaches the threshold, false if it is the last that may be looked at,
      and otherwise leaves their weight. */
  lemma ScanKeysExact(env: Env, auth: Authority, st: State)
    ensures var signers := Signers(env, st.provided);
            var n := KeysRead(env.maxMembership, auth, signers, 0);
            var r := ScanKeys(env, auth.threshold, auth.keys, 0, 0, st);
            && r.st == st.(provided := Marked(st.provided, ReadKeys(env.maxMembership, auth, signers)))
            && if Reaches(auth, signers, n) then r == Return(true, r.st)
               else if 0 < env.maxMembership <= n then r == Return(false, r.st)
               else n == |auth.keys| && r == Next(KeyWeight(auth.keys, signers) % B32, n, r.st)
  {
    hide Marked, SigningKeys, Signers, ScanKeys, KeyWeight;
    var signers := Signers(env, st.provided);
    var n := KeysRead(env.maxMembership, auth, signers, 0);
    var all, read := auth.keys[0..], auth.keys[0..n];
    assert all == auth.keys && read == auth.keys[..n];
    assert KeyWeight(auth.keys[..0], signers) == 0 by {
      NoKeysNoWeight(auth.keys[..0], signers);
    }
    ScanReadsOn(env, auth, 0, n, st);
  }

  // ----- The authorities a check gets to -----

  /** The authorities whose keys are read, in order. */
  ghost function Visits(env: Env, auth: Authority, depth: nat, st: State): seq<Authority>
    requires depth <= env.maxRecursion
    decreases env.maxRecursion - depth, |auth.accounts|, 2
  {
    [auth] + match ScanKeys(env, auth.threshold, auth.keys, 0, 0, st)
             case Return(_, _) => []
             case Next(total, membership, st1) =>
               VisitsBelow(env, auth.threshold, auth.accounts, depth, total, membership, st1)
  }

  /** An account that is cached, or that may not be checked any more, is not visited. */
  ghost function VisitsBelow(env: Env, threshold: Uint32, accounts: seq<(AccountName, Weight)>, depth: nat,
                             total: Uint32, membership: nat, st: State): seq<Authority>
    requires depth <= env.maxRecursion
    decreases env.maxRecursion - depth, |accounts|, 0
  {
    if accounts == [] then []
    else if accounts[0].0 !in st.approvedBy && depth == env.maxRecursion then
      VisitsBelow(env, threshold, accounts[1..], depth, total, membership, st)
    else if accounts[0].0 !in st.approvedBy && LimitReached(env.maxAccountAuths, st.count) then []
    else
      var r := CheckMember(env, accounts[0].0, depth, st);
      var total1 := if r.ok then AddWeight(total, accounts[0].1) else total;
      (if accounts[0].0 in st.approvedBy then []
       else Visits(env, env.getActive(accounts[0].0), depth + 1, st.(count := Increment(st.count)))) +
      if (r.ok && total1 >= threshold) || LimitReached(env.maxMembership, membership + 1) then []
      else VisitsBelow(env, threshold, accounts[1..], depth, total1, membership + 1, r.st)
  }

  /** The keys that are read and sign in any of these authorities. */
  ghost function AllRead(limit: Uint32, visits: seq<Authority>, signers: set<PublicKey>): set<PublicKey> {
    if visits == [] then {} else ReadKeys(limit, visits[0], signers) + AllRead(limit, visits[1..], signers)
  }

  lemma {:induction false} AllReadAppends(limit: Uint32, a: seq<Authority>, b: seq<Authority>, signers: set<PublicKey>)
    ensures AllRead(limit, a + b, signers) == AllRead(limit, a, signers) + AllRead(limit, b, signers)
  {
    if a == [] {
      assert a + b == b;
    } else {
      assert (a + b)[1..] == a[1..] + b;
      AllReadAppends(limit, a[1..], b, signers);
    }
  }

  /** The signatures after these authorities have been visited. */
  ghost predicate MarksVisits(env: Env, st: State, r: State, visits: seq<Authority>) {
    var signers := Signers(env, st.provided);
    r.provided == Marked(st.provided, AllRead(env.maxMembership, visits, signers)) && Signers(env, r.provided) == signers
  }

  lemma MarksNothing(env: Env, st: State)
    ensures MarksVisits(env, st, st, [])
  {
    MarkedIs(st.provided, {}, {});
  }

  lemma MarksOn(env: Env, st: State, st1: State, a: seq<Authority>, st2: State, b: seq<Authority>)
    requires MarksVisits(env, st, st1, a) && MarksVisits(env, st1, st2, b)
    ensures MarksVisits(env, st, st2, a + b)
  {
    var signers := Signers(env, st.provided);
    AllReadAppends(env.maxMembership, a, b, signers);
    MarkedIs(st.provided, AllRead(env.maxMembership, a, signers), AllRead(env.maxMembership, b, signers));
    hide Marked, AllRead, Signers;
  }

  lemma MarksFirst(env: Env, auth: Authority, st: State)
    ensures MarksVisits(env, st, ScanKeys(env, auth.threshold, auth.keys, 0, 0, st).st, [auth])
  {
    ScanKeysExact(env, auth, st);
    var signers, read := Signers(env, st.provided), ReadKeys(env.maxMembership, auth, Signers(env, st.provided));
    var visits := [auth];
    assert visits[1..] == [] && AllRead(env.maxMembership, visits, signers) == read;
    assert read <= signers;
    assert Signers(env, Marked(st.provided, read)) == signers;
  }

  /** A check uses exactly the signing keys that it reads in the authorities it visits. */
  lemma {:induction false} CheckMarksExactly(env: Env, auth: Authority, depth: nat, st: State)
    requires depth <= env.maxRecursion
    ensures MarksVisits(env, st, Check(env, auth, depth, st).st, Visits(env, auth, depth, st))
    decreases env.maxRecursion - depth, |auth.accounts|, 2
  {
    hide MarksVisits, ScanKeys;
    var scan := ScanKeys(env, auth.threshold, auth.keys, 0, 0, st);
    MarksFirst(env, auth, st);
    if scan.Next? {
      ScanMarksExactly(env, auth.threshold, auth.accounts, depth, scan.total, scan.membership, scan.st);
      var after := ScanAccounts(env, auth.threshold, auth.accounts, depth, scan.total, scan.membership, scan.st);
      assert ContinueWithAccounts(env, auth, depth, scan) == after;
      assert Check(env, auth, depth, st).st == after.st;
      MarksOn(env, st, scan.st, [auth], after.st,
              VisitsBelow(env, auth.threshold, auth.accounts, depth, scan.total, scan.membership, scan.st));
    } else {
      assert [auth] + [] == [auth];
    }
  }

  lemma {:induction false} ScanMarksExactly(env: Env, threshold: Uint32, accounts: seq<(AccountName, Weight)>, depth: nat,
                                            total: Uint32, membership: nat, st: State)
    requires depth <= env.maxRecursion
    ensures MarksVisits(env, st, ScanAccounts(env, threshold, accounts, depth, total, membership, st).st,
                        VisitsBelow(env, threshold, accounts, depth, total, membership, st))
    decreases env.maxRecursion - depth, |accounts|, 0
  {
    hide MarksVisits, AddWeight;
    if accounts == [] {
      MarksNothing(env, st);
    } else if accounts[0].0 !in st.approvedBy && depth == env.maxRecursion {
      ScanMarksExactly(env, threshold, accounts[1..], depth, total, membership, st);
    } else if accounts[0].0 !in st.approvedBy && LimitReached(env.maxAccountAuths, st.count) {
      MarksNothing(env, st);
    } else {
      var r := CheckMember(env, accounts[0].0, depth, st);
      var total1 := if r.ok then AddWeight(total, accounts[0].1) else total;
      var first := MemberMarksExactly(env, accounts[0].0, depth, st);
      hide CheckMember;
      if (r.ok && total1 >= threshold) || LimitReached(env.maxMembership, membership + 1) {
        assert first + [] == first;
      } else {
        ScanMarksExactly(env, threshold, accounts[1..], depth, total1, membership + 1, r.st);
        MarksOn(env, st, r.st, first, ScanAccounts(env, threshold, accounts[1..], depth, total1, membership + 1, r.st).st,
                VisitsBelow(env, threshold, accounts[1..], depth, total1, membership + 1, r.st));
      }
    }
  }

  lemma {:induction false} MemberMarksExactly(env: Env, a: AccountName, depth: nat, st: State) returns (visits: seq<Authority>)
    requires depth <= env.maxRecursion && (a in st.approvedBy || depth < env.maxRecursion)
    ensures visits == if a in st.approvedBy then [] else Visits(env, env.getActive(a), depth + 1, st.(count := Increment(st.count)))
    ensures MarksVisits(env, st, CheckMember(env, a, depth, st).st, visits)
    decreases env.maxRecursion - depth, 0, 0
  {
    if a in st.approvedBy {
      visits := [];
      MarksNothing(env, st);
    } else {
      CheckMarksExactly(env, env.getActive(a), depth + 1, st.(count := Increment(st.count)));
      visits := Visits(env, env.getActive(a), depth + 1, st.(count := Increment(st.count)));
    }
  }

  // ----- Sessions -----

  ghost function AskVisits(env: Env, q: Query, st: State): seq<Authority> {
    match q
    case ByName(id) => if id in st.approvedBy then [] else Visits(env, env.getActive(id), 0, st.(count := 1))
    case ByAuthority(auth) => Visits(env, auth, 0, st.(count := 0))
  }

  lemma AskMarksExactly(env: Env, q: Query, st: State)
    ensures MarksVisits(env, st, Pose(env, q, st).st, AskVisits(env, q, st))
  {
    match q
    case ByName(id) =>
      if id in st.approvedBy {
        MarksNothing(env, st);
      } else {
        CheckMarksExactly(env, env.getActive(id), 0, st.(count := 1));
      }
    case ByAuthority(auth) => CheckMarksExactly(env, auth, 0, st.(count := 0));
  }

  ghost function RunVisits(env: Env, qs: seq<Query>, st: State): seq<Authority> {
    if qs == [] then [] else AskVisits(env, qs[0], st) + RunVisits(env, qs[1..], Pose(env, qs[0], st).st)
  }

  /** A session uses exactly the signing keys that it reads. */
  lemma {:induction false} SessionMarksExactly(env: Env, qs: seq<Query>, st: State)
    ensures MarksVisits(env, st, Run(env, qs, st).st, RunVisits(env, qs, st))
  {
    hide MarksVisits, Pose, AskVisits;
    if qs == [] {
      MarksNothing(env, st);
    } else {
      var next := Pose(env, qs[0], st).st;
      AskMarksExactly(env, qs[0], st);
      SessionMarksExactly(env, qs[1..], next);
      MarksOn(env, st, next, AskVisits(env, qs[0], st), Run(env, qs[1..], next).st, RunVisits(env, qs[1..], next));
    }
  }

  // ----- A key that cannot be read is not used -----

  /** Account `a` is in the tree below a list, within `d` levels. */
  ghost predicate InTree(getActive: AuthorityGetter, accounts: seq<(AccountName, Weight)>, d: nat, a: AccountName)
    decreases d, |accounts|
  {
    && d > 0 && accounts != []
    && (|| a == accounts[0].0
        || InTree(getActive, getActive(accounts[0].0).accounts, d - 1, a)
        || InTree(getActive, accounts[1..], d, a))
  }

  /** Some account in that tree, not among `known`, has this authority. */
  ghost predicate HeldInTree(getActive: AuthorityGetter, accounts: seq<(AccountName, Weight)>, d: nat,
                             known: set<AccountName>, auth: Authority)
  {
    exists a :: InTree(getActive, accounts, d, a) && a !in known && auth == getActive(a)
  }

  lemma HeldBelow(getActive: AuthorityGetter, accounts: seq<(AccountName, Weight)>, d: nat,
                  known: set<AccountName>, more: set<AccountName>, auth: Authority)
    requires accounts != [] && known <= more
    requires || (d > 0 && accounts[0].0 !in known && auth == getActive(accounts[0].0))
             || (d > 0 && HeldInTree(getActive, getActive(accounts[0].0).accounts, d - 1, more, auth))
             || HeldInTree(getActive, accounts[1..], d, more, auth)
    ensures HeldInTree(getActive, accounts, d, known, auth)
  {
    if d > 0 && accounts[0].0 !in known && auth == getActive(accounts[0].0) {
      assert InTree(getActive, accounts, d, accounts[0].0);
    } else if d > 0 && HeldInTree(getActive, getActive(accounts[0].0).accounts, d - 1, more, auth) {
      var a :| InTree(getActive, getActive(accounts[0].0).accounts, d - 1, a) && a !in more && auth == getActive(a);
      assert InTree(getActive, accounts, d, a);
    } else {
      var a :| InTree(getActive, accounts[1..], d, a) && a !in more && auth == getActive(a);
      assert InTree(getActive, accounts, d, a);
    }
  }

  /** A check visits its own authority, and below it only accounts in the tree that are not cached. */
  lemma {:induction false} VisitsAreInTree(env: Env, auth: Authority, depth: nat, st: State, v: Authority)
    requires depth <= env.maxRecursion && v in Visits(env, auth, depth, st)
    ensures v == auth || HeldInTree(env.getActive, auth.accounts, env.maxRecursion - depth, st.approvedBy, v)
    decreases env.maxRecursion - depth, |auth.accounts|, 2
  {
    var scan := ScanKeys(env, auth.threshold, auth.keys, 0, 0, st);
    ScanKeysExact(env, auth, st);
    hide ScanKeys, HeldInTree;
    if v != auth {
      VisitsBelowAreInTree(env, auth.threshold, auth.accounts, depth, scan.total, scan.membership, scan.st, v);
    }
  }

  lemma {:induction false} VisitsBelowAreInTree(env: Env, threshold: Uint32, accounts: seq<(AccountName, Weight)>, depth: nat,
                                                total: Uint32, membership: nat, st: State, v: Authority)
    requires depth <= env.maxRecursion && v in VisitsBelow(env, threshold, accounts, depth, total, membership, st)
    ensures HeldInTree(env.getActive, accounts, env.maxRecursion - depth, st.approvedBy, v)
    decreases env.maxRecursion - depth, |accounts|, 0
  {
    hide HeldInTree, AddWeight, CheckMember, LimitReached, Visits, Increment;
    var left := env.maxRecursion - depth;
    if accounts[0].0 !in st.approvedBy && depth == env.maxRecursion {
      VisitsBelowAreInTree(env, threshold, accounts[1..], depth, total, membership, st, v);
      HeldBelow(env.getActive, accounts, left, st.approvedBy, st.approvedBy, v);
    } else {
      var a, st1 := accounts[0].0, st.(count := Increment(st.count));
      var r := CheckMember(env, a, depth, st);
      var total1 := if r.ok then AddWeight(total, accounts[0].1) else total;
      if a !in st.approvedBy && v in Visits(env, env.getActive(a), depth + 1, st1) {
        VisitsAreInTree(env, env.getActive(a), depth + 1, st1, v);
        HeldBelow(env.getActive, accounts, left, st.approvedBy, st.approvedBy, v);
      } else {
        VisitsBelowAreInTree(env, threshold, accounts[1..], depth, total1, membership + 1, r.st, v);
        CacheGrows(env, a, depth, st);
        HeldBelow(env.getActive, accounts, left, st.approvedBy, r.st.approvedBy, v);
      }
    }
  }

  lemma CacheGrows(env: Env, a: AccountName, depth: nat, st: State)
    requires depth <= env.maxRecursion && (a in st.approvedBy || depth < env.maxRecursion)
    ensures st.approvedBy <= CheckMember(env, a, depth, st).st.approvedBy
  {
    var m := LedgerOf(env, st, st.approvedBy);
    ApprovedIsLeastClosed(m);
    CheckMemberSound(m, env, a, depth, st);
  }
}
