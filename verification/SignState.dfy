/**
 The sign state itself: an object whose key marks and approval cache are updated in place by
 recursive checks. Every method is proved against the functions of AuthorityCheck.
 */
module SignStates {
  import opened Words
  import opened Authorities
  import opened AuthorityCheck
  import opened CheckSession

  class SignState {
    const getActive: AuthorityGetter
    const available: set<PublicKey>
    var provided: map<PublicKey, bool>
    var approvedBy: set<AccountName>
    var maxRecursion: Uint32
    var maxMembership: Uint32
    var maxAccountAuths: Uint32

    ghost function Reading(): Env
      reads this
    {
      Env(getActive, available, maxRecursion, maxMembership, maxAccountAuths)
    }

    ghost function Snapshot(count: Uint32): State
      reads this
    {
      State(provided, approvedBy, count)
    }

    /** The limits default to depth 2 and to no effective bound on members and accounts. */
    constructor (sigs: set<PublicKey>, getter: AuthorityGetter, keys: set<PublicKey>)
      ensures Snapshot(0) == Start(sigs, {})
      ensures getActive == getter && available == keys
      ensures maxRecursion == 2 && maxMembership == 0xFFFF_FFFF && maxAccountAuths == 0xFFFF_FFFF
    {
      getActive := getter;
      available := keys;
      maxRecursion := 2;
      maxMembership := 0xFFFF_FFFF;
      maxAccountAuths := 0xFFFF_FFFF;
      provided := map[];
      approvedBy := {};
      new;
      var rest := sigs;
      while rest != {}
        invariant rest <= sigs
        invariant provided == map k | k in sigs - rest :: false
        invariant approvedBy == {}
        invariant maxRecursion == 2 && maxMembership == 0xFFFF_FFFF && maxAccountAuths == 0xFFFF_FFFF
        decreases rest
      {
        var k :| k in rest;
        provided := provided[k := false];
        rest := rest - {k};
      }
      approvedBy := approvedBy + {TEMP};
    }

    method SignedBy(k: PublicKey) returns (signed: bool)
      modifies this`provided
      ensures signed == CanSign(Reading(), old(provided), k)
      ensures provided == MarkUsed(Reading(), old(provided), k)
    {
      if k !in provided {
        if k in available {
          provided := provided[k := true];
          return true;
        }
        return false;
      }
      provided := provided[k := true];
      return true;
    }

    method CheckAccount(id: AccountName) returns (ok: bool)
      modifies this`provided, this`approvedBy
      ensures var r := Ask(old(Reading()), ByName(id), old(Snapshot(0)));
              ok == r.ok && provided == r.st.provided && approvedBy == r.st.approvedBy
    {
      if id in approvedBy {
        return true;
      }
      var count: Uint32;
      ok, count := CheckAuthorityImpl(getActive(id), 0, 1);
    }

    /** Checks an explicit authority, by default from depth 0 with nothing counted. */
    method CheckAuthority(auth: Authority, depth: Uint32, accountAuthCount: Uint32) returns (ok: bool)
      requires depth <= maxRecursion
      modifies this`provided, this`approvedBy
      ensures var r := Check(old(Reading()), auth, depth, old(Snapshot(accountAuthCount)));
              ok == r.ok && provided == r.st.provided && approvedBy == r.st.approvedBy
    {
      var count: Uint32;
      ok, count := CheckAuthorityImpl(auth, depth, accountAuthCount);
    }

    method CheckAuthorityImpl(auth: Authority, depth: nat, accountAuthCount: Uint32) returns (ok: bool, count: Uint32)
      requires depth <= maxRecursion
      modifies this`provided, this`approvedBy
      ensures Check(old(Reading()), auth, depth, old(Snapshot(accountAuthCount))) == Verdict(ok, Snapshot(count))
      decreases maxRecursion - depth, 2
    {
      count := accountAuthCount;
      var decided, total, membership;
      decided, ok, total, membership := WeighKeys(auth, accountAuthCount);
      if decided {
        return;
      }
      decided, ok, total, membership, count := WeighAccounts(auth, depth, total, membership, count);
      if !decided {
        ok := total >= auth.threshold;
      }
    }

    /** The loop over the keys, which either decides the check or leaves a weight to add to. */
    method WeighKeys(auth: Authority, ghost count: Uint32) returns (decided: bool, ok: bool, total: Uint32, membership: nat)
      modifies this`provided
      ensures ScanKeys(old(Reading()), auth.threshold, auth.keys, 0, 0, old(Snapshot(count))) ==
              if decided then Return(ok, Snapshot(count)) else Next(total, membership, Snapshot(count))
    {
      total, membership := 0, 0;
      ghost var env := Reading();
      ghost var scan := ScanKeys(env, auth.threshold, auth.keys, 0, 0, Snapshot(count));
      for i := 0 to |auth.keys|
        invariant Reading() == env
        invariant scan == ScanKeys(env, auth.threshold, auth.keys[i..], total, membership, Snapshot(count))
      {
        assert auth.keys[i..][1..] == auth.keys[i + 1..];
        var signed := SignedBy(auth.keys[i].0);
        if signed {
          total := AddWeight(total, auth.keys[i].1);
          if total >= auth.threshold {
            return true, true, total, membership;
          }
        }
        membership := membership + 1;
        if maxMembership > 0 && membership >= maxMembership {
          return true, false, total, membership;
        }
      }
      decided, ok := false, false;
    }

    /** The loop over the accounts. */
    method WeighAccounts(auth: Authority, depth: nat, weight: Uint32, members: nat, accountAuthCount: Uint32)
      returns (decided: bool, ok: bool, total: Uint32, membership: nat, count: Uint32)
      requires depth <= maxRecursion
      modifies this`provided, this`approvedBy
      ensures ScanAccounts(old(Reading()), auth.threshold, auth.accounts, depth, weight, members, old(Snapshot(accountAuthCount))) ==
              if decided then Return(ok, Snapshot(count)) else Next(total, membership, Snapshot(count))
      decreases maxRecursion - depth, 1
    {
      total, membership, count := weight, members, accountAuthCount;
      ghost var env := Reading();
      ghost var scan := ScanAccounts(env, auth.threshold, auth.accounts, depth, total, membership, Snapshot(count));
      for i := 0 to |auth.accounts|
        invariant Reading() == env
        invariant scan == ScanAccounts(env, auth.threshold, auth.accounts[i..], depth, total, membership, Snapshot(count))
      {
        assert auth.accounts[i..][1..] == auth.accounts[i + 1..];
        var a, w := auth.accounts[i].0, auth.accounts[i].1;
        if a !in approvedBy {
          if depth == maxRecursion {
            continue;
          }
          if maxAccountAuths > 0 && count >= maxAccountAuths {
            return true, false, total, membership, count;
          }
        }
        var approved;
        approved, count := Approves(a, depth, count);
        if approved {
          total := AddWeight(total, w);
          if total >= auth.threshold {
            return true, true, total, membership, count;
          }
        }
        membership := membership + 1;
        if maxMembership > 0 && membership >= maxMembership {
          return true, false, total, membership, count;
        }
      }
      decided, ok := false, false;
    }

    /** One account: cached, or checked one level deeper and then cached. */
    method Approves(a: AccountName, depth: nat, accountAuthCount: Uint32) returns (ok: bool, count: Uint32)
      requires depth <= maxRecursion && (a in approvedBy || depth < maxRecursion)
      modifies this`provided, this`approvedBy
      ensures CheckMember(old(Reading()), a, depth, old(Snapshot(accountAuthCount))) == Verdict(ok, Snapshot(count))
      decreases maxRecursion - depth, 0
    {
      ok, count := true, accountAuthCount;
      if a !in approvedBy {
        count := Increment(count);
        ok, count := CheckAuthorityImpl(getActive(a), depth + 1, count);
        if ok {
          approvedBy := approvedBy + {a};
        }
      }
    }

    /** Keeps exactly the keys some check used, and reports whether there were any others. */
    method RemoveUnusedSignatures() returns (removed: bool)
      modifies this`provided
      ensures provided.Keys == Used(old(provided)) && Used(provided) == Used(old(provided))
      ensures removed <==> Used(old(provided)) != old(provided).Keys
    {
      ghost var before := provided;
      var removeSigs: set<PublicKey> := {};
      var rest := provided.Keys;
      while rest != {}
        invariant rest <= provided.Keys && provided == before
        invariant removeSigs == set k | k in provided && k !in rest && !provided[k]
        decreases rest
      {
        var k :| k in rest;
        if !provided[k] {
          removeSigs := removeSigs + {k};
        }
        rest := rest - {k};
      }
      removed := removeSigs != {};
      assert removed <==> Used(before) != before.Keys by {
        if !removed {
          assert forall k :: k in before ==> k !in removeSigs;
          assert Used(before) == before.Keys;
        } else {
          var k :| k in removeSigs;
          assert k in before.Keys && k !in Used(before);
        }
      }
      while removeSigs != {}
        invariant forall k :: k in before && before[k] ==> k in provided && provided[k]
        invariant forall k :: k in provided ==> k in before && provided[k] == before[k]
        invariant forall k :: k in provided && !provided[k] ==> k in removeSigs
        invariant forall k :: k in removeSigs ==> k in before && !before[k]
        decreases removeSigs
      {
        var k :| k in removeSigs;
        provided := provided - {k};
        removeSigs := removeSigs - {k};
      }
    }
  }
}
