/** Which registered service a claim gets (controllers/serviceclaim_controller.go). */
module Selection {
  import opened Wrappers
  import opened ClaimMachine
  import Endpoints
  import EnvTag

  type IdentityItem = Endpoints.IdentityItem

  /** A registered service as read from the API server: `version` is the resource version of the read. */
  datatype RegisteredService = RegisteredService(
    name: Name,
    version: nat,
    state: SvcState,
    identity: seq<IdentityItem>,
    constraints: Option<seq<string>>,
    endpoints: seq<Endpoints.SedItem>)

  lemma PrefixCounts<T>(s: seq<T>, i: nat)
    requires i < |s|
    ensures multiset(s[..i + 1]) == multiset(s[..i])[s[i] := multiset(s[..i])[s[i]] + 1]
    ensures multiset(s[..i + 1]) <= multiset(s)
  {
    assert s[..i + 1] == s[..i] + [s[i]];
    assert s == s[..i + 1] + s[i + 1..];
  }

  ghost predicate Counts(counts: map<IdentityItem, nat>, m: multiset<IdentityItem>) {
    forall x :: m[x] == if x in counts then counts[x] else 0
  }

  /** Multiset inclusion, decided by counting down a map of occurrences. */
  method CheckSCISubset(serviceClaim: seq<IdentityItem>, registeredService: seq<IdentityItem>) returns (r: bool)
    ensures r <==> multiset(serviceClaim) <= multiset(registeredService)
  {
    var counts: map<IdentityItem, nat> := map[];
    for i := 0 to |registeredService|
      invariant Counts(counts, multiset(registeredService[..i]))
    {
      var value := registeredService[i];
      counts := counts[value := (if value in counts then counts[value] else 0) + 1];
      PrefixCounts(registeredService, i);
    }
    assert registeredService[..|registeredService|] == registeredService;
    ghost var left := multiset(registeredService);
    for i := 0 to |serviceClaim|
      invariant Counts(counts, left)
      invariant multiset(serviceClaim[..i]) + left == multiset(registeredService)
    {
      var value := serviceClaim[i];
      PrefixCounts(serviceClaim, i);
      if value !in counts {
        assert multiset(serviceClaim[..i + 1])[value] > multiset(registeredService)[value];
        return false;
      } else if counts[value] < 1 {
        assert multiset(serviceClaim[..i + 1])[value] > multiset(registeredService)[value];
        return false;
      } else {
        counts := counts[value := counts[value] - 1];
        left := left[value := left[value] - 1];
      }
    }
    assert serviceClaim[..|serviceClaim|] == serviceClaim;
    return true;
  }

  /** The service can be claimed from the environment by a claim with this identity. */
  predicate Suits(identity: seq<IdentityItem>, env: string, rs: RegisteredService) {
    && multiset(identity) <= multiset(rs.identity)
    && (rs.constraints.None? || EnvTag.Admits(env, rs.constraints.value))
  }

  predicate Selectable(identity: seq<IdentityItem>, env: string, rs: RegisteredService) {
    rs.state == Available && Suits(identity, env, rs)
  }

  /** Entry `i` of the listing is the first that suits. */
  predicate FirstSuiting(identity: seq<IdentityItem>, env: string, rsl: seq<RegisteredService>, i: nat) {
    i < |rsl| && Suits(identity, env, rsl[i]) && forall j :: 0 <= j < i ==> !Suits(identity, env, rsl[j])
  }

  predicate FirstSelectable(identity: seq<IdentityItem>, env: string, rsl: seq<RegisteredService>, i: nat) {
    i < |rsl| && Selectable(identity, env, rsl[i]) && forall j :: 0 <= j < i ==> !Selectable(identity, env, rsl[j])
  }

  /** The first listed service that is Available, has the claim's identity and admits its environment. */
  method SelectService(identity: seq<IdentityItem>, env: string, rsl: seq<RegisteredService>)
    returns (chosen: Option<nat>)
    ensures chosen.None? ==> forall i :: 0 <= i < |rsl| ==> !Selectable(identity, env, rsl[i])
    ensures chosen.Some? ==> FirstSelectable(identity, env, rsl, chosen.value)
    ensures chosen.Some? ==>
      var rs := rsl[chosen.value];
      && rs.state == Available && multiset(identity) <= multiset(rs.identity)
      && (rs.constraints.None? || EnvTag.Admits(env, rs.constraints.value))
    ensures forall i :: 0 <= i < (if chosen.Some? then chosen.value else |rsl|) ==>
      || rsl[i].state != Available || !(multiset(identity) <= multiset(rsl[i].identity))
      || (rsl[i].constraints.Some? && !EnvTag.Admits(env, rsl[i].constraints.value))
  {
    for i := 0 to |rsl|
      invariant forall j :: 0 <= j < i ==> !Selectable(identity, env, rsl[j])
    {
      var rs := rsl[i];
      if rs.state != Available {
        continue;
      }
      var subset := CheckSCISubset(identity, rs.identity);
      if subset {
        var admitted := true;
        if rs.constraints.Some? {
          admitted := EnvTag.Match(env, rs.constraints.value);
        }
        if admitted {
          return Some(i);
        }
      }
    }
    return None;
  }

  /** The choice of a claim's deletion looks at the same conditions except the state. */
  method MatchForDeletion(identity: seq<IdentityItem>, env: string, rsl: seq<RegisteredService>)
    returns (chosen: Option<nat>)
    ensures chosen.None? ==> forall i :: 0 <= i < |rsl| ==> !Suits(identity, env, rsl[i])
    ensures chosen.Some? ==> FirstSuiting(identity, env, rsl, chosen.value)
    ensures chosen.Some? ==>
      var rs := rsl[chosen.value];
      && multiset(identity) <= multiset(rs.identity)
      && (rs.constraints.None? || EnvTag.Admits(env, rs.constraints.value))
    ensures forall i :: 0 <= i < (if chosen.Some? then chosen.value else |rsl|) ==>
      || !(multiset(identity) <= multiset(rsl[i].identity))
      || (rsl[i].constraints.Some? && !EnvTag.Admits(env, rsl[i].constraints.value))
  {
    for i := 0 to |rsl|
      invariant forall j :: 0 <= j < i ==> !Suits(identity, env, rsl[j])
    {
      var subset := CheckSCISubset(identity, rsl[i].identity);
      if subset {
        var admitted := true;
        if rsl[i].constraints.Some? {
          admitted := EnvTag.Match(env, rsl[i].constraints.value);
        }
        if admitted {
          return Some(i);
        }
      }
    }
    return None;
  }
}
