/** The deletion of a claim, from its mark to its end: the service that is freed, the bindings that are deleted,
    and the finalizer (controllers/serviceclaim_controller.go). */
module ClaimFinalizer {
  import opened Wrappers
  import opened ClaimMachine
  import opened ClaimExclusivity
  import opened ClaimTheorems
  import opened ClaimReconciler
  import opened Selection
  import opened ClaimDeletion

  /** What listing the registered services gives; a listing that is not found is no error. */
  datatype Services = ServicesListed(rsl: seq<RegisteredService>) | ServicesMissing | ServicesBroken

  predicate Readable(w: World, services: Services) {
    services.ServicesListed? ==> forall i :: 0 <= i < |services.rsl| ==> ReadFrom(w, services.rsl[i])
  }

  function ListOf(services: Services): seq<RegisteredService> {
    if services.ServicesListed? then services.rsl else []
  }

  /** The deletion of claim `c` frees the first listed service that suits it, whatever its state and whatever the
      status of the claim says. Whoever relies on that service keeps it if and only if the write conflicts or no
      other claim relies on it; and so it is whenever the service is the one that the claim itself still
      holds. */
  lemma ChoiceIsSafeExactlyWhen(
    w: World, c: Name, identity: seq<IdentityItem>, env: string, rsl: seq<RegisteredService>, i: nat)
    requires FirstSuiting(identity, env, rsl, i) && Inv(w, rsl[i].name)
    requires ClaimMay(w, c, FreeOnDelete(rsl[i].name, rsl[i].version))
    ensures var r, sver := rsl[i].name, rsl[i].version;
      && (Inv(ApplyClaim(w, c, FreeOnDelete(r, sver)), r) <==>
            !Current(w, r, sver) || forall d :: d in w.claims && d != c ==> !Needs(w, d, r))
      && (Holds(w, c, r) ==> Inv(ApplyClaim(w, c, FreeOnDelete(r, sver)), r))
  {
    var r, sver := rsl[i].name, rsl[i].version;
    assert !Needs(w, c, r);
    ClaimEventKeepsInv(w, c, FreeOnDelete(r, sver), r);
    if Holds(w, c, r) {
      OwnServiceIsFaithful(w, c, r, sver);
    }
  }

  /** The write of a service as Available, at the version that was listed. `before` is the world at that write. */
  method FreeListed(cp: ControlPlane, c: Name, rs: RegisteredService) returns (ok: bool, ghost before: World)
    requires cp.Valid() && IsIdle(cp.world, c) && c in cp.world.terminating && ReadFrom(cp.world, rs)
    modifies cp
    ensures cp.Valid() && old(cp.trace) <= cp.trace && IsIdle(cp.world, c) && c in cp.world.terminating
    ensures old(cp.failures) <= cp.failures && (ok <==> cp.failures == old(cp.failures))
    ensures ok ==>
      && WellFormed(before) && ClaimMay(before, c, FreeOnDelete(rs.name, rs.version))
      && Current(before, rs.name, rs.version) && cp.world == ApplyClaim(before, c, FreeOnDelete(rs.name, rs.version))
      && InState(cp.world, rs.name, Available)
  {
    cp.Interfere(c);
    before := cp.world;
    var reached := cp.Call();
    if !reached {
      return false, before;
    }
    var current := Current(cp.world, rs.name, rs.version);
    cp.Take(OfClaim(c, FreeOnDelete(rs.name, rs.version)));
    if !current {
      cp.failures := cp.failures + 1;
      return false, before;
    }
    ok := cp.Call();
  }

  /** `processClaimMarkedForDeletion`: bindings are deleted, and the first suiting service is written Available
      at the version that was listed. `before` is the world at that write. */
  method ProcessClaimMarkedForDeletion(
    cp: ControlPlane, claim: Claim, c: Name, identity: seq<IdentityItem>, env: string, services: Services,
    got: Option<Env>, envs: Listing)
    returns (ok: bool, chosen: Option<nat>, ghost before: World)
    requires cp.Valid() && IsIdle(cp.world, c) && c in cp.world.terminating && Readable(cp.world, services)
    requires claim.target.ByContext? && got.Some? ==> got.value.id == claim.target.id
    modifies cp, claim`bindings, claim`failures
    ensures cp.Valid() && old(cp.trace) <= cp.trace && IsIdle(cp.world, c) && c in cp.world.terminating
    ensures claim.bindings <= old(claim.bindings)
    ensures ok && !(claim.target.ByTag? && envs.Missing?) ==> claim.NothingLeft(got, envs)
    ensures claim.target.ByTag? && envs.Missing? ==> claim.bindings == old(claim.bindings)
    ensures chosen.None? ==> forall i :: 0 <= i < |ListOf(services)| ==> !Suits(identity, env, ListOf(services)[i])
    ensures chosen.Some? ==> FirstSuiting(identity, env, ListOf(services), chosen.value)
    ensures ok && chosen.Some? ==>
      var rs := ListOf(services)[chosen.value];
      && WellFormed(before) && ClaimMay(before, c, FreeOnDelete(rs.name, rs.version))
      && Current(before, rs.name, rs.version) && cp.world == ApplyClaim(before, c, FreeOnDelete(rs.name, rs.version))
      && InState(cp.world, rs.name, Available)
    ensures chosen.None? ==> cp.world == old(cp.world)
    ensures old(cp.failures) <= cp.failures && old(claim.failures) <= claim.failures
    ensures ok <==> cp.failures == old(cp.failures) && claim.failures == old(claim.failures)
                    && claim.Reached(got, envs) && !services.ServicesBroken?
  {
    before := cp.world;
    chosen := MatchForDeletion(identity, env, ListOf(services));
    var deleted := claim.DeleteServiceBindings(got, envs);
    ok := deleted && !services.ServicesBroken?;
    if chosen.Some? {
      var freed;
      freed, before := FreeListed(cp, c, ListOf(services)[chosen.value]);
      ok := ok && freed;
    }
  }

  /** The deletion branch of `Reconcile`. Any error keeps the finalizer: once it is gone, no binding is left in
      the deletion set. The exception is a listing of ClusterEnvironments that is not found, which is taken for
      an empty one: then the finalizer goes and every binding stays. */
  method ReconcileDeleted(
    cp: ControlPlane, claim: Claim, c: Name, identity: seq<IdentityItem>, env: string, services: Services,
    got: Option<Env>, envs: Listing)
    returns (ok: bool)
    requires cp.Valid() && IsIdle(cp.world, c) && c in cp.world.terminating && Readable(cp.world, services)
    requires claim.target.ByContext? && got.Some? ==> got.value.id == claim.target.id
    modifies cp, claim`bindings, claim`finalizer, claim`failures
    ensures cp.Valid() && old(cp.trace) <= cp.trace && IsIdle(cp.world, c) && c in cp.world.terminating
    ensures claim.bindings <= old(claim.bindings)
    ensures old(claim.finalizer) && !claim.finalizer && !(claim.target.ByTag? && envs.Missing?) ==>
              claim.NothingLeft(got, envs)
    ensures claim.target.ByTag? && envs.Missing? ==> claim.bindings == old(claim.bindings)
    ensures old(claim.finalizer) && !claim.finalizer ==> !services.ServicesBroken?
    ensures ok ==> !claim.finalizer
    ensures !old(claim.finalizer) ==> ok && claim.bindings == old(claim.bindings) && cp.world == old(cp.world)
    ensures old(cp.failures) <= cp.failures && old(claim.failures) <= claim.failures
    ensures old(claim.finalizer) ==>
      (ok <==> cp.failures == old(cp.failures) && claim.failures == old(claim.failures)
               && claim.Reached(got, envs) && !services.ServicesBroken?)
  {
    if !claim.finalizer {
      return true;
    }
    var chosen;
    ghost var before;
    ok, chosen, before := ProcessClaimMarkedForDeletion(cp, claim, c, identity, env, services, got, envs);
    if ok {
      ok := claim.RemoveFinalizer();
    }
  }

  /** A whole life with an unchanged list of ClusterEnvironments: any number of pushes, then attempts to delete,
      any of them failing half-way, each with its own listing of services. Once the finalizer is gone, nothing
      that was pushed is left. */
  method Live(
    cp: ControlPlane, claim: Claim, c: Name, identity: seq<IdentityItem>, env: string,
    got: Option<Env>, envs: Listing, pushes: nat, deletions: nat)
    requires cp.Valid() && IsIdle(cp.world, c) && c in cp.world.terminating
    requires claim.target.ByContext? && got.Some? ==> got.value.id == claim.target.id
    requires claim.bindings == {} && claim.finalizer && !(claim.target.ByTag? && envs.Missing?)
    modifies cp, claim`bindings, claim`finalizer, claim`failures
    ensures !claim.finalizer ==> claim.bindings == {}
  {
    ghost var reachable := claim.Reachable(got, envs);
    for k := 0 to pushes
      invariant cp.Valid() && IsIdle(cp.world, c) && c in cp.world.terminating
      invariant forall p :: p in claim.bindings ==> PushedTo(claim.target, reachable, p)
      invariant claim.finalizer
    {
      var pushed := claim.PushToClusterEnvironments(got, envs);
    }
    for k := 0 to deletions
      invariant cp.Valid() && IsIdle(cp.world, c) && c in cp.world.terminating
      invariant forall p :: p in claim.bindings ==> PushedTo(claim.target, reachable, p)
      invariant !claim.finalizer ==> claim.bindings == {}
    {
      var services: Services := *;
      if Readable(cp.world, services) {
        var deleted := ReconcileDeleted(cp, claim, c, identity, env, services, got, envs);
        forall p | p in claim.bindings ensures claim.finalizer {
          UnchangedListIsCovered(claim.target, reachable, p);
        }
      }
    }
  }
}
