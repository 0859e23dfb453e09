/** The reconcile methods of controllers/serviceclaim_controller.go, call by call, over a control plane that
    everybody else keeps changing between the calls. Each remote call is a step of the claim machine, so
    what holds for runs holds here. */
module ClaimReconciler {
  import opened Wrappers
  import opened Runs
  import opened ClaimMachine
  import opened ClaimExclusivity
  import opened ClaimTheorems
  import opened Selection
  import opened Endpoints
  import Slices

  /** What others can do while the worker of `c` is between two calls: objects only get new contents, and
      the worker stays where it is. */
  ghost predicate Meanwhile(w: World, w': World, c: Name) {
    && (forall r :: r in w.services ==> r in w'.services && w.services[r] <= w'.services[r])
    && c in w.claims && c in w'.claims && w.claims[c] <= w'.claims[c]
    && c in w.workers && c in w'.workers && w'.workers[c] == w.workers[c]
    && w'.checked == w.checked && w.terminating <= w'.terminating
  }

  /** The service that the step takes from a claim which relies on it. */
  ghost function Straying(w: World, s: Step): set<Name> {
    if s.OfClaim? && s.act.FreeOnDelete? && !Faithful(w, s, s.act.r) then {s.act.r} else {}
  }

  lemma RunGrowsByStep(tr: seq<World>, s: Step)
    requires IsRun(Initial, AnyNext, tr) && WellFormed(tr[|tr| - 1]) && Enabled(tr[|tr| - 1], s)
    ensures var w' := Apply(tr[|tr| - 1], s);
      IsRun(Initial, AnyNext, tr + [w']) && WellFormed(w') && w'.checked == tr[|tr| - 1].checked
  {
    RunGrows(Initial, AnyNext, tr, Apply(tr[|tr| - 1], s));
    StaysWellFormed(tr[|tr| - 1], s);
  }

  lemma SafeRunGrows(tr: seq<World>, s: Step, r: Name)
    requires IsRun(StartFor(r), NextFor(r), tr) && Inv(tr[|tr| - 1], r) && Enabled(tr[|tr| - 1], s)
    requires r !in Straying(tr[|tr| - 1], s)
    ensures IsRun(StartFor(r), NextFor(r), tr + [Apply(tr[|tr| - 1], s)]) && Inv(Apply(tr[|tr| - 1], s), r)
  {
    var w := tr[|tr| - 1];
    assert FreesByDeletion(w, s, r) ==> s.act.r == r;
    StepKeepsInvExactlyWhen(w, s, r);
    RunGrows(StartFor(r), NextFor(r), tr, Apply(w, s));
  }

  class ControlPlane {
    var world: World
    ghost var trace: seq<World>

    /** The services without HealthCheck that some deletion took from a claim which relied on them. */
    ghost var strayed: set<Name>

    /** The steps that the methods below took; what others did is not in it. */
    ghost var log: seq<Step>

    /** How many calls did not get through, had an error as answer, or conflicted. */
    ghost var failures: nat

    ghost predicate Valid()
      reads this
    {
      && IsRun(Initial, AnyNext, trace) && world == trace[|trace| - 1] && WellFormed(world)
      && forall r :: Safe(r) ==> IsRun(StartFor(r), NextFor(r), trace) && Inv(world, r)
    }

    /** Everything that is proved about services holds for this one. */
    ghost predicate Safe(r: Name)
      reads this
    {
      r !in world.checked && r !in strayed
    }

    /** The world before the latest step. */
    ghost function Before(): World
      reads this
    {
      if |trace| > 1 then trace[|trace| - 2] else world
    }

    constructor (checked: set<Name>)
      ensures Valid() && world.checked == checked && strayed == {} && log == [] && failures == 0
    {
      world := World(map[], map[], map[], map[], {}, checked);
      trace := [World(map[], map[], map[], map[], {}, checked)];
      strayed, log, failures := {}, [], 0;
    }

    method Take(s: Step)
      requires Valid() && Enabled(world, s)
      modifies this
      ensures Valid() && world == Apply(old(world), s) && trace == old(trace) + [world]
      ensures strayed == old(strayed) + Straying(old(world), s)
      ensures log == old(log) + [s] && failures == old(failures)
    {
      forall r | Safe(r) && r !in Straying(world, s)
        ensures IsRun(StartFor(r), NextFor(r), trace + [Apply(world, s)]) && Inv(Apply(world, s), r)
      {
        SafeRunGrows(trace, s, r);
      }
      RunGrowsByStep(trace, s);
      strayed := strayed + Straying(world, s);
      world := Apply(world, s);
      trace := trace + [world];
      log := log + [s];
    }

    /** A call gets its answer, or it counts as failed. */
    method Call() returns (ok: bool)
      requires Valid()
      modifies this`failures
      ensures Valid() && old(failures) <= failures && (ok <==> failures == old(failures))
    {
      ok := *;
      failures := failures + if ok then 0 else 1;
    }

    /** Other workers, controllers and users act. Callers know nothing but this contract, so what they prove holds
        whatever others do within it. */
    method Interfere(c: Name)
      requires Valid() && c in world.workers
      modifies this
      ensures Valid() && old(trace) <= trace && old(strayed) <= strayed && Meanwhile(old(world), world, c)
      ensures log == old(log) && failures == old(failures)
    {
    }

    /** A call that did not get through, or whose answer was an error. */
    method Abandon(c: Name)
      requires Valid() && c in world.workers
      modifies this
      ensures Valid() && old(trace) <= trace && old(strayed) <= strayed && IsIdle(world, c)
      ensures log == old(log) + [OfWorker(c, GiveUp)] && failures == old(failures)
    {
      Take(OfWorker(c, GiveUp));
    }

    method WritePending(c: Name) returns (ok: bool)
      requires Valid() && AtPc(world, c, MarkClaim)
      modifies this
      ensures Valid() && old(trace) <= trace && old(strayed) <= strayed
      ensures old(failures) <= failures && (ok <==> failures == old(failures))
      ensures ok ==>
        && AtPc(world, c, MarkService) && SamePlan(world.workers[c], old(world.workers[c]))
        && log == old(log) + [OfWorker(c, WriteClaim)]
        && world.workers[c].cver == old(world.workers[c].cver) + 1
        && c in world.claims && world.workers[c].cver < |world.claims[c]|
        && world.claims[c][world.workers[c].cver] == ClaimStatus(Pending, Some(world.workers[c].service))
      ensures !ok ==> IsIdle(world, c)
    {
      Interfere(c);
      var reached := Call();
      if !reached {
        Abandon(c);
        return false;
      }
      Take(OfWorker(c, WriteClaim));
      if world.workers[c] == Idle {
        failures := failures + 1;
        return false;
      }
      return true;
    }

    /** `updateServiceClaimStatus` to Pending; the remote copy of the status may fail after the write. */
    method MarkClaimPending(c: Name) returns (ok: bool)
      requires Valid() && AtPc(world, c, MarkClaim)
      modifies this
      ensures Valid() && old(trace) <= trace && old(strayed) <= strayed
      ensures old(failures) <= failures && (ok <==> failures == old(failures))
      ensures ok ==>
        && AtPc(world, c, MarkService) && SamePlan(world.workers[c], old(world.workers[c]))
        && log == old(log) + [OfWorker(c, WriteClaim)]
        && world.workers[c].cver == old(world.workers[c].cver) + 1
        && c in world.claims && world.workers[c].cver < |world.claims[c]|
        && world.claims[c][world.workers[c].cver] == ClaimStatus(Pending, Some(world.workers[c].service))
      ensures !ok ==> IsIdle(world, c)
    {
      var written := WritePending(c);
      if !written {
        return false;
      }
      Interfere(c);
      var mirrored := Call();
      if !mirrored {
        Abandon(c);
        return false;
      }
      return true;
    }

    /** `changeServiceState` to Claimed, with the service as it was read. */
    method MarkServiceClaimed(c: Name) returns (ok: bool)
      requires Valid() && AtPc(world, c, MarkService)
      modifies this
      ensures Valid() && old(trace) <= trace && old(strayed) <= strayed
      ensures old(failures) <= failures && (ok <==> failures == old(failures))
      ensures ok ==>
        && AtPc(world, c, Push) && SamePlan(world.workers[c], old(world.workers[c]))
        && (exists bump :: log == old(log) + [OfWorker(c, WriteService(bump))])
        && InState(world, world.workers[c].service, Claimed)
        && |world.services[world.workers[c].service]| <= world.workers[c].sver + 2
      ensures !ok ==> IsIdle(world, c)
    {
      Interfere(c);
      var reached := Call();
      if !reached {
        Abandon(c);
        return false;
      }
      var bump: bool := *;
      Take(OfWorker(c, WriteService(bump)));
      if world.workers[c] == Idle {
        failures := failures + 1;
        return false;
      }
      return true;
    }

    /** `pushToClusterEnvironments`: it gets everywhere or it fails. */
    method PushToClusterEnvironments(c: Name) returns (ok: bool)
      requires Valid() && AtPc(world, c, Push)
      modifies this
      ensures Valid() && old(trace) <= trace && old(strayed) <= strayed
      ensures old(failures) <= failures && (ok <==> failures == old(failures))
      ensures AtPc(world, c, if ok then Resolve else Rollback)
      ensures SamePlan(world.workers[c], old(world.workers[c])) && log == old(log) + [OfWorker(c, PushEnds(ok))]
    {
      Interfere(c);
      ok := Call();
      Take(OfWorker(c, PushEnds(ok)));
    }

    /** `changeServiceState` back to Available, with the service as it was read. */
    method RollBackService(c: Name)
      requires Valid() && AtPc(world, c, Rollback)
      modifies this
      ensures Valid() && old(trace) <= trace && old(strayed) <= strayed && IsIdle(world, c)
      ensures log == old(log) + [OfWorker(c, WriteRollback)] && failures == old(failures)
      ensures Safe(old(world.workers[c]).service) ==>
                RolledBack(Before(), world, c, old(world.workers[c]))
    {
      Interfere(c);
      WriteBack(c);
    }

    method WriteBack(c: Name)
      requires Valid() && AtPc(world, c, Rollback)
      modifies this
      ensures Valid() && old(trace) <= trace && old(strayed) <= strayed && IsIdle(world, c) && Before() == old(world)
      ensures log == old(log) + [OfWorker(c, WriteRollback)] && failures == old(failures)
      ensures Safe(old(world.workers[c]).service) ==> RolledBack(old(world), world, c, old(world.workers[c]))
    {
      ghost var r := world.workers[c].service;
      if Safe(r) {
        RollbackOutcome(world, c, r);
      }
      Take(OfWorker(c, WriteRollback));
    }

    /** `updateServiceClaimStatus` to Resolved. */
    method MarkClaimResolved(c: Name) returns (ok: bool)
      requires Valid() && AtPc(world, c, Resolve)
      modifies this
      ensures Valid() && old(trace) <= trace && old(strayed) <= strayed && IsIdle(world, c)
      ensures old(failures) <= failures && (ok <==> failures == old(failures))
      ensures ok ==> log == old(log) + [OfWorker(c, WriteResolved)]
      ensures var k := old(world.workers[c]);
              ok ==> ResolvedTo(world, c, k.service) && |world.claims[c]| == k.cver + 2
                     && (Safe(k.service) ==> Holds(world, c, k.service))
    {
      Interfere(c);
      var reached := Call();
      if !reached {
        Abandon(c);
        return false;
      }
      ok := WriteResolution(c);
    }

    /** The write may conflict; and the remote copy of the status may fail after it. */
    method WriteResolution(c: Name) returns (ok: bool)
      requires Valid() && AtPc(world, c, Resolve)
      modifies this
      ensures Valid() && old(trace) <= trace && old(strayed) <= strayed && IsIdle(world, c)
      ensures old(failures) <= failures && (ok <==> failures == old(failures))
      ensures log == old(log) + [OfWorker(c, WriteResolved)]
      ensures var k := old(world.workers[c]);
              ok ==> ResolvedTo(world, c, k.service) && |world.claims[c]| == k.cver + 2
                     && (Safe(k.service) ==> Holds(world, c, k.service))
    {
      var k := world.workers[c];
      if Safe(k.service) {
        assert Good(world, c, k.service);
      }
      var mirrored: bool := *;
      ok := ClaimCurrent(world, c, k.cver) && mirrored;
      Take(OfWorker(c, WriteResolved));
      failures := failures + if ok then 0 else 1;
    }
  }

  predicate SamePlan(k: Worker, k': Worker) {
    && k.Working? && k'.Working?
    && k.path == k'.path && k.service == k'.service && k.sver == k'.sver
  }

  /** How an attempt to resolve a claim ends. */
  datatype Outcome =
    | Failed
    | Crashed
    | NoMatch
    | KeysMissing
    | PushFailed(r: Name)
    | Done(r: Name)

  /** The secret has what was collected, overridden by the identity, and passed the count check; if the names of
      the endpoint are distinct, that means that the keys are distinct and each of them is there. */
  ghost predicate Complete(
    items: seq<SedItem>, fetched: seq<Option<Data>>, identity: seq<IdentityItem>, keys: seq<string>, data: Data)
    requires |items| == |fetched|
  {
    var (collected, count) := Extract(items, fetched, keys, map[], |items|);
    && data == Overridden(collected, identity, |identity|) && |keys| <= count
    && (DistinctNames(items) ==> Slices.Distinct(keys) && forall k :: k in keys ==> k in data)
  }

  /** A listed service is some past content of that service. */
  predicate ReadFrom(w: World, rs: RegisteredService) {
    Known(w, rs.name, rs.version) && w.services[rs.name][rs.version] == rs.state
  }

  method ReportPendingStatus(cp: ControlPlane, c: Name, cver: nat)
    requires cp.Valid() && IsIdle(cp.world, c)
    requires cver < |cp.world.claims[c]| && cp.world.claims[c][cver].phase == Pending
    modifies cp
    ensures cp.Valid() && old(cp.trace) <= cp.trace && old(cp.strayed) <= cp.strayed && IsIdle(cp.world, c)
    ensures old(cp.failures) <= cp.failures
    ensures cp.failures == old(cp.failures) ==>
      && cp.log == old(cp.log) + [OfClaim(c, ReportPending(cver))]
      && c in cp.world.claims && |cp.world.claims[c]| == cver + 2
      && cp.world.claims[c][cver + 1] == old(cp.world.claims[c])[cver]
  {
    cp.Interfere(c);
    var reached := cp.Call();
    if reached {
      var current := ClaimCurrent(cp.world, c, cver);
      cp.Take(OfClaim(c, ReportPending(cver)));
      cp.failures := cp.failures + if current then 0 else 1;
    }
  }

  method MarkBoth(cp: ControlPlane, c: Name) returns (ok: bool)
    requires cp.Valid() && AtPc(cp.world, c, MarkClaim)
    modifies cp
    ensures cp.Valid() && old(cp.trace) <= cp.trace && old(cp.strayed) <= cp.strayed
    ensures old(cp.failures) <= cp.failures && (ok <==> cp.failures == old(cp.failures))
    ensures ok ==>
      && AtPc(cp.world, c, Push) && SamePlan(cp.world.workers[c], old(cp.world.workers[c]))
      && exists bump :: cp.log == old(cp.log) + [OfWorker(c, WriteClaim), OfWorker(c, WriteService(bump))]
    ensures !ok ==> IsIdle(cp.world, c)
  {
    ok := cp.MarkClaimPending(c);
    if ok {
      ok := cp.MarkServiceClaimed(c);
      if ok {
        ghost var bump :| cp.log == old(cp.log) + [OfWorker(c, WriteClaim)] + [OfWorker(c, WriteService(bump))];
        assert cp.log == old(cp.log) + [OfWorker(c, WriteClaim), OfWorker(c, WriteService(bump))];
      }
    }
  }

  /** The calls of an attempt whose writes landed: the claim is marked, then the service, the binding is pushed,
      and the claim is resolved; or the push fails and the service is written back. */
  ghost predicate Attempts(c: Name, pushed: bool, log: seq<Step>, log': seq<Step>) {
    exists bump ::
      log' == log + [OfWorker(c, WriteClaim), OfWorker(c, WriteService(bump)), OfWorker(c, PushEnds(pushed)),
                     OfWorker(c, if pushed then WriteResolved else WriteRollback)]
  }

  /** Marks claim and service, pushes the binding and resolves the claim; shared by both paths. */
  method RunAttempt(cp: ControlPlane, c: Name) returns (outcome: Outcome)
    requires cp.Valid() && AtPc(cp.world, c, MarkClaim)
    modifies cp
    ensures cp.Valid() && old(cp.trace) <= cp.trace && old(cp.strayed) <= cp.strayed && IsIdle(cp.world, c)
    ensures outcome.Failed? || outcome.Done? || outcome.PushFailed?
    ensures old(cp.failures) <= cp.failures && (outcome.Done? <==> cp.failures == old(cp.failures))
    ensures outcome.Done? || outcome.PushFailed? ==> Attempts(c, outcome.Done?, old(cp.log), cp.log)
    ensures var k := old(cp.world.workers[c]);
      && (outcome.Done? ==> outcome.r == k.service && ResolvedTo(cp.world, c, k.service)
                            && (cp.Safe(k.service) ==> Holds(cp.world, c, k.service)))
      && (outcome.PushFailed? ==>
            && outcome.r == k.service
            && (cp.Safe(k.service) ==> RolledBack(cp.Before(), cp.world, c, k)))
  {
    var r := cp.world.workers[c].service;
    var marked := MarkBoth(cp, c);
    if !marked {
      return Failed;
    }
    ghost var bump :| cp.log == old(cp.log) + [OfWorker(c, WriteClaim), OfWorker(c, WriteService(bump))];
    var pushed := cp.PushToClusterEnvironments(c);
    if !pushed {
      cp.RollBackService(c);
      return PushFailed(r);
    }
    var resolved := cp.MarkClaimResolved(c);
    return if resolved then Done(r) else Failed;
  }

  /** The worker began an attempt with this plan, on the version that was read, as the first thing it did; and if
      the attempt got to its end, these were its calls. */
  ghost predicate Attempted(
    outcome: Outcome, was: World, now: World, log: seq<Step>, log': seq<Step>, c: Name, path: Path,
    rs: RegisteredService, cver: nat)
  {
    && now == SetWorker(was, c, Working(MarkClaim, path, rs.name, rs.version, cver))
    && (outcome.Done? || outcome.PushFailed? ==>
          Attempts(c, outcome.Done?, log + [OfWorker(c, Begin(path, rs.name, rs.version, cver))], log'))
  }

  /** An attempt from its beginning. */
  method Attempt(cp: ControlPlane, c: Name, path: Path, rs: RegisteredService, cver: nat) returns (outcome: Outcome)
    requires cp.Valid() && MayBegin(cp.world, c, path, rs.name, rs.version, cver)
    modifies cp
    ensures cp.Valid() && old(cp.trace) < cp.trace && old(cp.strayed) <= cp.strayed && IsIdle(cp.world, c)
    ensures Attempted(outcome, old(cp.world), cp.trace[|old(cp.trace)|], old(cp.log), cp.log, c, path, rs, cver)
    ensures old(cp.failures) <= cp.failures
    ensures if cp.failures > old(cp.failures) then outcome == Failed || outcome == PushFailed(rs.name)
            else outcome == Done(rs.name)
    ensures outcome.Done? ==> ResolvedTo(cp.world, c, rs.name) && (cp.Safe(rs.name) ==> Holds(cp.world, c, rs.name))
    ensures outcome.PushFailed? && cp.Safe(rs.name) ==>
      RolledBack(cp.Before(), cp.world, c, Working(MarkClaim, path, rs.name, rs.version, cver))
  {
    cp.Take(OfWorker(c, Begin(path, rs.name, rs.version, cver)));
    outcome := RunAttempt(cp, c);
  }

  /** Collects the values of the requested keys, checks their number and puts the identity in; `None` is a
      crash, and false that keys are missing. */
  method PrepareSecret(
    identity: seq<IdentityItem>, keys: seq<string>, items: seq<SedItem>, fetched: seq<Option<Data>>, secret: Secret)
    returns (r: Option<bool>)
    requires |items| == |fetched| && secret.stringData == map[]
    modifies secret
    ensures r.None? <==> exists j :: 0 <= j < |items| && items[j].value == "" && items[j].fromSecret.None?
    ensures r.Some? ==> (r.value <==> |keys| <= Extract(items, fetched, keys, map[], |items|).1)
    ensures r == Some(true) ==> Complete(items, fetched, identity, keys, secret.stringData)
  {
    var count := ExtractServiceEndpointDefinition(items, fetched, keys, secret);
    if count.None? {
      return None;
    }
    if |keys| > count.value {
      return Some(false);
    }
    OverrideWithIdentity(identity, secret);
    if DistinctNames(items) {
      CountCheckMeansComplete(items, fetched, keys, identity);
    }
    return Some(true);
  }

  /** How `processServiceClaim` ends for the service it has chosen, given whether a call failed on the way. */
  ghost predicate EndsFor(
    outcome: Outcome, rs: RegisteredService, fetched: seq<Option<Data>>, keys: seq<string>, failed: bool)
    requires |fetched| == |rs.endpoints|
  {
    if exists j :: 0 <= j < |rs.endpoints| && rs.endpoints[j].value == "" && rs.endpoints[j].fromSecret.None? then
      outcome == Crashed
    else if |keys| > Extract(rs.endpoints, fetched, keys, map[], |rs.endpoints|).1 then outcome == KeysMissing
    else if failed then outcome == Failed || outcome == PushFailed(rs.name)
    else outcome == Done(rs.name)
  }

  /** The rest of `processServiceClaim` for the service it has chosen. */
  method ProcessChosen(
    cp: ControlPlane, c: Name, cver: nat, identity: seq<IdentityItem>, keys: seq<string>,
    rs: RegisteredService, fetched: seq<Option<Data>>, secret: Secret)
    returns (outcome: Outcome)
    requires cp.Valid() && MayBegin(cp.world, c, Fresh, rs.name, rs.version, cver)
    requires |fetched| == |rs.endpoints| && secret.stringData == map[]
    modifies cp, secret
    ensures cp.Valid() && IsIdle(cp.world, c) && old(cp.trace) <= cp.trace && old(cp.strayed) <= cp.strayed
    ensures old(cp.failures) <= cp.failures
    ensures EndsFor(outcome, rs, fetched, keys, cp.failures > old(cp.failures))
    ensures outcome.KeysMissing? ==>
      cp.failures > old(cp.failures) || cp.log == old(cp.log) + [OfClaim(c, ReportPending(cver))]
    ensures outcome.Crashed? ==> cp.world == old(cp.world)
    ensures outcome.Failed? || outcome.Done? || outcome.PushFailed? ==>
      && old(cp.trace) < cp.trace
      && Attempted(outcome, old(cp.world), cp.trace[|old(cp.trace)|], old(cp.log), cp.log, c, Fresh, rs, cver)
      && Complete(rs.endpoints, fetched, identity, keys, secret.stringData)
    ensures outcome.Done? ==> ResolvedTo(cp.world, c, rs.name) && (cp.Safe(rs.name) ==> Holds(cp.world, c, rs.name))
    ensures outcome.PushFailed? && cp.Safe(rs.name) ==> Leaked(cp.world, c, rs.name)
  {
    var prepared := PrepareSecret(identity, keys, rs.endpoints, fetched, secret);
    if prepared.None? {
      return Crashed;
    }
    if !prepared.value {
      ReportPendingStatus(cp, c, cver);
      return KeysMissing;
    }
    outcome := Attempt(cp, c, Fresh, rs, cver);
  }

  /** `processServiceClaim`. `rsl` is the listing and `fetched[i]` what fetching the secrets of service `i`
      gives; `env` is absent when the ClusterEnvironment of the claim could not be read. When the method
      ends in `Done`, the claim is resolved to the first selectable service, which is held for it, and the
      pushed secret is complete. When the push failed, the service is lost. */
  method ProcessServiceClaim(
    cp: ControlPlane, c: Name, cver: nat, identity: seq<IdentityItem>, keys: seq<string>, env: Option<string>,
    rsl: seq<RegisteredService>, fetched: seq<seq<Option<Data>>>)
    returns (outcome: Outcome, secret: Secret)
    requires cp.Valid() && IsIdle(cp.world, c)
    requires cver < |cp.world.claims[c]| && cp.world.claims[c][cver].phase == Pending
    requires c in cp.world.terminating ==> !ClaimCurrent(cp.world, c, cver)
    requires forall i :: 0 <= i < |rsl| ==> ReadFrom(cp.world, rsl[i])
    requires |fetched| == |rsl| && forall i :: 0 <= i < |rsl| ==> |fetched[i]| == |rsl[i].endpoints|
    modifies cp
    ensures fresh(secret) && cp.Valid() && IsIdle(cp.world, c)
    ensures old(cp.trace) <= cp.trace && old(cp.strayed) <= cp.strayed
    ensures old(cp.failures) <= cp.failures
    ensures env.None? ==> outcome == Failed && cp.world == old(cp.world)
    ensures env.Some? ==>
      && (outcome.NoMatch? <==> forall i :: 0 <= i < |rsl| ==> !Selectable(identity, env.value, rsl[i]))
      && forall i: nat :: FirstSelectable(identity, env.value, rsl, i) ==>
           EndsFor(outcome, rsl[i], fetched[i], keys, cp.failures > old(cp.failures))
    ensures outcome.NoMatch? || outcome.KeysMissing? ==>
      cp.failures > old(cp.failures) || cp.log == old(cp.log) + [OfClaim(c, ReportPending(cver))]
    ensures outcome.Crashed? ==> cp.world == old(cp.world)
    ensures env.Some? && (outcome.Failed? || outcome.Done? || outcome.PushFailed?) ==> exists i: nat ::
      && FirstSelectable(identity, env.value, rsl, i)
      && old(cp.trace) < cp.trace
      && Attempted(outcome, old(cp.world), cp.trace[|old(cp.trace)|], old(cp.log), cp.log, c, Fresh, rsl[i], cver)
      && Complete(rsl[i].endpoints, fetched[i], identity, keys, secret.stringData)
    ensures outcome.Done? ==> ResolvedTo(cp.world, c, outcome.r)
                              && (cp.Safe(outcome.r) ==> Holds(cp.world, c, outcome.r))
    ensures outcome.PushFailed? && cp.Safe(outcome.r) ==> Leaked(cp.world, c, outcome.r)
  {
    secret := new Secret();
    if env.None? {
      return Failed, secret;
    }
    var chosen := SelectService(identity, env.value, rsl);
    if chosen.None? {
      ReportPendingStatus(cp, c, cver);
      return NoMatch, secret;
    }
    var i := chosen.value;
    outcome := ProcessChosen(cp, c, cver, identity, keys, rsl[i], fetched[i], secret);
  }

  /** `processResolvedServiceClaim`, for a claim that was read as resolved to `rs.name`; `got` is the service
      as read, absent when the read failed. Unlike the path above it does not look at the count. When the
      push fails, the service ends up Available and unowned if nobody else wrote it since it was read, and lost
      otherwise. */
  method ProcessResolvedServiceClaim(
    cp: ControlPlane, c: Name, cver: nat, identity: seq<IdentityItem>, keys: seq<string>,
    got: Option<RegisteredService>, fetched: seq<Option<Data>>)
    returns (outcome: Outcome, secret: Secret)
    requires cp.Valid() && IsIdle(cp.world, c) && cver < |cp.world.claims[c]|
    requires c in cp.world.terminating ==> !ClaimCurrent(cp.world, c, cver)
    requires got.Some? ==> ReadFrom(cp.world, got.value) && |fetched| == |got.value.endpoints|
    requires got.Some? ==> cp.world.claims[c][cver] == ClaimStatus(Resolved, Some(got.value.name))
    modifies cp
    ensures fresh(secret) && cp.Valid() && IsIdle(cp.world, c)
    ensures old(cp.trace) <= cp.trace && old(cp.strayed) <= cp.strayed
    ensures old(cp.failures) <= cp.failures
    ensures got.None? ==> outcome == Failed && cp.world == old(cp.world)
    ensures got.Some? ==>
      var rs, items := got.value, got.value.endpoints;
      if exists j :: 0 <= j < |items| && items[j].value == "" && items[j].fromSecret.None? then
        outcome == Crashed && cp.world == old(cp.world)
      else
        && old(cp.trace) < cp.trace
        && Attempted(outcome, old(cp.world), cp.trace[|old(cp.trace)|], old(cp.log), cp.log, c, Held, rs, cver)
        && if cp.failures > old(cp.failures) then outcome == Failed || outcome == PushFailed(rs.name)
           else outcome == Done(rs.name)
    ensures outcome.Done? || outcome.PushFailed? ==>
      && got.Some? && got.value.name == outcome.r
      && var data := Extract(got.value.endpoints, fetched, keys, map[], |got.value.endpoints|).0;
         secret.stringData == Overridden(data, identity, |identity|)
    ensures outcome.Done? ==> ResolvedTo(cp.world, c, outcome.r)
                              && (cp.Safe(outcome.r) ==> Holds(cp.world, c, outcome.r))
    ensures outcome.PushFailed? && cp.Safe(outcome.r) ==>
      RolledBack(cp.Before(), cp.world, c, Working(MarkClaim, Held, outcome.r, got.value.version, cver))
  {
    secret := new Secret();
    if got.None? {
      return Failed, secret;
    }
    var rs := got.value;
    var count := ExtractServiceEndpointDefinition(rs.endpoints, fetched, keys, secret);
    if count.None? {
      return Crashed, secret;
    }
    OverrideWithIdentity(identity, secret);
    outcome := Attempt(cp, c, Held, rs, cver);
  }
}
