/** The methods that keep the catalogs, call by call (controllers/registeredservice_controller.go and
    CreateServiceCatalog of controllers/clusterenvironment_controller.go). Each remote call is a step of the
    catalog machine. */
module CatalogReconciler {
  import opened Wrappers
  import opened Runs
  import opened CatalogMachine
  import opened CatalogIndex
  import Slices
  import EnvTag
  import CM = ClaimMachine

  // -- loops over what was read ---------------------------------------------------------------------------

  /** The index of the first entry of that name, or -1. */
  method ServiceInCatalog(es: seq<Entry>, n: Name) returns (i: int)
    ensures i == -1 <==> !Lists(es, n)
    ensures i != -1 ==> 0 <= i < |es| && es[i].name == n && Without(es, n) == es[..i] + es[i + 1..]
  {
    for k := 0 to |es|
      invariant forall j :: 0 <= j < k ==> es[j].name != n
    {
      if es[k].name == n {
        WithoutAt(es, n, k);
        return k;
      }
    }
    return -1;
  }

  lemma {:induction false} WithoutAt(es: seq<Entry>, n: Name, k: nat)
    requires k < |es| && es[k].name == n && forall j :: 0 <= j < k ==> es[j].name != n
    ensures Without(es, n) == es[..k] + es[k + 1..]
  {
    if k > 0 {
      WithoutAt(es[1..], n, k - 1);
      assert es[..k] == [es[0]] + es[1..][..k - 1];
    }
  }

  /** The entries of a new catalog: the loop of `CreateServiceCatalog`. */
  method EntriesFromScratch(listing: map<Name, Svc>, order: seq<Name>, c: Name) returns (scs: seq<Entry>)
    requires forall n :: n in order ==> n in listing
    ensures scs == FromScratch(listing, order, c)
  {
    scs := [];
    for i := 0 to |order|
      invariant scs == FromScratch(listing, order[..i], c)
    {
      assert order[..i + 1][..i] == order[..i];
      assert order[i] in order;
      var rs := listing[order[i]];
      var matches := rs.constraints.None?;
      if !matches {
        matches := EnvTag.Match(c, rs.constraints.value);
      }
      if rs.state == CM.Available && matches {
        scs := scs + [Entry(order[i], rs.content)];
      }
    }
    assert order[..|order|] == order;
  }

  datatype Condition = Complete | JobFailed | OtherCondition
  datatype Job = Job(owners: seq<string>, conditions: seq<Condition>)

  /** The first of the conditions that are true and decide is this one. */
  ghost predicate Decides(cs: seq<Condition>, verdict: Condition) {
    exists k :: 0 <= k < |cs| && cs[k] == verdict && forall l :: 0 <= l < k ==> cs[l] == OtherCondition
  }

  ghost predicate SomeJob(jobs: seq<Job>, owner: string, verdict: Condition) {
    exists j :: j in jobs && owner in j.owners && Decides(j.conditions, verdict)
  }

  lemma SomeJobGrows(jobs: seq<Job>, i: nat, owner: string, verdict: Condition)
    requires i < |jobs|
    ensures SomeJob(jobs[..i + 1], owner, verdict) <==>
            SomeJob(jobs[..i], owner, verdict) || (owner in jobs[i].owners && Decides(jobs[i].conditions, verdict))
  {
  }

  method JobVerdict(cs: seq<Condition>) returns (v: Condition)
    ensures forall w :: w != OtherCondition ==> (v == w <==> Decides(cs, w))
  {
    for k := 0 to |cs|
      invariant forall l :: 0 <= l < k ==> cs[l] == OtherCondition
    {
      if cs[k] != OtherCondition {
        return cs[k];
      }
    }
    return OtherCondition;
  }

  /** The state of a service whose HealthCheck runs as `cronjob`, if that exists yet. */
  ghost predicate HealthState(state: CM.SvcState, cronjob: Option<string>, jobs: seq<Job>, st: CM.SvcState) {
    if cronjob.None? then st == CM.Unknown
    else if SomeJob(jobs, cronjob.value, Complete) then
      st == if state == CM.Claimed then CM.Claimed else CM.Available
    else if SomeJob(jobs, cronjob.value, JobFailed) then st == CM.Unreachable
    else st == CM.Unknown
  }

  /** The state that a reconcile is to give to the service that it read. */
  ghost predicate StateFor(seen: Svc, cronjob: Option<string>, jobs: seq<Job>, st: CM.SvcState) {
    if seen.checked then HealthState(seen.state, cronjob, jobs, st)
    else st == if seen.state == CM.Claimed then CM.Claimed else CM.Available
  }

  /** The service was written with this state, and with nothing else changed. */
  predicate Written(w: World, n: Name, seen: Svc, st: CM.SvcState) {
    && n in w.services && w.services[n].state == st && w.services[n].constraints == seen.constraints
    && w.services[n].checked == seen.checked && w.services[n].content == seen.content
  }

  /** `handleHealthcheck`: the new state of a checked service. `cronjob` is absent when it does not exist yet.
      A completed job outweighs failed ones, whatever their order, and keeps a claimed service Claimed; a
      claimed service without a completed job is demoted. */
  method HandleHealthcheck(state: CM.SvcState, cronjob: Option<string>, jobs: seq<Job>) returns (st: CM.SvcState)
    ensures st == CM.Claimed <==>
            cronjob.Some? && state == CM.Claimed && SomeJob(jobs, cronjob.value, Complete)
    ensures st == CM.Available <==>
            cronjob.Some? && state != CM.Claimed && SomeJob(jobs, cronjob.value, Complete)
    ensures st == CM.Unreachable <==>
            cronjob.Some? && SomeJob(jobs, cronjob.value, JobFailed) && !SomeJob(jobs, cronjob.value, Complete)
    ensures HealthState(state, cronjob, jobs, st)
  {
    if cronjob.None? {
      return CM.Unknown;
    }
    var completed, failed := false, false;
    for i := 0 to |jobs|
      invariant completed <==> SomeJob(jobs[..i], cronjob.value, Complete)
      invariant failed <==> SomeJob(jobs[..i], cronjob.value, JobFailed)
    {
      SomeJobGrows(jobs, i, cronjob.value, Complete);
      SomeJobGrows(jobs, i, cronjob.value, JobFailed);
      if cronjob.value in jobs[i].owners {
        var v := JobVerdict(jobs[i].conditions);
        if v == Complete {
          completed := true;
        } else if v == JobFailed {
          failed := true;
        }
      }
    }
    assert jobs[..|jobs|] == jobs;
    if completed {
      return if state == CM.Claimed then CM.Claimed else CM.Available;
    }
    return if failed then CM.Unreachable else CM.Unknown;
  }

  // -- the calls ------------------------------------------------------------------------------------------

  class ControlPlane {
    var world: World
    ghost var trace: seq<World>

    /** No race was lost so far. */
    ghost var timely: bool

    /** How many calls did not get through, had an error as answer, or conflicted. */
    ghost var failures: nat

    ghost predicate Valid()
      reads this`world, this`trace, this`timely
    {
      && IsRun(Initial, AnyNext, trace) && world == trace[|trace| - 1] && Sane(world)
      && (timely ==> IsRun(Initial, Next, trace) && Inv(world))
    }

    /** The state moves on: time goes by, and a race that is lost stays lost. */
    twostate predicate Later()
      reads this
    {
      Valid() && old(trace) <= trace && (timely ==> old(timely)) && old(failures) <= failures
    }

    constructor ()
      ensures Valid() && timely && failures == 0
    {
      world := World(map[], map[], {}, map[], map[], 0);
      trace := [World(map[], map[], {}, map[], map[], 0)];
      timely, failures := true, 0;
    }

    /** A call gets its answer, or it counts as failed. */
    method Call() returns (ok: bool)
      requires Valid()
      modifies this`failures
      ensures Valid() && old(failures) <= failures && (ok <==> failures == old(failures))
    {
      ok := *;
      failures := failures + if ok then 0 else 1;
    }

    method Take(s: Step)
      requires Valid() && Enabled(world, s)
      modifies this
      ensures Later() && world == Apply(old(world), s)
      ensures (timely <==> old(timely) && Timely(old(world), s)) && failures == old(failures)
    {
      RunGrows(Initial, AnyNext, trace, Apply(world, s));
      KeepSane(world, s);
      if timely && Timely(world, s) {
        StepKeepsInvExactlyWhen(world, s);
        RunGrows(Initial, Next, trace, Apply(world, s));
      }
      timely := timely && Timely(world, s);
      world := Apply(world, s);
      trace := trace + [world];
    }

    /** Other reconciles, controllers and users act; the reconcile of `n` stays where it is. Callers know nothing
        but this contract, so what they prove holds whatever others do within it. */
    method Interfere(n: Name)
      requires Valid() && n in world.flights
      modifies this
      ensures Later()
      ensures n in world.flights && world.flights[n] == old(world.flights[n]) && failures == old(failures)
    {
    }

    /** Writes the edited list of catalog `c`, as it was listed, back. */
    method Update(n: Name, c: Name, entries: seq<Entry>) returns (ok: bool)
      requires Valid() && n in world.flights && c in world.flights[n].todo
      requires var f := world.flights[n];
        && Wants(f, c) != Lists(f.todo[c].entries, n)
        && entries == Edited(f.todo[c].entries, n, Wants(f, c), ContentOf(f))
      modifies this
      ensures Later() && (ok <==> failures == old(failures))
      ensures Visited(old(world), world, n, c, ok)
      ensures ok ==> c in world.catalogs && world.catalogs[c].entries == entries
    {
      var applied: bool := *;
      var answered: bool := *;
      var version := world.flights[n].todo[c].version;
      ok := applied && answered && c in world.catalogs && world.catalogs[c].version == version;
      Take(Visit(n, c, applied, answered));
      failures := failures + if ok then 0 else 1;
    }

    method AddServiceToCatalog(n: Name, c: Name) returns (ok: bool)
      requires Valid() && n in world.flights && c in world.flights[n].todo && Wants(world.flights[n], c)
      modifies this
      ensures Later() && Visited(old(world), world, n, c, ok) && (ok <==> failures == old(failures))
      ensures var f := old(world.flights[n]);
        ok && !Lists(f.todo[c].entries, n) ==>
          c in world.catalogs && world.catalogs[c].entries == f.todo[c].entries + [Entry(n, f.seen.value.content)]
    {
      var sc := world.flights[n].todo[c];
      var scs := Entry(n, world.flights[n].seen.value.content);
      var i := ServiceInCatalog(sc.entries, n);
      if i == -1 {
        Interfere(n);
        ok := Update(n, c, sc.entries + [scs]);
      } else {
        Take(Visit(n, c, true, true));
        ok := true;
      }
    }

    method RemoveServiceFromCatalog(n: Name, c: Name) returns (ok: bool)
      requires Valid() && n in world.flights && c in world.flights[n].todo && !Wants(world.flights[n], c)
      modifies this
      ensures Later() && Visited(old(world), world, n, c, ok) && (ok <==> failures == old(failures))
      ensures var f := old(world.flights[n]);
        ok && Lists(f.todo[c].entries, n) ==>
          c in world.catalogs && world.catalogs[c].entries == Without(f.todo[c].entries, n)
    {
      var sc := world.flights[n].todo[c];
      var i := ServiceInCatalog(sc.entries, n);
      if i == -1 {
        Take(Visit(n, c, true, true));
        return true;
      }
      Interfere(n);
      ok := RemoveEntry(n, c, sc.entries[..i] + sc.entries[i + 1..]);
    }

    /** The claims of the service are listed before its entry goes. */
    method RemoveEntry(n: Name, c: Name, entries: seq<Entry>) returns (ok: bool)
      requires Valid() && n in world.flights && c in world.flights[n].todo && !Wants(world.flights[n], c)
      requires var es := world.flights[n].todo[c].entries; Lists(es, n) && entries == Without(es, n)
      modifies this
      ensures Later() && Visited(old(world), world, n, c, ok) && (ok <==> failures == old(failures))
      ensures ok ==> c in world.catalogs && world.catalogs[c].entries == entries
    {
      var claimsListed := Call();
      if !claimsListed {
        Take(Visit(n, c, false, true));
        return false;
      }
      ok := Update(n, c, entries);
    }

    method ReconcileCatalog(n: Name, c: Name) returns (ok: bool)
      requires Valid() && n in world.flights && c in world.flights[n].todo
      modifies this
      ensures Later() && Visited(old(world), world, n, c, ok) && (ok <==> failures == old(failures))
    {
      var g := world.flights[n];
      var wanted := false;
      if g.seen.Some? && g.computed == CM.Available {
        wanted := EnvTag.Match(c, ConstraintsOf(g.seen.value));
      }
      if wanted {
        ok := AddServiceToCatalog(n, c);
      } else {
        ok := RemoveServiceFromCatalog(n, c);
      }
    }

    /** `reconcileCatalogs` when the service is Available, `removeServiceFromCatalogs` otherwise: the catalogs
        are visited one by one, and a failure does not keep the others from being visited. */
    method ReconcileCatalogs(n: Name, items: seq<Name>) returns (ok: bool)
      requires Valid() && n in world.flights && !world.flights[n].failed
      requires Slices.Elements(items) == world.flights[n].todo.Keys && Slices.Distinct(items)
      modifies this
      ensures Later() && n in world.flights && (ok <==> failures == old(failures))
      ensures world.flights[n] == old(world.flights[n]).(todo := map[], failed := !ok)
    {
      ok := true;
      ghost var f := world.flights[n];
      for i := 0 to |items|
        invariant Later() && n in world.flights && (ok <==> failures == old(failures))
        invariant world.flights[n] == f.(todo := f.todo - Slices.Elements(items[..i]), failed := !ok)
      {
        assert Slices.Elements(items[..i + 1]) == Slices.Elements(items[..i]) + {items[i]};
        assert items[i] in Slices.Elements(items) && items[i] !in items[..i];
        var done := ReconcileCatalog(n, items[i]);
        ok := ok && done;
      }
      assert items[..|items|] == items;
    }

    /** The state that is computed for a service before its catalogs are visited. */
    method ComputeState(seen: Option<Svc>, cronjob: Option<string>, jobs: seq<Job>) returns (st: CM.SvcState)
      ensures MayCompute(seen, st) && (seen.Some? ==> StateFor(seen.value, cronjob, jobs, st))
    {
      st := CM.Available;
      if seen.Some? {
        if seen.value.checked {
          st := HandleHealthcheck(seen.value.state, cronjob, jobs);
        } else if seen.value.state == CM.Claimed {
          st := CM.Claimed;
        }
      }
    }

    method BeginReconcile(n: Name, seen: Option<Svc>, computed: CM.SvcState, listed: map<Name, Catalog>)
      requires Valid() && n in world.dirty && n !in world.flights && ServiceRead(world, n, seen)
      requires MayCompute(seen, computed) && forall c :: c in listed ==> CatalogRead(world, c, listed[c])
      modifies this
      ensures Later() && failures == old(failures)
      ensures n in world.flights && world.flights[n] == Flight(seen, computed, listed, false)
      ensures n in world.dirty <==> seen != if n in old(world).services then Some(old(world).services[n]) else None
    {
      Take(Begin(n, seen, computed, listed));
    }

    /** `Reconcile` of the RegisteredService `n`. `seen` is what fetching it gave (absent: not found), `cronjob`
        and `jobs` what its health check left, `listed` the catalogs in the order `items`. However it ends, and
        as long as no race was lost, the service is either queued again or listed in exactly the catalogs where
        it belongs; and an error always queues it again. If no call fails, the service gets the computed state. */
    method Reconcile(
      n: Name, seen: Option<Svc>, cronjob: Option<string>, jobs: seq<Job>, listed: map<Name, Catalog>, items: seq<Name>)
      returns (ok: bool)
      requires Valid() && n in world.dirty && n !in world.flights && ServiceRead(world, n, seen)
      requires forall c :: c in listed ==> CatalogRead(world, c, listed[c])
      requires Slices.Elements(items) == listed.Keys && Slices.Distinct(items)
      modifies this
      ensures Later()
      ensures timely ==> n in world.dirty || Indexed(world, n)
      ensures !ok ==> n in world.dirty
      ensures ok <==> failures == old(failures)
      ensures ok && seen.Some? ==> n in world.services && Written(world, n, seen.value, world.services[n].state)
                                   && StateFor(seen.value, cronjob, jobs, world.services[n].state)
    {
      var fetched := Call();
      if !fetched {
        return false;
      }
      var computed := ComputeState(seen, cronjob, jobs);
      BeginReconcile(n, seen, computed, listed);
      ok := RunReconcile(n, items);
    }

    /** The part after the state is computed. */
    method RunReconcile(n: Name, items: seq<Name>) returns (ok: bool)
      requires Valid() && n in world.flights && !world.flights[n].failed
      requires Slices.Elements(items) == world.flights[n].todo.Keys && Slices.Distinct(items)
      modifies this
      ensures Later()
      ensures timely ==> n in world.dirty || Indexed(world, n)
      ensures !ok ==> n in world.dirty
      ensures ok <==> failures == old(failures)
      ensures var f := old(world.flights[n]); ok && f.seen.Some? ==> Written(world, n, f.seen.value, f.computed)
    {
      var proceeds := Call();
      if !proceeds {
        Take(Abort(n));
        return false;
      }
      ok := ReconcileCatalogs(n, items);
      if !ok {
        Take(Finish(n, false));
        return;
      }
      Interfere(n);
      ok := EndReconcile(n);
    }

    /** The status write at the end. */
    method EndReconcile(n: Name) returns (ok: bool)
      requires Valid() && n in world.flights && world.flights[n].todo == map[] && !world.flights[n].failed
      modifies this
      ensures Later()
      ensures timely ==> n in world.dirty || Indexed(world, n)
      ensures !ok ==> n in world.dirty && world.services == old(world.services)
      ensures ok <==> failures == old(failures)
      ensures var f := old(world.flights[n]); ok && f.seen.Some? ==> Written(world, n, f.seen.value, f.computed)
      ensures world.catalogs == old(world.catalogs)
    {
      var written: bool := *;
      var f := world.flights[n];
      ok := f.seen.None? || (written && n in world.services && world.services[n].version == f.seen.value.version);
      Take(Finish(n, written));
      failures := failures + if ok then 0 else 1;
      assert timely ==> ServiceOk(world, n);
    }

    /** `CreateServiceCatalog`, after the services were listed into a draft. The new catalog lists what the draft
        says, and as long as no race was lost that is right for every service at rest. */
    method CreateServiceCatalog(c: Name) returns (created: bool)
      requires Valid() && c in world.drafts
      modifies this
      ensures Later() && c in world.catalogs
      ensures created <==> c !in old(world.catalogs)
      ensures created ==>
        forall n :: Lists(world.catalogs[c].entries, n) <==> Belongs(old(world.drafts[c]).listing, n, c)
      ensures created && timely ==> forall n :: AtRest(world, n) ==>
                (Lists(world.catalogs[c].entries, n) <==> Belongs(world.services, n, c))
      ensures !created ==> world.catalogs == old(world.catalogs)
    {
      var d := world.drafts[c];
      var scs := EntriesFromScratch(d.listing, d.order, c);
      created := c !in world.catalogs;
      forall n | created ensures Lists(scs, n) <==> Belongs(d.listing, n, c) {
        NewCatalogLists(world, c, n);
      }
      Take(CreateCatalog(c));
      assert created ==> world.catalogs[c].entries == scs;
      forall n | created && timely && AtRest(world, n)
        ensures Lists(world.catalogs[c].entries, n) <==> Belongs(world.services, n, c)
      {
        assert ServiceOk(world, n);
      }
    }
  }

  /** Between the two states the reconcile of `n` visited catalog `c`, and remembers it if that failed. */
  predicate Visited(w: World, w': World, n: Name, c: Name, ok: bool) {
    && n in w.flights && n in w'.flights && c in w.flights[n].todo
    && w'.flights[n] == w.flights[n].(todo := w.flights[n].todo - {c}, failed := w.flights[n].failed || !ok)
  }
}
