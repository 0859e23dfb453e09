/** The methods of the ServiceBinding reconciler of the application agent, for one binding
    (controllers/agents/app/servicebinding_controller.go, servicebinding_controller_informers.go). Every
    remote call can fail, before or after it had its effect. */
module BindingReconciler {
  import opened Wrappers
  import opened Projection
  import opened Finalization
  import opened Slices

  /** Each of the listed workloads was changed, or, unless `exact`, is as before; the others are as before. */
  ghost predicate Partly(before: Workloads, now: Workloads, after: Workloads, done: seq<string>, exact: bool) {
    && before.Keys == now.Keys == after.Keys
    && forall n :: n in before ==>
         now[n] == (if n in done then after[n] else before[n]) || (!exact && now[n] == before[n])
  }

  lemma PartlyGrows(before: Workloads, now: Workloads, after: Workloads, apps: seq<string>, i: nat,
                    exact: bool, now': Workloads, ok: bool)
    requires i < |apps| && apps[i] in before && Distinct(apps) && Partly(before, now, after, apps[..i], exact)
    requires now' == now[apps[i] := after[apps[i]]] || (!ok && now' == now)
    ensures Partly(before, now', after, apps[..i + 1], exact && ok)
    ensures now[apps[i]] == before[apps[i]]
  {
  }

  /** What is left out counts as unchanged. */
  lemma PartlyWidens(before: Workloads, now: Workloads, after: Workloads, done: seq<string>, apps: seq<string>)
    requires Partly(before, now, after, done, false) && forall n :: n in done ==> n in apps
    ensures Partly(before, now, after, apps, false)
  {
  }

  /** The listed workloads that are not as they should be in the end. */
  ghost function Missed(now: Workloads, after: Workloads, apps: seq<string>): set<string> {
    set n | n in apps && !(n in now && n in after && now[n] == after[n])
  }

  lemma MissedGrows(now: Workloads, now': Workloads, after: Workloads, apps: seq<string>, i: nat, ok: bool)
    requires i < |apps| && apps[i] in after && Distinct(apps)
    requires now' == now[apps[i] := after[apps[i]]] || (!ok && now' == now)
    ensures |Missed(now', after, apps[..i + 1])| <= |Missed(now, after, apps[..i])| + if ok then 0 else 1
  {
    OneMoreTried(Missed(now, after, apps[..i]), Missed(now', after, apps[..i + 1]), apps[i], ok);
  }

  datatype Outcome = Done | Failed | Panicked

  /** Unbinding some listed workload panics. */
  ghost predicate SomePanics(b: Binding, ws: Workloads, apps: seq<string>) {
    exists n :: n in apps && n in ws && Panics(b, ws[n])
  }

  class ServiceBindingAgent {
    const binding: Binding
    var workloads: Workloads
    var connections: seq<string>
    var finalizer: bool

    /** How many calls did not get through or had an error as answer. */
    ghost var failures: nat

    ghost predicate Valid()
      reads this`connections
    {
      binding.name != "" && Distinct(connections)
    }

    constructor (b: Binding, ws: Workloads)
      requires b.name != ""
      ensures Valid() && binding == b && workloads == ws && connections == [] && !finalizer && failures == 0
    {
      binding, workloads, connections, finalizer, failures := b, ws, [], false, 0;
    }

    /** A call gets its answer, or it counts as failed. */
    method Call() returns (ok: bool)
      modifies this`failures
      ensures old(failures) <= failures && (ok <==> failures == old(failures))
    {
      ok := *;
      failures := failures + if ok then 0 else 1;
    }

    /** A write, which may be applied although it failed. */
    method Write() returns (applied: bool, ok: bool)
      modifies this`failures
      ensures old(failures) <= failures && (ok <==> failures == old(failures)) && (ok ==> applied)
    {
      applied := *;
      var answered: bool := *;
      ok := applied && answered;
      failures := failures + if ok then 0 else 1;
    }

    method UpdateWorkload(n: string, w: Workload) returns (ok: bool)
      requires n in workloads
      modifies this`workloads, this`failures
      ensures workloads == old(workloads)[n := w] || (!ok && workloads == old(workloads))
      ensures old(failures) <= failures && (ok <==> failures == old(failures))
    {
      var applied;
      applied, ok := Write();
      if applied {
        workloads := workloads[n := w];
      }
    }

    /** The loop of `bindApplications`: every workload is tried and gets on the list, bound or not. */
    method BindEach(apps: seq<string>) returns (bound: seq<string>, el: nat)
      requires Valid() && Distinct(apps) && forall n :: n in apps ==> n in workloads
      modifies this`workloads, this`failures
      ensures bound == apps && old(failures) <= failures && (el == 0 <==> failures == old(failures))
      ensures Partly(old(workloads), workloads, AllBound(binding, old(workloads), apps), apps, el == 0)
      ensures |Missed(workloads, AllBound(binding, old(workloads), apps), apps)| <= failures - old(failures)
    {
      ghost var after := AllBound(binding, old(workloads), apps);
      bound, el := [], 0;
      for i := 0 to |apps|
        invariant bound == apps[..i]
        invariant old(failures) <= failures && (el == 0 <==> failures == old(failures))
        invariant |Missed(workloads, after, apps[..i])| <= failures - old(failures)
        invariant Partly(old(workloads), workloads, after, apps[..i], el == 0)
      {
        assert apps[i] in apps && apps[..i + 1] == apps[..i] + [apps[i]];
        PartlyGrows(old(workloads), workloads, after, apps, i, el == 0, workloads, false);
        var w := PrepareContainerWithMounts(binding, workloads[apps[i]]);
        ghost var now := workloads;
        var updated := UpdateWorkload(apps[i], w);
        PartlyGrows(old(workloads), now, after, apps, i, el == 0, workloads, updated);
        MissedGrows(now, workloads, after, apps, i, updated);
        if !updated {
          el := el + 1;
        }
        bound := bound + [apps[i]];
      }
      assert apps[..|apps|] == apps;
    }

    /** `bindApplications`: the list of connections starts empty and gets every workload, bound or not; the
        status is written whether or not there were errors. */
    method BindApplications(apps: seq<string>) returns (ok: bool)
      requires Valid() && Distinct(apps) && forall n :: n in apps ==> n in workloads
      modifies this`workloads, this`connections, this`failures
      ensures Valid() && old(failures) <= failures && (ok <==> failures == old(failures))
      ensures Partly(old(workloads), workloads, AllBound(binding, old(workloads), apps), apps, ok)
      ensures connections == apps || (!ok && connections == old(connections))
      ensures |Missed(workloads, AllBound(binding, old(workloads), apps), apps)| <= failures - old(failures)
      ensures ok ==> workloads == AllBound(binding, old(workloads), apps)
      ensures ok ==> forall n :: n in apps ==> workloads[n] == Bind(binding, old(workloads)[n])
      ensures ok ==> forall n :: n in apps ==> Holds(binding, workloads[n])
    {
      var bound, el := BindEach(apps);
      forall n | n in apps ensures Holds(binding, Bind(binding, old(workloads)[n])) {
        BoundHolds(binding, old(workloads)[n]);
      }
      var written, answered := Write();
      if written {
        connections := bound;
      }
      ok := answered && el == 0;
    }

    /** `unbindApplications`; a failure does not keep the other workloads from being unbound, but a panic does. */
    method UnbindApplications(apps: seq<string>) returns (r: Outcome)
      requires Distinct(apps) && forall n :: n in apps ==> n in workloads
      modifies this`workloads, this`failures
      ensures Partly(old(workloads), workloads, AllUnbound(binding, old(workloads), apps), apps, r.Done?)
      ensures r.Panicked? <==> SomePanics(binding, old(workloads), apps)
      ensures old(failures) <= failures && (r.Done? <==> failures == old(failures) && !r.Panicked?)
      ensures !r.Panicked? ==>
                |Missed(workloads, AllUnbound(binding, old(workloads), apps), apps)| <= failures - old(failures)
      ensures r.Done? ==> workloads == AllUnbound(binding, old(workloads), apps)
      ensures r.Done? ==> forall n :: n in apps ==> Unbind(binding, old(workloads)[n]) == Some(workloads[n])
    {
      ghost var after := AllUnbound(binding, old(workloads), apps);
      var el := 0;
      for i := 0 to |apps|
        invariant Partly(old(workloads), workloads, after, apps[..i], el == 0)
        invariant old(failures) <= failures && (el == 0 <==> failures == old(failures))
        invariant |Missed(workloads, after, apps[..i])| <= failures - old(failures)
        invariant forall n :: n in apps[..i] ==> !Panics(binding, old(workloads)[n])
      {
        assert apps[i] in apps && apps[..i + 1] == apps[..i] + [apps[i]];
        PartlyGrows(old(workloads), workloads, after, apps, i, el == 0, workloads, false);
        PanicsExactlyWhen(binding, workloads[apps[i]]);
        var w := RemoveVolumeMountAndEnvironment(binding, workloads[apps[i]]);
        if w.None? {
          PartlyWidens(old(workloads), workloads, after, apps[..i], apps);
          return Panicked;
        }
        ghost var now := workloads;
        var updated := UpdateWorkload(apps[i], w.value);
        PartlyGrows(old(workloads), now, after, apps, i, el == 0, workloads, updated);
        MissedGrows(now, workloads, after, apps, i, updated);
        if !updated {
          el := el + 1;
        }
      }
      assert apps[..|apps|] == apps;
      forall n | n in apps ensures Unbind(binding, old(workloads)[n]).Some? {
        PanicsExactlyWhen(binding, old(workloads)[n]);
      }
      r := if el == 0 then Done else Failed;
    }

    /** `getBoundApplications`: the listed workloads that could be read. */
    method GetBoundApplications() returns (apps: seq<string>, errs: nat)
      requires Distinct(connections)
      modifies this`failures
      ensures Distinct(apps) && forall n :: n in apps ==> n in connections && n in workloads
      ensures errs == 0 ==> apps == connections
      ensures old(failures) <= failures
      ensures errs == 0 <==> failures == old(failures) && forall n :: n in connections ==> n in workloads
      ensures failures == old(failures) ==> forall n :: n in connections && n in workloads ==> n in apps
    {
      apps, errs := [], 0;
      for i := 0 to |connections|
        invariant Distinct(apps) && forall n :: n in apps ==> n in connections[..i] && n in workloads
        invariant errs == 0 ==> apps == connections[..i]
        invariant old(failures) <= failures
        invariant errs == 0 <==> failures == old(failures) && forall n :: n in connections[..i] ==> n in workloads
        invariant failures == old(failures) ==> forall n :: n in connections[..i] && n in workloads ==> n in apps
      {
        assert connections[i] !in connections[..i] && connections[..i + 1] == connections[..i] + [connections[i]];
        var reached := Call();
        if reached && connections[i] in workloads {
          assert forall k :: 0 <= k < |apps| ==> apps[k] in apps;
          apps := apps + [connections[i]];
        } else {
          errs := errs + 1;
        }
      }
      assert connections[..|connections|] == connections;
    }

    /** `finalizeServiceBinding`. Only listed workloads change. Without an error they all exist and are unbound,
        and then nothing of the binding is left anywhere if and only if everything that was bound was listed
        and every listed workload was releasable. It panics only if unbinding a listed workload does. */
    method FinalizeServiceBinding() returns (r: Outcome)
      requires Valid()
      modifies this`workloads, this`failures
      ensures Partly(old(workloads), workloads, AllUnbound(binding, old(workloads), connections), connections, r.Done?)
      ensures old(failures) <= failures
      ensures r.Done? <==>
        && failures == old(failures) && !SomePanics(binding, old(workloads), connections)
        && forall n :: n in connections ==> n in old(workloads)
      ensures r.Done? ==> workloads == AllUnbound(binding, old(workloads), connections)
      ensures r.Done? ==>
        (NothingHeld(binding, workloads) <==>
           Tracked(binding, old(workloads), connections)
           && forall n :: n in connections && n in old(workloads) ==> Releasable(binding, old(workloads)[n]))
      ensures r.Panicked? ==> SomePanics(binding, old(workloads), connections)
      ensures failures == old(failures) && SomePanics(binding, old(workloads), connections) ==> r.Panicked?
    {
      var apps, errs := GetBoundApplications();
      ghost var before := workloads;
      var unbound := UnbindApplications(apps);
      PartialUnbind(before, apps);
      if unbound.Done? && errs == 0 {
        LeavesNothingExactlyWhen(binding, before, connections);
        forall n | n in connections && n in before ensures Unbind(binding, before[n]).Some? {
          PanicsExactlyWhen(binding, before[n]);
        }
      }
      r := if unbound.Panicked? then Panicked else if unbound.Done? && errs == 0 then Done else Failed;
    }

    /** Unbinding some of the connections is part of unbinding all of them. */
    lemma PartialUnbind(before: Workloads, apps: seq<string>)
      requires Partly(before, workloads, AllUnbound(binding, before, apps), apps, false)
      requires forall n :: n in apps ==> n in connections
      ensures Partly(before, workloads, AllUnbound(binding, before, connections), connections, false)
    {
    }

    /** The deletion branch of `Reconcile`: the finalizer goes only after a finalization without an error. */
    method ReconcileDeleted() returns (r: Outcome)
      requires Valid()
      modifies this`workloads, this`finalizer, this`failures
      ensures old(failures) <= failures && (r.Done? ==> !finalizer)
      ensures !old(finalizer) ==> r.Done? && workloads == old(workloads)
      ensures old(finalizer) ==>
        (r.Done? <==>
           && failures == old(failures) && !SomePanics(binding, old(workloads), connections)
           && forall n :: n in connections ==> n in old(workloads))
      ensures old(finalizer) && !finalizer ==> workloads == AllUnbound(binding, old(workloads), connections)
      ensures old(finalizer) && !finalizer ==>
        (NothingHeld(binding, workloads) <==>
           Tracked(binding, old(workloads), connections)
           && forall n :: n in connections && n in old(workloads) ==> Releasable(binding, old(workloads)[n]))
      ensures r.Panicked? ==> finalizer == old(finalizer) && SomePanics(binding, old(workloads), connections)
    {
      if !finalizer {
        return Done;
      }
      r := FinalizeServiceBinding();
      if r.Done? {
        var applied, ok := Write();
        finalizer := !applied;
        r := if ok then Done else Failed;
      }
    }

    /** The binding branch of `Reconcile`, for the selected workloads. Without the secret they are unbound and
        the list is left as it was. With it, an error-free reconcile that misses no bound workload makes the
        list complete. */
    method ReconcileSelected(selected: seq<string>, secretFound: bool) returns (r: Outcome)
      requires Valid() && Distinct(selected) && forall n :: n in selected ==> n in workloads
      modifies this`workloads, this`connections, this`failures
      ensures Valid() && old(failures) <= failures
      ensures secretFound ==> (r.Done? <==> failures == old(failures))
      ensures !secretFound ==> !r.Done? && connections == old(connections)
      ensures !secretFound && failures == old(failures) && !r.Panicked? ==>
                workloads == AllUnbound(binding, old(workloads), selected)
      ensures !secretFound && failures == old(failures) ==>
                (r.Panicked? <==> SomePanics(binding, old(workloads), selected))
      ensures !secretFound ==>
                Partly(old(workloads), workloads, AllUnbound(binding, old(workloads), selected), selected, false)
      ensures r.Panicked? ==> !secretFound && SomePanics(binding, old(workloads), selected)
      ensures r.Done? ==> connections == selected && workloads == AllBound(binding, old(workloads), selected)
      ensures r.Done? ==> (Tracked(binding, workloads, connections) <==>
                           forall n :: n in workloads && n !in selected ==> !Holds(binding, workloads[n]))
    {
      if !secretFound {
        var written := Call();
        if written {
          var unbound := UnbindApplications(selected);
          return if unbound.Panicked? then Panicked else Failed;
        }
        return Failed;
      }
      var bound := BindApplications(selected);
      BindTracksExactlyWhen(binding, old(workloads), selected);
      if !bound {
        return Failed;
      }
      var owned := Call();
      r := if owned then Done else Failed;
    }

    /** An informer's add or update event: the same as above with the one workload. */
    method OnWorkloadEvent(n: string, secretFound: bool) returns (r: Outcome)
      requires Valid() && n in workloads
      modifies this`workloads, this`connections, this`failures
      ensures Valid() && old(failures) <= failures
      ensures secretFound ==> (r.Done? <==> failures == old(failures))
      ensures r.Done? ==> secretFound && connections == [n]
      ensures r.Done? ==> workloads == AllBound(binding, old(workloads), [n])
      ensures r.Done? ==> (Tracked(binding, workloads, connections) <==>
                           forall m :: m in workloads && m != n ==> !Holds(binding, workloads[m]))
    {
      r := ReconcileSelected([n], secretFound);
    }

    /** An informer's delete event, after the workload is gone: it is dropped from the list. */
    method OnWorkloadDeleted(n: string) returns (ok: bool)
      requires Valid() && n !in workloads
      modifies this`connections, this`failures
      ensures Valid() && old(failures) <= failures && (ok <==> failures == old(failures))
      ensures ok ==> forall m :: m in connections <==> m in old(connections) && m != n
      ensures Tracked(binding, workloads, old(connections)) ==> Tracked(binding, workloads, connections)
    {
      if n !in connections {
        return true;
      }
      var cc: seq<string> := [];
      for i := 0 to |connections|
        invariant Distinct(cc) && forall m :: m in cc <==> m in connections[..i] && m != n
      {
        assert connections[i] !in connections[..i] && connections[..i + 1] == connections[..i] + [connections[i]];
        if connections[i] != n {
          assert forall k :: 0 <= k < |cc| ==> cc[k] in cc;
          cc := cc + [connections[i]];
        }
      }
      assert connections[..|connections|] == connections;
      var applied;
      applied, ok := Write();
      if applied {
        connections := cc;
      }
    }

    /** Another binding is bound to, or unbound from, a workload, unless that panics: nothing of this one changes
        hands. */
    method OtherBindingActs(o: Binding, n: string, unbinds: bool)
      requires Valid() && n in workloads && Apart(binding, o)
      modifies this`workloads
      ensures Valid()
      ensures Tracked(binding, old(workloads), connections) ==> Tracked(binding, workloads, connections)
      ensures !unbinds ==> (Tracked(binding, workloads, connections) ==> Tracked(binding, old(workloads), connections))
      ensures var after := if unbinds then Unbind(o, old(workloads[n])) else Some(Bind(o, old(workloads[n])));
        workloads == if after.Some? then old(workloads)[n := after.value] else old(workloads)
    {
      var w := workloads[n];
      if unbinds {
        var r := RemoveVolumeMountAndEnvironment(o, w);
        if r.Some? {
          workloads := workloads[n := r.value];
          if Holds(binding, r.value) {
            OtherUnbindAddsNothing(binding, o, w);
          }
        }
      } else {
        var r := PrepareContainerWithMounts(o, w);
        workloads := workloads[n := r];
        OtherBindKeeps(binding, o, w);
      }
    }
  }
}
