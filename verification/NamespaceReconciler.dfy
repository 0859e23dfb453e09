/** The methods that bind and unbind namespaces, call by call. Any call may fail, before or after it had its
    effect. */
module NamespaceReconciler {
  import opened Runs
  import opened Slices
  import opened NamespaceMachine

  function Whole(s: Slot): set<Piece> {
    {Piece(Deployment, s), Piece(ConfigMap, s)}
  }

  function Agents(ce: string, kind: Kind, nss: seq<string>): set<Piece> {
    set ns, part: Part | ns in nss && part in {Deployment, ConfigMap} :: Piece(part, Slot(ce, kind, ns))
  }

  lemma AgentsGrow(ce: string, kind: Kind, nss: seq<string>, i: nat)
    requires i < |nss|
    ensures Agents(ce, kind, nss[..i + 1]) == Agents(ce, kind, nss[..i]) + Whole(Slot(ce, kind, nss[i]))
  {
  }

  /** The environment has agents of this kind in exactly these namespaces, and they are whole. */
  ghost predicate Converged(w: World, ce: string, kind: Kind, nss: seq<string>) {
    forall p: Piece :: p.slot.ce == ce && p.slot.kind == kind ==> (p in w.pieces <==> p.slot.ns in nss)
  }

  lemma AgentsAre(ce: string, kind: Kind, nss: seq<string>, p: Piece)
    ensures p in Agents(ce, kind, nss) <==> p.slot.ce == ce && p.slot.kind == kind && p.slot.ns in nss
  {
    assert p == Piece(p.part, Slot(p.slot.ce, p.slot.kind, p.slot.ns));
    assert p.part == Deployment || p.part == ConfigMap;
  }

  /** The agents of this kind that are in none of the requested namespaces. */
  function Orphans(pieces: set<Piece>, ce: string, kind: Kind, requested: seq<string>): set<Piece> {
    set p | p in pieces && p.slot.ce == ce && p.slot.kind == kind && p.slot.ns !in requested
  }

  /** The list holds the namespaces that were listed, and those are the authorized ones. */
  ghost predicate ListedAre(w: World, ce: string, kind: Kind, ann: seq<string>) {
    && (forall ns :: ns in ann ==> Slot(ce, kind, ns) in w.listed)
    && (forall ns :: ns in ann <==> Authorized(w, Slot(ce, kind, ns)))
  }

  /** Unbinding everything that is authorized and not requested removes exactly the orphans, because wherever
      there is an agent its role binding says so. */
  lemma OrphansAreListed(ces: set<string>, w: World, ce: string, kind: Kind,
                         ann: seq<string>, nn: seq<string>, requested: seq<string>)
    requires Inv(ces, w) && ListedAre(w, ce, kind, ann)
    requires Elements(nn) == Elements(ann) - Elements(requested)
    ensures forall ns :: ns in nn ==> Slot(ce, kind, ns) in w.listed
    ensures w.pieces - Agents(ce, kind, nn) == w.pieces - Orphans(w.pieces, ce, kind, requested)
  {
    forall ns | ns in nn ensures ns in ann {
      assert ns in Elements(nn);
      assert ns in Elements(ann);
    }
    forall p | p in w.pieces
      ensures p in Agents(ce, kind, nn) <==> p in Orphans(w.pieces, ce, kind, requested)
    {
      AgentsAre(ce, kind, nn, p);
      BoundIsAuthorized(ces, w, p.slot);
      assert p.slot.ns in nn <==> p.slot.ns in Elements(nn);
      assert p.slot.ce == ce && p.slot.kind == kind ==> p.slot == Slot(ce, kind, p.slot.ns);
    }
  }

  /** Binding what is requested and removing the orphans leaves agents in exactly the requested namespaces. */
  lemma BindAndSweep(before: set<Piece>, r: Request, p: Piece)
    requires p.slot.ce == r.ce
    ensures var bound := before + Agents(r.ce, App, r.apps) + Agents(r.ce, Svc, r.svcs);
            var swept := bound - Orphans(bound, r.ce, App, r.apps);
            p in swept - Orphans(swept, r.ce, Svc, r.svcs) <==> p.slot.ns in Wanted(r, p.slot.kind)
  {
    AgentsAre(r.ce, App, r.apps, p);
    AgentsAre(r.ce, Svc, r.svcs, p);
  }

  datatype Request = Request(ce: string, apps: seq<string>, svcs: seq<string>)

  function Wanted(r: Request, kind: Kind): seq<string> {
    if kind.App? then r.apps else r.svcs
  }

  ghost predicate Served(w: World, r: Request) {
    Converged(w, r.ce, App, r.apps) && Converged(w, r.ce, Svc, r.svcs)
  }

  /** The namespaces among these in which the agent is not whole. */
  ghost function Unwhole(pieces: set<Piece>, ce: string, kind: Kind, nss: seq<string>): set<string> {
    set ns | ns in nss && !(Whole(Slot(ce, kind, ns)) <= pieces)
  }

  /** The namespaces among these in which some part of the agent is left. */
  ghost function LeftIn(pieces: set<Piece>, ce: string, kind: Kind, nss: seq<string>): set<string> {
    set ns | ns in nss && !(Whole(Slot(ce, kind, ns)) !! pieces)
  }

  /** Whatever goes after binding is not requested: where the agent was whole, it stays so. */
  lemma StaysWhole(bound: set<Piece>, after: set<Piece>, r: Request, kind: Kind)
    requires forall p: Piece :: p in bound && p.slot.ce == r.ce && p.slot.ns in Wanted(r, p.slot.kind) ==> p in after
    ensures |Unwhole(after, r.ce, kind, Wanted(r, kind))| <= |Unwhole(bound, r.ce, kind, Wanted(r, kind))|
  {
    SubsetIsSmaller(Unwhole(after, r.ce, kind, Wanted(r, kind)), Unwhole(bound, r.ce, kind, Wanted(r, kind)));
  }

  class Clusters {
    ghost const ces: set<string>
    var world: World
    ghost var trace: seq<World>

    /** How many calls did not get through or had an error as answer. */
    ghost var failures: nat

    ghost predicate Valid()
      reads this`world, this`trace
    {
      Clear(ces) && IsRun(Initial, NextFor(ces), trace) && world == trace[|trace| - 1] && Inv(ces, world)
    }

    constructor (ghost names: set<string>)
      requires Clear(names)
      ensures Valid() && ces == names && failures == 0
    {
      ces := names;
      world := World(map[], {}, {});
      trace := [World(map[], {}, {})];
      failures := 0;
    }

    /** A write, which may be applied although it failed. */
    method Write() returns (applied: bool, ok: bool)
      modifies this`failures
      ensures old(failures) <= failures && (ok <==> failures == old(failures)) && (ok ==> applied)
    {
      applied := *;
      var answered: bool := *;
      ok := applied && answered;
      failures := failures + if ok then 0 else 1;
    }

    method Take(s: Step)
      requires Valid() && Enabled(ces, world, s)
      modifies this
      ensures Valid() && old(trace) <= trace && world == Apply(old(world), s) && failures == old(failures)
    {
      StepKeepsInv(ces, world, s);
      RunGrows(Initial, NextFor(ces), trace, Apply(world, s));
      world := Apply(world, s);
      trace := trace + [world];
    }

    /** `createRoleBinding`; that it exists already is no error. The API server refuses what cannot be the name of a
        namespace. */
    method CreateRoleBinding(s: Slot) returns (ok: bool)
      requires Valid() && s.ce in ces
      modifies this
      ensures Valid() && old(trace) <= trace && world.pieces == old(world.pieces)
      ensures old(failures) <= failures && (ok <==> failures == old(failures))
      ensures ok ==> Bound(world, s) && Admissible(s.ns)
      ensures var name := "primaza-" + (if s.kind.App? then "claimer-" else "reporter-") + s.ce + "-" + s.ns;
        ok ==> world.bindings == old(world.bindings)[name := s]
    {
      if !Admissible(s.ns) {
        failures := failures + 1;
        return false;
      }
      var applied;
      applied, ok := Write();
      if applied {
        Take(CreateBinding(s));
        if ok {
          NamesDiffer(ces, s, world.bindings[BindingName(s)]);
        }
      }
    }

    method CreateOne(p: Piece) returns (ok: bool)
      requires Valid() && Bound(world, p.slot) && Real(ces, p.slot)
      modifies this
      ensures Valid() && old(trace) <= trace && world.bindings == old(world.bindings)
      ensures old(failures) <= failures && (ok <==> failures == old(failures))
      ensures world.pieces == old(world.pieces) + {p} || (!ok && world.pieces == old(world.pieces))
    {
      var applied;
      applied, ok := Write();
      if applied {
        Take(CreatePiece(p));
      }
    }

    /** `bindNamespace`: the agent is pushed, both its parts, only once the role binding is there. */
    method BindNamespace(s: Slot) returns (ok: bool)
      requires Valid() && s.ce in ces
      modifies this
      ensures Valid() && old(trace) <= trace
      ensures old(world.pieces) <= world.pieces <= old(world.pieces) + Whole(s)
      ensures old(failures) <= failures && (ok <==> failures == old(failures))
      ensures ok ==> world.pieces == old(world.pieces) + Whole(s)
      ensures var name := "primaza-" + (if s.kind.App? then "claimer-" else "reporter-") + s.ce + "-" + s.ns;
        ok ==> name in world.bindings && world.bindings[name] == s
    {
      ok := CreateRoleBinding(s);
      if ok {
        var deployed := CreateOne(Piece(Deployment, s));
        var configured := CreateOne(Piece(ConfigMap, s));
        ok := deployed && configured;
      }
    }

    method BindNamespaces(ce: string, kind: Kind, namespaces: seq<string>) returns (ok: bool)
      requires Valid() && ce in ces
      modifies this
      ensures Valid() && old(trace) <= trace
      ensures old(world.pieces) <= world.pieces <= old(world.pieces) + Agents(ce, kind, namespaces)
      ensures old(failures) <= failures && (ok <==> failures == old(failures))
      ensures ok ==> world.pieces == old(world.pieces) + Agents(ce, kind, namespaces)
      ensures |Unwhole(world.pieces, ce, kind, namespaces)| <= failures - old(failures)
    {
      var ens: seq<string> := [];
      for i := 0 to |namespaces|
        invariant Valid() && old(trace) <= trace
        invariant old(world.pieces) <= world.pieces <= old(world.pieces) + Agents(ce, kind, namespaces[..i])
        invariant ens == [] ==> world.pieces == old(world.pieces) + Agents(ce, kind, namespaces[..i])
        invariant ens == [] <==> failures == old(failures)
        invariant |Unwhole(world.pieces, ce, kind, namespaces[..i])| <= failures - old(failures)
      {
        ghost var before := Unwhole(world.pieces, ce, kind, namespaces[..i]);
        AgentsGrow(ce, kind, namespaces, i);
        var bound := BindNamespace(Slot(ce, kind, namespaces[i]));
        OneMoreTried(before, Unwhole(world.pieces, ce, kind, namespaces[..i + 1]), namespaces[i], bound);
        if !bound {
          ens := ens + [namespaces[i]];
        }
      }
      assert namespaces[..|namespaces|] == namespaces;
      ok := |ens| == 0;
    }

    /** `getAuthorizedNamespaces`: the namespaces on the labels of the role bindings of this kind. */
    method GetAuthorizedNamespaces(ce: string, kind: Kind) returns (ok: bool, nss: seq<string>)
      requires Valid() && ce in ces
      modifies this
      ensures Valid() && old(trace) <= trace && world.pieces == old(world.pieces)
      ensures old(failures) <= failures && (ok <==> failures == old(failures))
      ensures ok ==> ListedAre(world, ce, kind, nss)
    {
      nss := [];
      ok := *;
      failures := failures + if ok then 0 else 1;
      if !ok {
        return;
      }
      Take(ListBindings(ce, kind));
      var left := world.listed;
      while left != {}
        invariant left <= world.listed
        invariant forall ns :: ns in nss <==> Slot(ce, kind, ns) in world.listed - left
        decreases left
      {
        var s :| s in left;
        nss := nss + [s.ns];
        left := left - {s};
      }
    }

    method DeleteOne(p: Piece) returns (ok: bool)
      requires Valid() && p.slot in world.listed
      modifies this
      ensures Valid() && old(trace) <= trace && world.listed == old(world.listed)
      ensures old(failures) <= failures && (ok <==> failures == old(failures))
      ensures world.pieces == old(world.pieces) - {p} || (!ok && world.pieces == old(world.pieces))
      ensures world.bindings == old(world.bindings)
    {
      var applied;
      applied, ok := Write();
      if applied {
        Take(DeletePiece(p));
      }
    }

    /** `unbindNamespace`: first the role binding, whose absence is no error, then the agent. */
    method UnbindNamespace(s: Slot) returns (ok: bool)
      requires Valid() && s in world.listed
      modifies this
      ensures Valid() && old(trace) <= trace && world.listed == old(world.listed)
      ensures old(world.pieces) - Whole(s) <= world.pieces <= old(world.pieces)
      ensures old(failures) <= failures && (ok <==> failures == old(failures))
      ensures ok ==> world.pieces == old(world.pieces) - Whole(s)
      ensures ok ==> world.bindings == old(world.bindings) - {"primaza-" + s.ce + "-" + s.ns}
    {
      var applied;
      applied, ok := Write();
      if applied {
        Take(DeleteBinding(s));
      }
      if !ok {
        return false;
      }
      var undeployed := DeleteOne(Piece(Deployment, s));
      var unconfigured := DeleteOne(Piece(ConfigMap, s));
      ok := undeployed && unconfigured;
    }

    method UnbindNamespaces(ce: string, kind: Kind, namespaces: seq<string>) returns (ok: bool)
      requires Valid() && forall ns :: ns in namespaces ==> Slot(ce, kind, ns) in world.listed
      modifies this
      ensures Valid() && old(trace) <= trace
      ensures old(world.pieces) - Agents(ce, kind, namespaces) <= world.pieces <= old(world.pieces)
      ensures old(failures) <= failures && (ok <==> failures == old(failures))
      ensures ok ==> world.pieces == old(world.pieces) - Agents(ce, kind, namespaces)
      ensures |LeftIn(world.pieces, ce, kind, namespaces)| <= failures - old(failures)
    {
      var ens: seq<string> := [];
      for i := 0 to |namespaces|
        invariant Valid() && old(trace) <= trace && world.listed == old(world.listed)
        invariant old(world.pieces) - Agents(ce, kind, namespaces[..i]) <= world.pieces <= old(world.pieces)
        invariant ens == [] ==> world.pieces == old(world.pieces) - Agents(ce, kind, namespaces[..i])
        invariant ens == [] <==> failures == old(failures)
        invariant |LeftIn(world.pieces, ce, kind, namespaces[..i])| <= failures - old(failures)
      {
        ghost var before := LeftIn(world.pieces, ce, kind, namespaces[..i]);
        AgentsGrow(ce, kind, namespaces, i);
        assert namespaces[i] in namespaces;
        var unbound := UnbindNamespace(Slot(ce, kind, namespaces[i]));
        OneMoreTried(before, LeftIn(world.pieces, ce, kind, namespaces[..i + 1]), namespaces[i], unbound);
        if !unbound {
          ens := ens + [namespaces[i]];
        }
      }
      assert namespaces[..|namespaces|] == namespaces;
      ok := |ens| == 0;
    }

    /** `unbindOrphanNamespacesForType` removes orphans only, and without an error all of them. */
    method UnbindOrphanNamespacesForType(ce: string, kind: Kind, requested: seq<string>) returns (ok: bool)
      requires Valid() && ce in ces
      modifies this
      ensures Valid() && old(trace) <= trace
      ensures old(failures) <= failures && (ok <==> failures == old(failures))
      ensures var orphans := Orphans(old(world.pieces), ce, kind, requested);
        && old(world.pieces) - orphans <= world.pieces <= old(world.pieces)
        && (ok ==> world.pieces == old(world.pieces) - orphans)
    {
      var listed, ann := GetAuthorizedNamespaces(ce, kind);
      if !listed {
        return false;
      }
      var nn := Subtract(ann, requested);
      OrphansAreListed(ces, world, ce, kind, ann, nn, requested);
      ok := UnbindNamespaces(ce, kind, nn);
    }

    /** `ReconcileNamespaces`. Whatever failed in earlier calls, a call without an error leaves the agents of
        each kind in exactly the requested namespaces; a failing call touches no other environment either. */
    method ReconcileNamespaces(r: Request) returns (ok: bool)
      requires Valid() && r.ce in ces
      modifies this
      ensures Valid() && old(trace) <= trace
      ensures old(failures) <= failures && (ok <==> failures == old(failures))
      ensures ok ==> Served(world, r)
      ensures |Unwhole(world.pieces, r.ce, App, r.apps)| + |Unwhole(world.pieces, r.ce, Svc, r.svcs)|
           <= failures - old(failures)
      ensures forall p: Piece :: p.slot.ce != r.ce ==> (p in world.pieces <==> p in old(world.pieces))
    {
      var appsBound := BindNamespaces(r.ce, App, r.apps);
      ghost var afterApps := world.pieces;
      var svcsBound := BindNamespaces(r.ce, Svc, r.svcs);
      ghost var afterSvcs := world.pieces;
      var appsUnbound := UnbindOrphanNamespacesForType(r.ce, App, r.apps);
      var svcsUnbound := UnbindOrphanNamespacesForType(r.ce, Svc, r.svcs);
      ok := appsBound && svcsBound && appsUnbound && svcsUnbound;
      StaysWhole(afterApps, world.pieces, r, App);
      StaysWhole(afterSvcs, world.pieces, r, Svc);
      forall p: Piece | p.slot.ce == r.ce && ok
        ensures p in world.pieces <==> p.slot.ns in Wanted(r, p.slot.kind)
      {
        BindAndSweep(old(world.pieces), r, p);
      }
      forall p: Piece | p.slot.ce != r.ce ensures p in world.pieces <==> p in old(world.pieces) {
        AgentsAre(r.ce, App, r.apps, p);
        AgentsAre(r.ce, Svc, r.svcs, p);
      }
    }

    /** Any history of calls, for any environments, with any failures. */
    method Serve(requests: seq<Request>) returns (oks: seq<bool>)
      requires Valid() && forall r :: r in requests ==> r.ce in ces
      modifies this
      ensures Valid() && old(trace) <= trace && |oks| == |requests|
      ensures |requests| > 0 && oks[|oks| - 1] ==> Served(world, requests[|requests| - 1])
      ensures old(failures) <= failures && ((forall i :: 0 <= i < |oks| ==> oks[i]) <==> failures == old(failures))
    {
      oks := [];
      for i := 0 to |requests|
        invariant Valid() && old(trace) <= trace && |oks| == i
        invariant i > 0 && oks[i - 1] ==> Served(world, requests[i - 1])
        invariant old(failures) <= failures && ((forall j :: 0 <= j < |oks| ==> oks[j]) <==> failures == old(failures))
      {
        assert requests[i] in requests;
        var ok := ReconcileNamespaces(requests[i]);
        ghost var before := oks;
        oks := oks + [ok];
        assert oks[i] == ok && forall j :: 0 <= j < i ==> before[j] == oks[j];
      }
    }

    /** `finalizeClusterEnvironmentInNamespaces`: without an error no agent of the environment is left. */
    method FinalizeInNamespaces(ce: string) returns (ok: bool)
      requires Valid() && ce in ces
      modifies this
      ensures Valid() && old(trace) <= trace
      ensures old(failures) <= failures && (ok <==> failures == old(failures))
      ensures ok ==> forall p :: p in world.pieces ==> p.slot.ce != ce
      ensures forall p: Piece :: p.slot.ce != ce ==> (p in world.pieces <==> p in old(world.pieces))
    {
      ok := ReconcileNamespaces(Request(ce, [], []));
      assert forall p: Piece :: p.slot.kind == App || p.slot.kind == Svc;
    }
  }
}
