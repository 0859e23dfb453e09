/** Where a claim's service binding is pushed to, where it is deleted from, and when the finalizer goes
    (controllers/serviceclaim_controller.go, pkg/primaza/controlplane/application_namespaces.go). */
module ClaimDeletion {
  import opened Wrappers
  import opened Slices

  /** A ClusterEnvironment, the environment it belongs to, and its application namespaces. */
  datatype Env = Env(id: string, tag: string, namespaces: seq<string>)

  /** A claim names one namespace of one ClusterEnvironment, or an environment. */
  datatype Target = ByContext(id: string, ns: string) | ByTag(tag: string)
  datatype Place = Place(id: string, ns: string)

  /** What listing the ClusterEnvironments gives; `Missing` is a not-found error. */
  datatype Listing = Listed(envs: seq<Env>) | Missing | Broken

  predicate IsPushed(t: Target, e: Env, p: Place) {
    && p.id == e.id && p.ns in e.namespaces
    && match t
       case ByContext(id, ns) => e.id == id && p.ns == ns
       case ByTag(tag) => e.tag == tag
  }

  predicate IsDeleted(t: Target, e: Env, p: Place) {
    && p.id == e.id
    && match t
       case ByContext(id, ns) => e.id == id && p.ns == ns
       case ByTag(tag) => e.tag == tag && p.ns in e.namespaces
  }

  ghost predicate PushedTo(t: Target, envs: seq<Env>, p: Place) {
    exists e :: e in envs && IsPushed(t, e, p)
  }

  ghost predicate DeletedFrom(t: Target, envs: seq<Env>, p: Place) {
    exists e :: e in envs && IsDeleted(t, e, p)
  }

  ghost predicate Covers(t: Target, before: seq<Env>, now: seq<Env>) {
    forall p :: PushedTo(t, before, p) ==> DeletedFrom(t, now, p)
  }

  /** The namespace is still there, under the same ClusterEnvironment and environment. */
  ghost predicate Remains(now: seq<Env>, e: Env, ns: string) {
    exists f :: f in now && f.id == e.id && f.tag == e.tag && ns in f.namespaces
  }

  /** What the claim needs of the later list: if it names a namespace that its ClusterEnvironment had, that the
      ClusterEnvironment still exists, in whatever form; if it names an environment, that no namespace was taken
      out of it. */
  ghost predicate Suffices(t: Target, before: seq<Env>, now: seq<Env>) {
    match t
    case ByContext(id, ns) =>
      (exists e :: e in before && e.id == id && ns in e.namespaces) ==> exists f :: f in now && f.id == id
    case ByTag(tag) => forall e, ns :: e in before && e.tag == tag && ns in e.namespaces ==> Remains(now, e, ns)
  }

  lemma ContextCovers(id: string, ns: string, before: seq<Env>, now: seq<Env>)
    ensures Covers(ByContext(id, ns), before, now) <==> Suffices(ByContext(id, ns), before, now)
  {
    var t := ByContext(id, ns);
    if Covers(t, before, now) {
      if e :| e in before && e.id == id && ns in e.namespaces {
        assert IsPushed(t, e, Place(id, ns)) && PushedTo(t, before, Place(id, ns));
        var f :| f in now && IsDeleted(t, f, Place(id, ns));
      }
    } else {
      var p :| PushedTo(t, before, p) && !DeletedFrom(t, now, p);
      assert forall f :: f in now ==> !IsDeleted(t, f, p);
    }
  }

  lemma TagCovers(tag: string, before: seq<Env>, now: seq<Env>)
    ensures Covers(ByTag(tag), before, now) <==> Suffices(ByTag(tag), before, now)
  {
    var t := ByTag(tag);
    if Covers(t, before, now) {
      forall e, ns | e in before && e.tag == tag && ns in e.namespaces ensures Remains(now, e, ns) {
        assert IsPushed(t, e, Place(e.id, ns)) && PushedTo(t, before, Place(e.id, ns));
        var f :| f in now && IsDeleted(t, f, Place(e.id, ns));
      }
    } else {
      var p :| PushedTo(t, before, p) && !DeletedFrom(t, now, p);
      var e :| e in before && IsPushed(t, e, p);
      assert forall f :: f in now ==> !IsDeleted(t, f, p);
    }
  }

  /** The deletion of a claim covers every earlier push of it if and only if the later list suffices for it. */
  lemma CoversExactlyWhen(t: Target, before: seq<Env>, now: seq<Env>)
    ensures Covers(t, before, now) <==> Suffices(t, before, now)
  {
    match t
    case ByContext(id, ns) => ContextCovers(id, ns, before, now);
    case ByTag(tag) => TagCovers(tag, before, now);
  }

  /** For an unchanged list, everything a claim is pushed to is deleted; and deletion touches more only for a
      claim that names a namespace which its ClusterEnvironment does not have. */
  lemma UnchangedListIsCovered(t: Target, envs: seq<Env>, p: Place)
    ensures PushedTo(t, envs, p) ==> DeletedFrom(t, envs, p)
    ensures DeletedFrom(t, envs, p) && !PushedTo(t, envs, p) ==>
              t.ByContext? && p == Place(t.id, t.ns) && forall e :: e in envs && e.id == t.id ==> t.ns !in e.namespaces
  {
  }

  function PlacesIn(e: Env, nss: seq<string>): set<Place> {
    set ns | ns in nss :: Place(e.id, ns)
  }

  /** The namespaces that are pushed to when only one is named. */
  function Matching(e: Env, nss: seq<string>, only: Option<string>): set<Place> {
    set ns | ns in nss && (only.None? || only.value == ns) :: Place(e.id, ns)
  }

  lemma PlacesGrow(e: Env, nss: seq<string>, i: nat)
    requires i < |nss|
    ensures PlacesIn(e, nss[..i + 1]) == PlacesIn(e, nss[..i]) + {Place(e.id, nss[i])}
  {
  }

  lemma MatchingGrows(e: Env, nss: seq<string>, only: Option<string>, i: nat)
    requires i < |nss|
    ensures Matching(e, nss[..i + 1], only) ==
            Matching(e, nss[..i], only) + if only.None? || only.value == nss[i] then {Place(e.id, nss[i])} else {}
  {
  }

  /** Of the targets, no more are missing than calls failed, and nothing else was added. */
  ghost predicate PushedOf(start: set<Place>, targets: set<Place>, now: set<Place>, failed: int) {
    start <= now <= start + targets && |targets - now| <= failed && (failed == 0 ==> now == start + targets)
  }

  lemma PushedOneMore(
    start: set<Place>, targets: set<Place>, before: set<Place>, failed: nat, p: Place, now: set<Place>, done: bool)
    requires PushedOf(start, targets, before, failed)
    requires now == before + {p} || (!done && now == before)
    ensures forall failed' :: failed' >= failed + (if done then 0 else 1) && (done ==> failed' == failed) ==>
              PushedOf(start, targets + {p}, now, failed')
  {
    OneMoreTried(targets - before, targets + {p} - now, p, done);
  }

  /** A claim that is marked for deletion, and the namespaces that hold a service binding of its name. */
  class Claim {
    const target: Target
    var bindings: set<Place>
    var finalizer: bool

    /** How many calls did not get through or had an error as answer. */
    ghost var failures: nat

    constructor (t: Target)
      ensures target == t && bindings == {} && finalizer && failures == 0
    {
      target, bindings, finalizer, failures := t, {}, true, 0;
    }

    /** A call gets its answer, or it counts as failed. */
    method Call() returns (ok: bool)
      modifies this`failures
      ensures old(failures) <= failures && (ok <==> failures == old(failures))
    {
      ok := *;
      failures := failures + if ok then 0 else 1;
    }

    /** A write, which may be applied although it failed. */
    method Write() returns (applied: bool, ok: bool)
      modifies this`failures
      ensures old(failures) <= failures && (ok <==> failures == old(failures))
      ensures ok ==> applied
    {
      applied := *;
      var answered: bool := *;
      ok := applied && answered;
      failures := failures + if ok then 0 else 1;
    }

    method PushTo(p: Place) returns (ok: bool)
      modifies this`bindings, this`failures
      ensures old(failures) <= failures && (ok <==> failures == old(failures))
      ensures bindings == old(bindings) + {p} || (!ok && bindings == old(bindings))
    {
      var applied;
      applied, ok := Write();
      if applied {
        bindings := bindings + {p};
      }
    }

    method PushOneMore(ghost start: set<Place>, ghost targets: set<Place>, ghost failed: nat, p: Place)
      returns (ok: bool)
      requires failed <= failures && PushedOf(start, targets, bindings, failures - failed)
      modifies this`bindings, this`failures
      ensures old(failures) <= failures && (ok <==> failures == old(failures))
      ensures PushedOf(start, targets + {p}, bindings, failures - failed)
    {
      ok := PushTo(p);
      PushedOneMore(start, targets, old(bindings), old(failures) - failed, p, bindings, ok);
      assert failures - failed >= old(failures) - failed + if ok then 0 else 1;
    }

    method DeleteAt(p: Place) returns (ok: bool)
      modifies this`bindings, this`failures
      ensures old(failures) <= failures && (ok <==> failures == old(failures))
      ensures bindings == old(bindings) - {p} || (!ok && bindings == old(bindings))
    {
      var applied;
      applied, ok := Write();
      if applied {
        bindings := bindings - {p};
      }
    }

    /** `PushServiceBinding` into the namespaces of one ClusterEnvironment; a failure in one namespace does
        not keep the others from getting the binding. */
    method PushServiceBinding(e: Env, only: Option<string>) returns (ok: bool)
      modifies this`bindings, this`failures
      ensures old(bindings) <= bindings <= old(bindings) + Matching(e, e.namespaces, only)
      ensures old(failures) <= failures && (ok <==> failures == old(failures))
      ensures ok ==> bindings == old(bindings) + Matching(e, e.namespaces, only)
      ensures |Matching(e, e.namespaces, only) - bindings| <= failures - old(failures)
    {
      ok := true;
      ghost var targets, start := {}, bindings;
      for i := 0 to |e.namespaces|
        invariant targets == Matching(e, e.namespaces[..i], only)
        invariant PushedOf(start, targets, bindings, failures - old(failures))
        invariant old(failures) <= failures && (ok <==> failures == old(failures))
      {
        MatchingGrows(e, e.namespaces, only, i);
        if only.None? || only.value == e.namespaces[i] {
          var done := PushOneMore(start, targets, old(failures), Place(e.id, e.namespaces[i]));
          ok := ok && done;
          targets := targets + {Place(e.id, e.namespaces[i])};
        }
      }
      assert e.namespaces[..|e.namespaces|] == e.namespaces;
    }

    /** `pushToClusterEnvironments`: only push targets get a binding, and all of them do unless there was an
        error or the listing was missing. `got` is the ClusterEnvironment that the claim names, if any. */
    method PushToClusterEnvironments(got: Option<Env>, listing: Listing) returns (ok: bool)
      requires target.ByContext? && got.Some? ==> got.value.id == target.id
      modifies this`bindings, this`failures
      ensures forall p :: p in bindings && p !in old(bindings) ==> PushedTo(target, Reachable(got, listing), p)
      ensures old(bindings) <= bindings
      ensures ok && !(target.ByTag? && listing.Missing?) ==>
                forall p :: PushedTo(target, Reachable(got, listing), p) ==> p in bindings
      ensures old(failures) <= failures && (ok <==> failures == old(failures) && Reached(got, listing))
    {
      if target.ByContext? {
        if got.None? {
          return false;
        }
        var connected := Call();
        if !connected {
          return false;
        }
        assert got.value in [got.value];
        ok := PushServiceBinding(got.value, Some(target.ns));
        return;
      }
      if !listing.Listed? {
        return listing.Missing?;
      }
      ok := true;
      for i := 0 to |listing.envs|
        invariant old(bindings) <= bindings
        invariant forall p :: p in bindings && p !in old(bindings) ==> PushedTo(target, listing.envs[..i], p)
        invariant ok ==> forall p :: PushedTo(target, listing.envs[..i], p) ==> p in bindings
        invariant old(failures) <= failures && (ok <==> failures == old(failures))
      {
        var e := listing.envs[i];
        assert listing.envs[..i + 1] == listing.envs[..i] + [e];
        ghost var before := bindings;
        var connected := Call();
        if !connected {
          assert forall x :: x in listing.envs[..i] ==> x in listing.envs;
          return false;
        }
        if e.tag == target.tag {
          var pushed := PushServiceBinding(e, None);
          ok := ok && pushed;
        }
        assert e in listing.envs[..i + 1];
        assert forall x :: x in listing.envs[..i + 1] <==> x in listing.envs[..i] || x == e;
      }
      assert listing.envs[..|listing.envs|] == listing.envs;
    }

    /** `DeleteServiceBindingAndSecretFromNamespaces`; that there is no binding is no error. */
    method DeleteFromNamespaces(e: Env, namespaces: seq<string>) returns (ok: bool)
      modifies this`bindings, this`failures
      ensures old(bindings) - PlacesIn(e, namespaces) <= bindings <= old(bindings)
      ensures old(failures) <= failures && (ok <==> failures == old(failures))
      ensures ok ==> bindings == old(bindings) - PlacesIn(e, namespaces)
      ensures |PlacesIn(e, namespaces) * bindings| <= failures - old(failures)
    {
      ok := true;
      for i := 0 to |namespaces|
        invariant old(bindings) - PlacesIn(e, namespaces[..i]) <= bindings <= old(bindings)
        invariant ok ==> bindings == old(bindings) - PlacesIn(e, namespaces[..i])
        invariant old(failures) <= failures && (ok <==> failures == old(failures))
        invariant |PlacesIn(e, namespaces[..i]) * bindings| <= failures - old(failures)
      {
        ghost var before := PlacesIn(e, namespaces[..i]) * bindings;
        PlacesGrow(e, namespaces, i);
        var done := DeleteAt(Place(e.id, namespaces[i]));
        ok := ok && done;
        OneMoreTried(before, PlacesIn(e, namespaces[..i + 1]) * bindings, Place(e.id, namespaces[i]), done);
      }
      assert namespaces[..|namespaces|] == namespaces;
    }

    method DeleteFromListed(envs: seq<Env>) returns (ok: bool)
      requires target.ByTag?
      modifies this`bindings, this`failures
      ensures bindings <= old(bindings)
      ensures forall p :: p in old(bindings) && p !in bindings ==> DeletedFrom(target, envs, p)
      ensures ok ==> forall p :: p in bindings ==> !DeletedFrom(target, envs, p)
      ensures old(failures) <= failures && (ok <==> failures == old(failures))
    {
      ok := true;
      for i := 0 to |envs|
        invariant bindings <= old(bindings)
        invariant forall p :: p in old(bindings) && p !in bindings ==> DeletedFrom(target, envs[..i], p)
        invariant ok ==> forall p :: p in bindings ==> !DeletedFrom(target, envs[..i], p)
        invariant old(failures) <= failures && (ok <==> failures == old(failures))
      {
        var e := envs[i];
        assert envs[..i + 1] == envs[..i] + [e];
        var connected := Call();
        if !connected {
          assert forall x :: x in envs[..i] ==> x in envs;
          return false;
        }
        if e.tag == target.tag {
          var deleted := DeleteFromNamespaces(e, e.namespaces);
          ok := ok && deleted;
        }
        assert e in envs[..i + 1];
        assert forall x :: x in envs[..i + 1] <==> x in envs[..i] || x == e;
      }
      assert envs[..|envs|] == envs;
    }

    /** `DeleteServiceBindingsAndSecret`. */
    method DeleteServiceBindings(got: Option<Env>, listing: Listing) returns (ok: bool)
      requires target.ByContext? && got.Some? ==> got.value.id == target.id
      modifies this`bindings, this`failures
      ensures bindings <= old(bindings)
      ensures forall p :: p in old(bindings) && p !in bindings ==> DeletedFrom(target, Reachable(got, listing), p)
      ensures ok && !(target.ByTag? && listing.Missing?) ==>
                forall p :: p in bindings ==> !DeletedFrom(target, Reachable(got, listing), p)
      ensures target.ByTag? && listing.Missing? ==> ok && bindings == old(bindings)
      ensures old(failures) <= failures && (ok <==> failures == old(failures) && Reached(got, listing))
    {
      if target.ByContext? {
        if got.None? {
          return false;
        }
        var connected := Call();
        if !connected {
          return false;
        }
        assert got.value in [got.value];
        ok := DeleteFromNamespaces(got.value, [target.ns]);
        return;
      }
      if !listing.Listed? {
        return listing.Missing?;
      }
      ok := DeleteFromListed(listing.envs);
    }

    /** The write without the finalizer. */
    method RemoveFinalizer() returns (ok: bool)
      modifies this`finalizer, this`failures
      ensures !finalizer || (!ok && finalizer == old(finalizer))
      ensures old(failures) <= failures && (ok <==> failures == old(failures))
    {
      var applied;
      applied, ok := Write();
      if applied {
        finalizer := false;
      }
    }

    /** The named ClusterEnvironment could be read, or the listing gave something, if only that there is nothing. */
    ghost predicate Reached(got: Option<Env>, listing: Listing) {
      if target.ByContext? then got.Some? else !listing.Broken?
    }

    /** No binding is left in the deletion set. */
    ghost predicate NothingLeft(got: Option<Env>, listing: Listing)
      reads this
    {
      forall p :: p in bindings ==> !DeletedFrom(target, Reachable(got, listing), p)
    }

    /** The ClusterEnvironments a call gets to see. */
    ghost function Reachable(got: Option<Env>, listing: Listing): seq<Env> {
      if target.ByContext? then if got.Some? then [got.value] else []
      else if listing.Listed? then listing.envs else []
    }
  }
}
