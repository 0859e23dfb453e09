/** What unbinding leaves of a binding, and the application agent's list of bound workloads: `Connections` is reset
    and refilled on every bind, and deletion unbinds what it lists
    (controllers/agents/app/servicebinding_controller.go and servicebinding_controller_informers.go). */
module Finalization {
  import opened Wrappers
  import opened RangeDelete
  import opened Projection
  import opened BindingLaws

  // -- one workload ---------------------------------------------------------------------------------------

  predicate RefersTo(e: EnvVar, secret: string) {
    e.source.SecretKey? && e.source.secret == secret
  }

  predicate CarriesIn(b: Binding, c: Container) {
    (exists m :: m in c.mounts && m.name == b.name) || (exists e :: e in c.env && RefersTo(e, b.secret))
  }

  /** Something of the binding is in the workload: its volume, a mount of it, or a reference to its secret. */
  predicate Holds(b: Binding, w: Workload) {
    || (exists v :: v in Volumes(w) && v.name == b.name)
    || (exists c :: c in w.containers && CarriesIn(b, c))
    || (exists c :: c in w.initContainers && CarriesIn(b, c))
  }

  /** The loop that deletes from a list while ranging over it gets them all: at most one element matches, or no
      two neighbours and not the last one. */
  ghost predicate Deletable<T>(s: seq<T>, p: T -> bool) {
    AtMostOne(s, p) || (Spaced(s, p) && (|s| > 0 ==> !p(s[|s| - 1])))
  }

  /** A matching element survives exactly where two neighbours match. */
  lemma {:induction false} NoneSurvives<T(!new)>(s: seq<T>, p: T -> bool)
    ensures NoneMatches(Survivors(s, p), p) <==> Spaced(s, p)
    decreases |s|
  {
    if s == [] {
    } else if !p(s[0]) {
      NoneSurvives(s[1..], p);
      SpacedTail(s, p);
      assert Survivors(s, p)[1..] == Survivors(s[1..], p);
    } else if |s| > 1 {
      NoneSurvives(s[2..], p);
      SpacedTail(s, p);
      SpacedTail(s[1..], p);
      assert s[1..][1..] == s[2..];
      assert Survivors(s, p)[0] == s[1] && Survivors(s, p)[1..] == Survivors(s[2..], p);
    }
  }

  ghost predicate NoneMatches<T>(s: seq<T>, p: T -> bool) {
    forall k :: 0 <= k < |s| ==> !p(s[k])
  }

  lemma DeletesAllExactlyWhen<T(!new)>(s: seq<T>, p: T -> bool)
    ensures DeleteRanging(s, p).Some? <==> !OutOfBounds(s, p)
    ensures DeleteRanging(s, p).Some? && NoneMatches(DeleteRanging(s, p).value, p) <==> Deletable(s, p)
  {
    LoopIs(s, p);
    NoneSurvives(s, p);
    SurvivorsIsFilter(s, p);
    DeletesExactlyMatching(s, p);
  }

  ghost predicate ContainerPanics(b: Binding, c: Container) {
    OutOfBounds(c.mounts, NamedMount(b.name)) || OutOfBounds(c.env, NamedEnv(SERVICE_BINDING_ROOT))
  }

  /** Unbinding makes a loop run out of bounds: the last volume or mount of a list has the name of the binding and
      an earlier one too, or the last variable is a SERVICE_BINDING_ROOT and an earlier one too. */
  ghost predicate Panics(b: Binding, w: Workload) {
    && w.volumes.Some?
    && (|| OutOfBounds(w.volumes.value, NamedVolume(b.name))
        || (exists c :: c in w.containers + w.initContainers && ContainerPanics(b, c)))
  }

  ghost predicate ReleasableContainer(b: Binding, c: Container) {
    Deletable(c.mounts, NamedMount(b.name)) && !OutOfBounds(c.env, NamedEnv(SERVICE_BINDING_ROOT))
  }

  /** The volumes and mounts of the binding's name can be deleted, and in no container is the last variable a
      SERVICE_BINDING_ROOT and an earlier one too. A workload without a list of volumes is left alone. */
  ghost predicate Releasable(b: Binding, w: Workload) {
    if w.volumes.None? then !Holds(b, w)
    else
      && Deletable(w.volumes.value, NamedVolume(b.name))
      && forall c :: c in w.containers + w.initContainers ==> ReleasableContainer(b, c)
  }

  lemma {:induction false} UnbindContainersPointwise(b: Binding, cs: seq<Container>)
    ensures UnbindContainers(b, cs).Some? <==> forall i :: 0 <= i < |cs| ==> UnbindContainer(b, cs[i]).Some?
    ensures UnbindContainers(b, cs).Some? ==>
      && |UnbindContainers(b, cs).value| == |cs|
      && forall i :: 0 <= i < |cs| ==> UnbindContainer(b, cs[i]) == Some(UnbindContainers(b, cs).value[i])
  {
    if cs != [] {
      UnbindContainersPointwise(b, cs[..|cs| - 1]);
    }
  }

  lemma ContainerPanicsExactlyWhen(b: Binding, c: Container)
    ensures UnbindContainer(b, c).None? <==> ContainerPanics(b, c)
  {
    LoopIs(c.mounts, NamedMount(b.name));
    LoopIs(c.env, NamedEnv(SERVICE_BINDING_ROOT));
  }

  lemma ContainersPanicExactlyWhen(b: Binding, cs: seq<Container>)
    ensures UnbindContainers(b, cs).None? <==> exists c :: c in cs && ContainerPanics(b, c)
  {
    UnbindContainersPointwise(b, cs);
    forall c {
      ContainerPanicsExactlyWhen(b, c);
    }
  }

  lemma PanicsExactlyWhen(b: Binding, w: Workload)
    ensures Unbind(b, w).None? <==> Panics(b, w)
  {
    if w.volumes.Some? {
      LoopIs(w.volumes.value, NamedVolume(b.name));
      ContainersPanicExactlyWhen(b, w.containers);
      ContainersPanicExactlyWhen(b, w.initContainers);
    }
  }

  lemma ReleasesContainerExactlyWhen(b: Binding, c: Container)
    ensures UnbindContainer(b, c).Some? && !CarriesIn(b, UnbindContainer(b, c).value) <==> ReleasableContainer(b, c)
  {
    DeletesAllExactlyWhen(c.mounts, NamedMount(b.name));
    DeletesAllExactlyWhen(c.env, NamedEnv(SERVICE_BINDING_ROOT));
    if UnbindContainer(b, c).Some? {
      KeepForeignMembers(DeleteRanging(c.env, NamedEnv(SERVICE_BINDING_ROOT)).value, b.secret);
    }
  }

  lemma ReleasesContainersExactlyWhen(b: Binding, cs: seq<Container>)
    ensures (UnbindContainers(b, cs).Some? && forall d :: d in UnbindContainers(b, cs).value ==> !CarriesIn(b, d))
       <==> forall c :: c in cs ==> ReleasableContainer(b, c)
  {
    UnbindContainersPointwise(b, cs);
    forall c {
      ReleasesContainerExactlyWhen(b, c);
    }
    if UnbindContainers(b, cs).Some? {
      var ds := UnbindContainers(b, cs).value;
      forall i | 0 <= i < |cs| ensures ds[i] in ds && cs[i] in cs && UnbindContainer(b, cs[i]) == Some(ds[i]) {
      }
    }
  }

  /** Unbinding a workload does not panic and leaves nothing of the binding if and only if the workload is
      releasable. */
  lemma ReleasesExactlyWhen(b: Binding, w: Workload)
    ensures Unbind(b, w).Some? && !Holds(b, Unbind(b, w).value) <==> Releasable(b, w)
  {
    if w.volumes.Some? {
      DeletesAllExactlyWhen(w.volumes.value, NamedVolume(b.name));
      ReleasesContainersExactlyWhen(b, w.containers);
      ReleasesContainersExactlyWhen(b, w.initContainers);
    }
  }

  function ReleasedContainer(b: Binding, c: Container): Container {
    c.(env := KeepForeign(Filter(c.env, NamedEnv(SERVICE_BINDING_ROOT)), b.secret),
       mounts := Filter(c.mounts, NamedMount(b.name)))
  }

  function ReleasedContainers(b: Binding, cs: seq<Container>): seq<Container> {
    seq(|cs|, i requires 0 <= i < |cs| => ReleasedContainer(b, cs[i]))
  }

  /** The workload without the binding: its volume, its mounts, its variables, every literal and
      SERVICE_BINDING_ROOT gone, and everything else in place. */
  function Released(b: Binding, w: Workload): Workload {
    if w.volumes.None? then w
    else Workload(Some(Filter(w.volumes.value, NamedVolume(b.name))),
                  ReleasedContainers(b, w.containers), ReleasedContainers(b, w.initContainers))
  }

  ghost predicate DeletableContainer(b: Binding, c: Container) {
    Deletable(c.mounts, NamedMount(b.name)) && Deletable(c.env, NamedEnv(SERVICE_BINDING_ROOT))
  }

  lemma {:induction false} UnbindContainersIsRelease(b: Binding, cs: seq<Container>)
    requires forall c :: c in cs ==> DeletableContainer(b, c)
    ensures UnbindContainers(b, cs) == Some(ReleasedContainers(b, cs))
  {
    if cs != [] {
      var init, last := cs[..|cs| - 1], cs[|cs| - 1];
      UnbindContainersIsRelease(b, init);
      assert DeletableContainer(b, last);
      LoopIs(last.mounts, NamedMount(b.name));
      LoopIs(last.env, NamedEnv(SERVICE_BINDING_ROOT));
      DeletesExactlyMatching(last.mounts, NamedMount(b.name));
      DeletesExactlyMatching(last.env, NamedEnv(SERVICE_BINDING_ROOT));
      assert ReleasedContainers(b, cs) == ReleasedContainers(b, init) + [ReleasedContainer(b, last)];
    }
  }

  /** Where every list can be deleted from, the loops filter them, and order and everything else stay. */
  lemma UnbindIsRelease(b: Binding, w: Workload)
    requires Deletable(Volumes(w), NamedVolume(b.name))
    requires forall c :: c in w.containers + w.initContainers ==> DeletableContainer(b, c)
    ensures Unbind(b, w) == Some(Released(b, w))
  {
    if w.volumes.Some? {
      LoopIs(w.volumes.value, NamedVolume(b.name));
      DeletesExactlyMatching(w.volumes.value, NamedVolume(b.name));
      UnbindContainersIsRelease(b, w.containers);
      UnbindContainersIsRelease(b, w.initContainers);
    }
  }

  lemma BoundHolds(b: Binding, w: Workload)
    ensures Holds(b, Bind(b, w))
  {
    UpsertHas(Volumes(w), BindingVolume(b), NamedVolume(b.name));
    assert BindingVolume(b) in Volumes(Bind(b, w));
  }

  // -- unbinding after binding ----------------------------------------------------------------------------

  /** Overwriting a match or appending one does not change whether all matches can be deleted. */
  lemma UpsertDeletable<T>(s: seq<T>, x: T, same: T -> bool)
    requires same(x)
    ensures Deletable(Upsert(s, x, same), same) <==> Deletable(s, same)
  {
    if exists e :: e in s && same(e) {
      var j := FirstMatch(s, same);
      UpsertSplits(s, x, same, j);
      var t := s[j := x];
      SamePattern(s, t, same);
    } else {
      UpsertSplits(s, x, same, |s|);
      assert forall k :: 0 <= k < |s| ==> s[k] in s;
      assert AtMostOne(s, same) && AtMostOne(s + [x], same);
    }
  }

  lemma SamePattern<T>(s: seq<T>, t: seq<T>, p: T -> bool)
    requires |s| == |t| && forall k :: 0 <= k < |s| ==> (p(t[k]) <==> p(s[k]))
    ensures Deletable(s, p) <==> Deletable(t, p)
  {
  }

  /** The variables after a bind make unbinding panic exactly when those that are kept and projected do; the
      literal that is appended is the only one of its name. */
  lemma BoundOutOfBounds(b: Binding, env: seq<EnvVar>)
    requires b.name != ""
    ensures OutOfBounds(BoundEnv(b, env), NamedEnv(SERVICE_BINDING_ROOT))
       <==> OutOfBounds(OwnVars(b, env), NamedEnv(SERVICE_BINDING_ROOT))
  {
    var own := OwnVars(b, env);
    RootPathNonEmpty(own, b.name);
    if RootMountPath(own, b.name) == "" {
      assert forall k :: 0 <= k < |own| ==> own[k] in own && own[k].name != SERVICE_BINDING_ROOT;
    } else {
      assert BoundEnv(b, env) == own;
    }
  }

  /** What binding needs of a container so that unbinding releases it. */
  ghost predicate BindableContainer(b: Binding, c: Container) {
    Deletable(c.mounts, NamedMount(b.name)) && !OutOfBounds(OwnVars(b, c.env), NamedEnv(SERVICE_BINDING_ROOT))
  }

  ghost predicate Bindable(b: Binding, w: Workload) {
    && Deletable(Volumes(w), NamedVolume(b.name))
    && forall c :: c in w.containers + w.initContainers ==> BindableContainer(b, c)
  }

  lemma ReleasableContainerAfterBind(b: Binding, c: Container)
    requires b.name != ""
    ensures ReleasableContainer(b, BindContainer(b, c)) <==> BindableContainer(b, c)
  {
    UpsertDeletable(c.mounts, BoundMount(b, c.env), NamedMount(b.name));
    BoundOutOfBounds(b, c.env);
  }

  lemma ReleasableContainersAfterBind(b: Binding, cs: seq<Container>)
    requires b.name != ""
    ensures (forall c :: c in BindContainers(b, cs) ==> ReleasableContainer(b, c))
       <==> (forall c :: c in cs ==> BindableContainer(b, c))
  {
    var ds := BindContainers(b, cs);
    forall i | 0 <= i < |cs|
      ensures ds[i] in ds && cs[i] in cs && (ReleasableContainer(b, ds[i]) <==> BindableContainer(b, cs[i]))
    {
      ReleasableContainerAfterBind(b, cs[i]);
    }
  }

  /** A workload is releasable after a bind if and only if it was bindable: any binding, also one that declares
      SERVICE_BINDING_ROOT, unless the variables that are kept and projected end in a SERVICE_BINDING_ROOT and
      have an earlier one. */
  lemma ReleasableAfterBind(b: Binding, w: Workload)
    requires b.name != ""
    ensures Releasable(b, Bind(b, w)) <==> Bindable(b, w)
  {
    UpsertDeletable(Volumes(w), BindingVolume(b), NamedVolume(b.name));
    ReleasableContainersAfterBind(b, w.containers);
    ReleasableContainersAfterBind(b, w.initContainers);
  }

  // -- other bindings -------------------------------------------------------------------------------------

  ghost predicate Apart(b: Binding, o: Binding) {
    b.name != o.name && b.secret != o.secret
  }

  lemma {:induction false} UpsertWithin<T>(s: seq<T>, x: T, same: T -> bool)
    ensures forall e :: e in Upsert(s, x, same) ==> e == x || e in s
  {
    if s != [] && !same(s[0]) {
      UpsertWithin(s[1..], x, same);
    }
  }

  lemma OtherBindKeepsContainer(b: Binding, o: Binding, c: Container)
    requires Apart(b, o)
    ensures CarriesIn(b, BindContainer(o, c)) <==> CarriesIn(b, c)
  {
    var d := BindContainer(o, c);
    UpsertWithin(c.mounts, BoundMount(o, c.env), NamedMount(o.name));
    if m :| m in c.mounts && m.name == b.name {
      UpsertKeeps(c.mounts, BoundMount(o, c.env), NamedMount(o.name), m);
      assert m in d.mounts;
    }
    KeepForeignMembers(c.env, o.secret);
    forall e | RefersTo(e, b.secret) ensures e in d.env <==> e in c.env {
    }
  }

  lemma OtherBindKeepsContainers(b: Binding, o: Binding, cs: seq<Container>)
    requires Apart(b, o)
    ensures (exists c :: c in BindContainers(o, cs) && CarriesIn(b, c)) <==> (exists c :: c in cs && CarriesIn(b, c))
  {
    forall c {
      OtherBindKeepsContainer(b, o, c);
    }
    forall i | 0 <= i < |cs| ensures BindContainer(o, cs[i]) in BindContainers(o, cs) {
      assert BindContainers(o, cs)[i] == BindContainer(o, cs[i]);
    }
  }

  lemma OtherBindKeeps(b: Binding, o: Binding, w: Workload)
    requires Apart(b, o)
    ensures Holds(b, Bind(o, w)) <==> Holds(b, w)
  {
    UpsertWithin(Volumes(w), BindingVolume(o), NamedVolume(o.name));
    if v :| v in Volumes(w) && v.name == b.name {
      UpsertKeeps(Volumes(w), BindingVolume(o), NamedVolume(o.name), v);
      assert v in Volumes(Bind(o, w));
    }
    OtherBindKeepsContainers(b, o, w.containers);
    OtherBindKeepsContainers(b, o, w.initContainers);
  }

  lemma {:induction false} OthersSurvive<T>(s: seq<T>, p: T -> bool, e: T)
    requires !p(e)
    ensures e in Survivors(s, p) <==> e in s
    decreases |s|
  {
    if s == [] {
    } else if !p(s[0]) {
      OthersSurvive(s[1..], p, e);
      assert s == [s[0]] + s[1..];
    } else if |s| > 1 {
      OthersSurvive(s[2..], p, e);
      assert s == [s[0], s[1]] + s[2..];
    }
  }

  /** Unbinding another binding takes nothing of this one away except SERVICE_BINDING_ROOT variables. */
  lemma OtherUnbindKeeps(b: Binding, o: Binding, c: Container, m: Mount, e: EnvVar)
    requires Apart(b, o) && UnbindContainer(o, c).Some? && m.name == b.name && RefersTo(e, b.secret)
    ensures m in UnbindContainer(o, c).value.mounts <==> m in c.mounts
    ensures e.name != SERVICE_BINDING_ROOT ==> (e in UnbindContainer(o, c).value.env <==> e in c.env)
    ensures e in UnbindContainer(o, c).value.env ==> e in c.env
  {
    LoopIs(c.mounts, NamedMount(o.name));
    LoopIs(c.env, NamedEnv(SERVICE_BINDING_ROOT));
    OthersSurvive(c.mounts, NamedMount(o.name), m);
    var left := Survivors(c.env, NamedEnv(SERVICE_BINDING_ROOT));
    SurvivorsWithin(c.env, NamedEnv(SERVICE_BINDING_ROOT));
    KeepForeignMembers(left, o.secret);
    if e.name != SERVICE_BINDING_ROOT {
      OthersSurvive(c.env, NamedEnv(SERVICE_BINDING_ROOT), e);
    }
  }

  lemma OtherUnbindOfContainer(b: Binding, o: Binding, c: Container)
    requires Apart(b, o) && UnbindContainer(o, c).Some? && CarriesIn(b, UnbindContainer(o, c).value)
    ensures CarriesIn(b, c)
  {
    LoopIs(c.mounts, NamedMount(o.name));
    LoopIs(c.env, NamedEnv(SERVICE_BINDING_ROOT));
    SurvivorsWithin(c.mounts, NamedMount(o.name));
    SurvivorsWithin(c.env, NamedEnv(SERVICE_BINDING_ROOT));
    KeepForeignMembers(Survivors(c.env, NamedEnv(SERVICE_BINDING_ROOT)), o.secret);
  }

  lemma OtherUnbindOfContainers(b: Binding, o: Binding, cs: seq<Container>)
    requires Apart(b, o) && UnbindContainers(o, cs).Some?
    requires exists d :: d in UnbindContainers(o, cs).value && CarriesIn(b, d)
    ensures exists c :: c in cs && CarriesIn(b, c)
  {
    UnbindContainersPointwise(o, cs);
    var i :| 0 <= i < |cs| && CarriesIn(b, UnbindContainers(o, cs).value[i]);
    OtherUnbindOfContainer(b, o, cs[i]);
  }

  lemma OtherUnbindAddsNothing(b: Binding, o: Binding, w: Workload)
    requires Apart(b, o) && Unbind(o, w).Some? && Holds(b, Unbind(o, w).value)
    ensures Holds(b, w)
  {
    if w.volumes.Some? {
      LoopIs(w.volumes.value, NamedVolume(o.name));
      SurvivorsWithin(w.volumes.value, NamedVolume(o.name));
      if exists d :: d in UnbindContainers(o, w.containers).value && CarriesIn(b, d) {
        OtherUnbindOfContainers(b, o, w.containers);
      }
      if exists d :: d in UnbindContainers(o, w.initContainers).value && CarriesIn(b, d) {
        OtherUnbindOfContainers(b, o, w.initContainers);
      }
    }
  }

  // -- all workloads --------------------------------------------------------------------------------------

  type Workloads = map<string, Workload>

  /** Every workload that has something of the binding is listed. */
  ghost predicate Tracked(b: Binding, ws: Workloads, connections: seq<string>) {
    forall n :: n in ws && Holds(b, ws[n]) ==> n in connections
  }

  function AllBound(b: Binding, ws: Workloads, apps: seq<string>): Workloads {
    map n | n in ws :: if n in apps then Bind(b, ws[n]) else ws[n]
  }

  function AllUnbound(b: Binding, ws: Workloads, connections: seq<string>): Workloads {
    map n | n in ws :: if n in connections && Unbind(b, ws[n]).Some? then Unbind(b, ws[n]).value else ws[n]
  }

  /** No listed workload makes unbinding panic. */
  ghost predicate NonePanics(b: Binding, ws: Workloads, connections: seq<string>) {
    forall n :: n in ws && n in connections ==> Unbind(b, ws[n]).Some?
  }

  ghost predicate NothingHeld(b: Binding, ws: Workloads) {
    forall n :: n in ws ==> !Holds(b, ws[n])
  }

  /** Unbinding what is listed does not panic and leaves nothing of the binding anywhere if and only if everything
      that has something of it is listed, and every listed workload is releasable. */
  lemma LeavesNothingExactlyWhen(b: Binding, ws: Workloads, connections: seq<string>)
    ensures NonePanics(b, ws, connections) && NothingHeld(b, AllUnbound(b, ws, connections))
       <==> Tracked(b, ws, connections) && forall n :: n in ws && n in connections ==> Releasable(b, ws[n])
  {
    var left := AllUnbound(b, ws, connections);
    forall n | n in ws && n in connections
      ensures Unbind(b, ws[n]).Some? && !Holds(b, left[n]) <==> Releasable(b, ws[n])
    {
      ReleasesExactlyWhen(b, ws[n]);
    }
    assert forall n :: n in ws && n !in connections ==> left[n] == ws[n];
  }

  /** Binding resets the list to the workloads it was called with: everything is tracked afterwards if and only
      if nothing else had something of the binding. */
  lemma BindTracksExactlyWhen(b: Binding, ws: Workloads, apps: seq<string>)
    ensures Tracked(b, AllBound(b, ws, apps), apps) <==> forall n :: n in ws && n !in apps ==> !Holds(b, ws[n])
  {
  }

  /** Binding `apps` and finalizing afterwards does not panic and releases every workload if and only if no
      workload outside of `apps` was bound and those of `apps` were bindable: so a full reconcile of the selected
      workloads is undone completely, while after the event of a single workload (`apps` is just that one) all
      the other bound workloads stay bound. */
  lemma BindThenFinalizeExactlyWhen(b: Binding, ws: Workloads, apps: seq<string>)
    requires b.name != ""
    ensures NonePanics(b, AllBound(b, ws, apps), apps) && NothingHeld(b, AllUnbound(b, AllBound(b, ws, apps), apps))
       <==> (forall n :: n in ws && n !in apps ==> !Holds(b, ws[n]))
            && (forall n :: n in ws && n in apps ==> Bindable(b, ws[n]))
  {
    var bound := AllBound(b, ws, apps);
    LeavesNothingExactlyWhen(b, bound, apps);
    BindTracksExactlyWhen(b, ws, apps);
    forall n | n in ws && n in apps ensures Releasable(b, bound[n]) <==> Bindable(b, ws[n]) {
      ReleasableAfterBind(b, ws[n]);
    }
  }
}
