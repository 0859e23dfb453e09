/** Several bindings on one workload: the informers re-trigger bindings in any order and any number of times,
    and the outcome does not depend on it. */
module BindingConfluence {
  import opened RangeDelete
  import opened Projection
  import opened BindingLaws

  predicate InRange(bs: seq<Binding>, run: seq<nat>) {
    forall k :: 0 <= k < |run| ==> run[k] < |bs|
  }

  /** The workload after binding `bs[run[0]]`, `bs[run[1]]`, and so on. */
  function BindAll(bs: seq<Binding>, run: seq<nat>, w: Workload): Workload
    requires InRange(bs, run)
  {
    if run == [] then w
    else Bind(bs[run[|run| - 1]], BindAll(bs, run[..|run| - 1], w))
  }

  ghost predicate Covers(bs: seq<Binding>, run: seq<nat>) {
    InRange(bs, run) && forall k :: 0 <= k < |bs| ==> k in run
  }

  /** One of the variables of the binding is SERVICE_BINDING_ROOT. */
  predicate DeclaresRoot(b: Binding) {
    exists e :: e in b.envs && e.name == SERVICE_BINDING_ROOT
  }

  /** The bindings have names, which differ, and so do their secrets. */
  ghost predicate Independent(bs: seq<Binding>) {
    && (forall i, j :: 0 <= i < j < |bs| ==> bs[i].name != bs[j].name && bs[i].secret != bs[j].secret)
    && (forall i :: 0 <= i < |bs| ==> bs[i].name != "")
  }

  /** All the bindings declare SERVICE_BINDING_ROOT (`rooted`), or none does. */
  ghost predicate Uniform(bs: seq<Binding>, rooted: bool) {
    Independent(bs) && forall i :: 0 <= i < |bs| ==> DeclaresRoot(bs[i]) == rooted
  }

  /** Only literals are named SERVICE_BINDING_ROOT. */
  predicate PlainRoot(env: seq<EnvVar>) {
    forall e :: e in env && e.name == SERVICE_BINDING_ROOT ==> e.source.Literal?
  }

  /** A variable that comes from a secret has no value when the mount path is computed, so the path of a
      rooted binding is its bare name. */
  function StandardMount(b: Binding, rooted: bool): Mount {
    Mount(b.name, if rooted then b.name else PathJoin(BINDINGS_DIR, b.name), true)
  }

  // -- variables --------------------------------------------------------------------------------------

  /** The mount path of a binding: literals are gone by the time it is computed. */
  lemma OwnPath(b: Binding, env: seq<EnvVar>)
    ensures RootMountPath(OwnVars(b, env), b.name) ==
            if DeclaresRoot(b) || exists e :: e in env && Foreign(e, b.secret) && e.name == SERVICE_BINDING_ROOT
            then b.name else ""
  {
    KeepForeignMembers(env, b.secret);
    var own, proj := OwnVars(b, env), Projected(b.envs, b.secret);
    PathWithoutLiterals(own, b.name);
    assert forall k :: 0 <= k < |b.envs| ==> proj[k].name == b.envs[k].name && proj[k] in own;
  }

  function ProjectedCount(b: Binding, e: EnvVar): nat {
    multiset(Projected(b.envs, b.secret))[e]
  }

  lemma ProjectedOnlyOwn(b: Binding, e: EnvVar)
    requires !(e.source.SecretKey? && e.source.secret == b.secret)
    ensures ProjectedCount(b, e) == 0
  {
  }

  /** The variables after one binding, counted. */
  lemma BoundCount(b: Binding, env: seq<EnvVar>, e: EnvVar)
    requires b.name != "" && (PlainRoot(env) || DeclaresRoot(b))
    ensures multiset(BoundEnv(b, env))[e] ==
            if !e.source.SecretKey? then if e == RootVar && !DeclaresRoot(b) then 1 else 0
            else if e.source.secret == b.secret then ProjectedCount(b, e)
            else multiset(env)[e]
  {
    OwnPath(b, env);
    KeepCount(env, b.secret, e);
    if !(e.source.SecretKey? && e.source.secret == b.secret) {
      ProjectedOnlyOwn(b, e);
    }
  }

  lemma BoundPlainRoot(b: Binding, env: seq<EnvVar>)
    requires PlainRoot(env) && !DeclaresRoot(b)
    ensures PlainRoot(BoundEnv(b, env))
  {
    KeepForeignMembers(env, b.secret);
  }

  ghost predicate HasSecret(bs: seq<Binding>, run: seq<nat>, secret: string) {
    exists k :: k in run && k < |bs| && bs[k].secret == secret
  }

  /** How often a variable occurs after a run, told from the set of bindings in it alone. */
  ghost function ExpectedVar(bs: seq<Binding>, run: seq<nat>, rooted: bool, env0: seq<EnvVar>, e: EnvVar): nat {
    if run == [] then multiset(env0)[e]
    else if !e.source.SecretKey? then if e == RootVar && !rooted then 1 else 0
    else if HasSecret(bs, run, e.source.secret) then
      var k :| k in run && k < |bs| && bs[k].secret == e.source.secret;
      ProjectedCount(bs[k], e)
    else multiset(env0)[e]
  }

  ghost predicate EnvIs(bs: seq<Binding>, run: seq<nat>, rooted: bool, env0: seq<EnvVar>, env: seq<EnvVar>) {
    (!rooted ==> PlainRoot(env)) && forall e :: multiset(env)[e] == ExpectedVar(bs, run, rooted, env0, e)
  }

  lemma ExpectedVarStep(bs: seq<Binding>, run: seq<nat>, j: nat, rooted: bool, env0: seq<EnvVar>, e: EnvVar)
    requires Independent(bs) && j < |bs|
    ensures ExpectedVar(bs, run + [j], rooted, env0, e) ==
            if !e.source.SecretKey? then if e == RootVar && !rooted then 1 else 0
            else if e.source.secret == bs[j].secret then ProjectedCount(bs[j], e)
            else ExpectedVar(bs, run, rooted, env0, e)
  {
  }

  lemma EnvStep(bs: seq<Binding>, run: seq<nat>, j: nat, rooted: bool, env0: seq<EnvVar>, env: seq<EnvVar>)
    requires Uniform(bs, rooted) && j < |bs| && EnvIs(bs, run, rooted, env0, env)
    ensures EnvIs(bs, run + [j], rooted, env0, BoundEnv(bs[j], env))
  {
    if !rooted {
      BoundPlainRoot(bs[j], env);
    }
    forall e ensures multiset(BoundEnv(bs[j], env))[e] == ExpectedVar(bs, run + [j], rooted, env0, e) {
      BoundCount(bs[j], env, e);
      ExpectedVarStep(bs, run, j, rooted, env0, e);
    }
  }

  lemma CoversNothing(bs: seq<Binding>, run: seq<nat>)
    requires Covers(bs, run)
    ensures run == [] <==> bs == []
  {
    assert |run| > 0 ==> run[0] < |bs|;
    assert |bs| > 0 ==> 0 in run;
  }

  lemma ExpectedVarAgree(bs: seq<Binding>, r1: seq<nat>, r2: seq<nat>, rooted: bool, env0: seq<EnvVar>, e: EnvVar)
    requires Independent(bs) && Covers(bs, r1) && Covers(bs, r2)
    ensures ExpectedVar(bs, r1, rooted, env0, e) == ExpectedVar(bs, r2, rooted, env0, e)
  {
    CoversNothing(bs, r1);
    CoversNothing(bs, r2);
  }

  lemma EnvAgree(bs: seq<Binding>, r1: seq<nat>, r2: seq<nat>, rooted: bool, env0: seq<EnvVar>,
                 e1: seq<EnvVar>, e2: seq<EnvVar>)
    requires Independent(bs) && Covers(bs, r1) && Covers(bs, r2)
    requires EnvIs(bs, r1, rooted, env0, e1) && EnvIs(bs, r2, rooted, env0, e2)
    ensures multiset(e1) == multiset(e2)
  {
    forall e ensures multiset(e1)[e] == multiset(e2)[e] {
      ExpectedVarAgree(bs, r1, r2, rooted, env0, e);
    }
  }

  // -- mounts and volumes -------------------------------------------------------------------------------

  lemma OnlyAt<T>(s: seq<T>, same: T -> bool, j: nat, y: T)
    requires AtMostOne(s, same) && j < |s| && same(s[j]) && same(y)
    ensures multiset(s)[y] == if y == s[j] then 1 else 0
  {
    assert s == s[..j] + [s[j]] + s[j + 1..];
    assert y !in s[..j] && y !in s[j + 1..];
  }

  lemma UpsertCounts<T>(s: seq<T>, x: T, same: T -> bool, y: T)
    requires same(x) && AtMostOne(s, same)
    ensures multiset(Upsert(s, x, same))[y] == if same(y) then if y == x then 1 else 0 else multiset(s)[y]
  {
    if e :| e in s && same(e) {
      var j := FirstMatch(s, same);
      UpsertSplits(s, x, same, j);
      if same(y) {
        OnlyAt(s, same, j, y);
      }
    } else {
      UpsertSplits(s, x, same, |s|);
      assert same(y) ==> y !in s;
    }
  }

  lemma UpsertSame<T>(s: seq<T>, x: T, same: T -> bool)
    requires same(x) && AtMostOne(s, same)
    ensures AtMostOne(Upsert(s, x, same), same)
  {
  }

  lemma UpsertOther<T>(s: seq<T>, x: T, same: T -> bool, other: T -> bool)
    requires same(x) && forall y :: same(y) ==> !other(y)
    requires AtMostOne(s, other)
    ensures AtMostOne(Upsert(s, x, same), other)
  {
    if e :| e in s && same(e) {
      var j := FirstMatch(s, same);
      UpsertSplits(s, x, same, j);
    } else {
      UpsertSplits(s, x, same, |s|);
    }
  }

  ghost predicate HasName<T(!new)>(std: seq<T>, run: seq<nat>, nameOf: T -> string, name: string) {
    exists k :: k in run && k < |std| && nameOf(std[k]) == name
  }

  /** How often an element occurs after a run that put `std[k]` for each `k`. */
  ghost function ExpectedItem<T(!new)>(std: seq<T>, run: seq<nat>, nameOf: T -> string, s0: seq<T>, y: T): nat {
    if HasName(std, run, nameOf, nameOf(y)) then
      var k :| k in run && k < |std| && nameOf(std[k]) == nameOf(y);
      if y == std[k] then 1 else 0
    else multiset(s0)[y]
  }

  /** The list holds what a run leaves, and at most one element per standard name. */
  ghost predicate ItemsAre<T(!new)>(std: seq<T>, run: seq<nat>, nameOf: T -> string, same: string -> (T -> bool),
                                    s0: seq<T>, s: seq<T>) {
    && (forall y :: multiset(s)[y] == ExpectedItem(std, run, nameOf, s0, y))
    && (forall k :: 0 <= k < |std| ==> AtMostOne(s, same(nameOf(std[k]))))
  }

  ghost predicate NamesFit<T(!new)>(std: seq<T>, nameOf: T -> string, same: string -> (T -> bool)) {
    && (forall n, y :: same(n)(y) <==> nameOf(y) == n)
    && (forall i, j :: 0 <= i < j < |std| ==> nameOf(std[i]) != nameOf(std[j]))
  }

  lemma ExpectedItemStep<T(!new)>(std: seq<T>, run: seq<nat>, j: nat, nameOf: T -> string, s0: seq<T>, y: T)
    requires forall i, k :: 0 <= i < k < |std| ==> nameOf(std[i]) != nameOf(std[k])
    requires j < |std|
    ensures ExpectedItem(std, run + [j], nameOf, s0, y) ==
            if nameOf(y) == nameOf(std[j]) then if y == std[j] then 1 else 0
            else ExpectedItem(std, run, nameOf, s0, y)
  {
  }

  lemma NamesDiffer<T(!new)>(std: seq<T>, nameOf: T -> string, same: string -> (T -> bool), j: nat, k: nat)
    requires NamesFit(std, nameOf, same) && j < |std| && k < |std| && j != k
    ensures forall y :: same(nameOf(std[j]))(y) ==> !same(nameOf(std[k]))(y)
  {
    var m, n := nameOf(std[j]), nameOf(std[k]);
    assert m != n by {
      if j < k { assert nameOf(std[j]) != nameOf(std[k]); } else { assert nameOf(std[k]) != nameOf(std[j]); }
    }
    forall y | same(m)(y) ensures !same(n)(y) {
      assert nameOf(y) == m;
    }
  }

  lemma ItemsStep<T(!new)>(std: seq<T>, run: seq<nat>, j: nat, nameOf: T -> string, same: string -> (T -> bool),
                           s0: seq<T>, s: seq<T>)
    requires NamesFit(std, nameOf, same) && j < |std| && ItemsAre(std, run, nameOf, same, s0, s)
    ensures ItemsAre(std, run + [j], nameOf, same, s0, Upsert(s, std[j], same(nameOf(std[j]))))
  {
    var p := same(nameOf(std[j]));
    forall y ensures multiset(Upsert(s, std[j], p))[y] == ExpectedItem(std, run + [j], nameOf, s0, y) {
      UpsertCounts(s, std[j], p, y);
      ExpectedItemStep(std, run, j, nameOf, s0, y);
    }
    forall k | 0 <= k < |std| ensures AtMostOne(Upsert(s, std[j], p), same(nameOf(std[k]))) {
      if k == j {
        UpsertSame(s, std[j], p);
      } else {
        NamesDiffer(std, nameOf, same, j, k);
        UpsertOther(s, std[j], p, same(nameOf(std[k])));
      }
    }
  }

  lemma ItemsAgree<T(!new)>(bs: seq<Binding>, std: seq<T>, r1: seq<nat>, r2: seq<nat>,
                            nameOf: T -> string, same: string -> (T -> bool), s0: seq<T>, s1: seq<T>, s2: seq<T>)
    requires |std| == |bs| && NamesFit(std, nameOf, same) && Covers(bs, r1) && Covers(bs, r2)
    requires ItemsAre(std, r1, nameOf, same, s0, s1) && ItemsAre(std, r2, nameOf, same, s0, s2)
    ensures multiset(s1) == multiset(s2)
  {
  }

  lemma ItemPresent<T(!new)>(std: seq<T>, run: seq<nat>, nameOf: T -> string, same: string -> (T -> bool),
                             s0: seq<T>, s: seq<T>, k: nat)
    requires NamesFit(std, nameOf, same) && k < |std| && k in run
    requires ItemsAre(std, run, nameOf, same, s0, s)
    ensures std[k] in s
  {
    assert ExpectedItem(std, run, nameOf, s0, std[k]) == 1;
    assert std[k] in multiset(s);
  }

  function StandardMounts(bs: seq<Binding>, rooted: bool): seq<Mount> {
    seq(|bs|, k requires 0 <= k < |bs| => StandardMount(bs[k], rooted))
  }

  function StandardVolumes(bs: seq<Binding>): seq<Volume> {
    seq(|bs|, k requires 0 <= k < |bs| => BindingVolume(bs[k]))
  }

  // -- containers and workloads -------------------------------------------------------------------------

  ghost predicate ContainerIs(bs: seq<Binding>, run: seq<nat>, rooted: bool, c0: Container, c: Container) {
    && c.name == c0.name
    && EnvIs(bs, run, rooted, c0.env, c.env)
    && ItemsAre(StandardMounts(bs, rooted), run, MountName, NamedMount, c0.mounts, c.mounts)
  }

  lemma ContainerStep(bs: seq<Binding>, run: seq<nat>, j: nat, rooted: bool, c0: Container, c: Container)
    requires Uniform(bs, rooted) && j < |bs| && ContainerIs(bs, run, rooted, c0, c)
    ensures ContainerIs(bs, run + [j], rooted, c0, BindContainer(bs[j], c))
  {
    EnvStep(bs, run, j, rooted, c0.env, c.env);
    OwnPath(bs[j], c.env);
    assert BoundMount(bs[j], c.env) == StandardMounts(bs, rooted)[j];
    ItemsStep(StandardMounts(bs, rooted), run, j, MountName, NamedMount, c0.mounts, c.mounts);
  }

  ghost predicate ContainersAre(
    bs: seq<Binding>, run: seq<nat>, rooted: bool, cs0: seq<Container>, cs: seq<Container>) {
    |cs| == |cs0| && forall i :: 0 <= i < |cs| ==> ContainerIs(bs, run, rooted, cs0[i], cs[i])
  }

  lemma ContainersStep(bs: seq<Binding>, run: seq<nat>, j: nat, rooted: bool, cs0: seq<Container>, cs: seq<Container>)
    requires Uniform(bs, rooted) && j < |bs| && ContainersAre(bs, run, rooted, cs0, cs)
    ensures ContainersAre(bs, run + [j], rooted, cs0, BindContainers(bs[j], cs))
  {
    forall i | 0 <= i < |cs| ensures ContainerIs(bs, run + [j], rooted, cs0[i], BindContainers(bs[j], cs)[i]) {
      ContainerStep(bs, run, j, rooted, cs0[i], cs[i]);
    }
  }

  ghost predicate WorkloadIs(bs: seq<Binding>, run: seq<nat>, rooted: bool, w0: Workload, w: Workload) {
    && (run != [] ==> w.volumes.Some?)
    && ItemsAre(StandardVolumes(bs), run, VolumeName, NamedVolume, Volumes(w0), Volumes(w))
    && ContainersAre(bs, run, rooted, w0.containers, w.containers)
    && ContainersAre(bs, run, rooted, w0.initContainers, w.initContainers)
  }

  /** At the start only literals are named SERVICE_BINDING_ROOT, and no two mounts of a container and no two
      volumes have the name of the same binding. */
  ghost predicate Ready(bs: seq<Binding>, w: Workload) {
    && (forall k :: 0 <= k < |bs| ==> AtMostOne(Volumes(w), NamedVolume(bs[k].name)))
    && (forall c :: c in w.containers || c in w.initContainers ==>
          PlainRoot(c.env) && forall k :: 0 <= k < |bs| ==> AtMostOne(c.mounts, NamedMount(bs[k].name)))
  }

  lemma ContainerStart(bs: seq<Binding>, rooted: bool, c: Container)
    requires PlainRoot(c.env) && forall k :: 0 <= k < |bs| ==> AtMostOne(c.mounts, NamedMount(bs[k].name))
    ensures ContainerIs(bs, [], rooted, c, c)
  {
  }

  lemma {:induction false} AfterRun(bs: seq<Binding>, run: seq<nat>, rooted: bool, w: Workload)
    requires Uniform(bs, rooted) && InRange(bs, run) && Ready(bs, w)
    ensures WorkloadIs(bs, run, rooted, w, BindAll(bs, run, w))
  {
    if run == [] {
      forall c | c in w.containers || c in w.initContainers ensures ContainerIs(bs, [], rooted, c, c) {
        ContainerStart(bs, rooted, c);
      }
    } else {
      var before, j := run[..|run| - 1], run[|run| - 1];
      AfterRun(bs, before, rooted, w);
      assert before + [j] == run;
      var v := BindAll(bs, before, w);
      ItemsStep(StandardVolumes(bs), before, j, VolumeName, NamedVolume, Volumes(w), Volumes(v));
      ContainersStep(bs, before, j, rooted, w.containers, v.containers);
      ContainersStep(bs, before, j, rooted, w.initContainers, v.initContainers);
    }
  }

  /** The containers have the same variables and mounts, up to order. */
  ghost predicate SameContainers(cs: seq<Container>, ds: seq<Container>) {
    |cs| == |ds| && forall i :: 0 <= i < |cs| ==>
      && cs[i].name == ds[i].name
      && multiset(cs[i].env) == multiset(ds[i].env)
      && multiset(cs[i].mounts) == multiset(ds[i].mounts)
  }

  ghost predicate SameProjection(w1: Workload, w2: Workload) {
    && multiset(Volumes(w1)) == multiset(Volumes(w2))
    && SameContainers(w1.containers, w2.containers)
    && SameContainers(w1.initContainers, w2.initContainers)
  }

  lemma ContainersAgree(bs: seq<Binding>, r1: seq<nat>, r2: seq<nat>, rooted: bool, cs0: seq<Container>,
                        cs1: seq<Container>, cs2: seq<Container>)
    requires Uniform(bs, rooted) && Covers(bs, r1) && Covers(bs, r2)
    requires ContainersAre(bs, r1, rooted, cs0, cs1) && ContainersAre(bs, r2, rooted, cs0, cs2)
    ensures SameContainers(cs1, cs2)
  {
    forall i | 0 <= i < |cs1|
      ensures cs1[i].name == cs2[i].name
      ensures multiset(cs1[i].env) == multiset(cs2[i].env)
      ensures multiset(cs1[i].mounts) == multiset(cs2[i].mounts)
    {
      assert ContainerIs(bs, r1, rooted, cs0[i], cs1[i]) && ContainerIs(bs, r2, rooted, cs0[i], cs2[i]);
      EnvAgree(bs, r1, r2, rooted, cs0[i].env, cs1[i].env, cs2[i].env);
      ItemsAgree(bs, StandardMounts(bs, rooted), r1, r2, MountName, NamedMount,
                 cs0[i].mounts, cs1[i].mounts, cs2[i].mounts);
    }
  }

  /** Confluence: if none or all of the bindings declare SERVICE_BINDING_ROOT, any two runs in which every
      binding occurs at least once give the same variables, mounts and volumes, up to order. */
  lemma Confluence(bs: seq<Binding>, rooted: bool, r1: seq<nat>, r2: seq<nat>, w: Workload)
    requires Uniform(bs, rooted) && Covers(bs, r1) && Covers(bs, r2) && Ready(bs, w)
    ensures SameProjection(BindAll(bs, r1, w), BindAll(bs, r2, w))
  {
    var w1, w2 := BindAll(bs, r1, w), BindAll(bs, r2, w);
    AfterRun(bs, r1, rooted, w);
    AfterRun(bs, r2, rooted, w);
    ItemsAgree(bs, StandardVolumes(bs), r1, r2, VolumeName, NamedVolume, Volumes(w), Volumes(w1), Volumes(w2));
    ContainersAgree(bs, r1, r2, rooted, w.containers, w1.containers, w2.containers);
    ContainersAgree(bs, r1, r2, rooted, w.initContainers, w1.initContainers, w2.initContainers);
  }

  /** The container carries the binding: its mount, its variables and nothing else of its secret, and the root
      directory. */
  ghost predicate Carries(b: Binding, rooted: bool, c: Container) {
    && Mount(b.name, if rooted then b.name else "/bindings/" + b.name, true) in c.mounts
    && (!rooted ==> EnvVar("SERVICE_BINDING_ROOT", Literal("/bindings")) in c.env)
    && (forall i :: 0 <= i < |b.envs| ==> EnvVar(b.envs[i].name, SecretKey(b.secret, b.envs[i].key)) in c.env)
    && forall e: EnvVar :: e.source.SecretKey? && e.source.secret == b.secret ==> multiset(c.env)[e] == |Requests(b, e)|
  }

  /** The places among the first `n` variables of the binding that ask for this one. */
  ghost function RequestsAmong(b: Binding, e: EnvVar, n: nat): set<nat>
    requires n <= |b.envs|
  {
    set i: nat | i < n && e == EnvVar(b.envs[i].name, SecretKey(b.secret, b.envs[i].key))
  }

  ghost function Requests(b: Binding, e: EnvVar): set<nat> {
    RequestsAmong(b, e, |b.envs|)
  }

  lemma {:induction false} ProjectedCountIs(b: Binding, e: EnvVar, n: nat)
    requires n <= |b.envs|
    ensures multiset(Projected(b.envs, b.secret)[..n])[e] == |RequestsAmong(b, e, n)|
    decreases n
  {
    if n > 0 {
      ProjectedCountIs(b, e, n - 1);
      var vars := Projected(b.envs, b.secret);
      assert vars[..n] == vars[..n - 1] + [vars[n - 1]];
      RequestsGrow(b, e, n);
    }
  }

  lemma RequestsGrow(b: Binding, e: EnvVar, n: nat)
    requires 0 < n <= |b.envs|
    ensures |RequestsAmong(b, e, n)| ==
            |RequestsAmong(b, e, n - 1)| + if e == Projected(b.envs, b.secret)[n - 1] then 1 else 0
  {
    var last := Projected(b.envs, b.secret)[n - 1];
    assert RequestsAmong(b, e, n) == RequestsAmong(b, e, n - 1) + if e == last then {n - 1} else {};
  }

  lemma ContainerCarries(bs: seq<Binding>, run: seq<nat>, rooted: bool, c0: Container, c: Container, k: nat)
    requires Uniform(bs, rooted) && k < |bs| && k in run && ContainerIs(bs, run, rooted, c0, c)
    ensures Carries(bs[k], rooted, c)
  {
    ItemPresent(StandardMounts(bs, rooted), run, MountName, NamedMount, c0.mounts, c.mounts, k);
    assert BINDINGS_DIR + "/" + bs[k].name == "/bindings/" + bs[k].name;
    if !rooted {
      assert ExpectedVar(bs, run, rooted, c0.env, RootVar) == 1;
      assert RootVar in multiset(c.env);
    }
    VarsCarried(bs, run, rooted, c0, c, k);
  }

  lemma VarsCarried(bs: seq<Binding>, run: seq<nat>, rooted: bool, c0: Container, c: Container, k: nat)
    requires Uniform(bs, rooted) && k < |bs| && k in run && EnvIs(bs, run, rooted, c0.env, c.env)
    ensures forall e: EnvVar :: e.source.SecretKey? && e.source.secret == bs[k].secret ==>
              multiset(c.env)[e] == |Requests(bs[k], e)|
    ensures forall i :: 0 <= i < |bs[k].envs| ==>
              EnvVar(bs[k].envs[i].name, SecretKey(bs[k].secret, bs[k].envs[i].key)) in c.env
  {
    forall e: EnvVar | e.source.SecretKey? && e.source.secret == bs[k].secret
      ensures multiset(c.env)[e] == |Requests(bs[k], e)|
    {
      ProjectedAfterRun(bs, run, rooted, c0.env, k, e);
      ProjectedCountIs(bs[k], e, |bs[k].envs|);
      assert Projected(bs[k].envs, bs[k].secret)[..|bs[k].envs|] == Projected(bs[k].envs, bs[k].secret);
    }
    forall i: nat | i < |bs[k].envs|
      ensures EnvVar(bs[k].envs[i].name, SecretKey(bs[k].secret, bs[k].envs[i].key)) in c.env
    {
      var e := EnvVar(bs[k].envs[i].name, SecretKey(bs[k].secret, bs[k].envs[i].key));
      assert i in Requests(bs[k], e);
      assert e in multiset(c.env);
    }
  }

  lemma ProjectedAfterRun(bs: seq<Binding>, run: seq<nat>, rooted: bool, env0: seq<EnvVar>, k: nat, e: EnvVar)
    requires Independent(bs) && k < |bs| && k in run && e.source.SecretKey? && e.source.secret == bs[k].secret
    ensures ExpectedVar(bs, run, rooted, env0, e) == ProjectedCount(bs[k], e)
  {
  }

  /** After a run, every binding that occurs in it is projected: its volume is there, and every container
      carries it, whichever bindings came later. */
  lemma EveryBindingIsProjected(bs: seq<Binding>, run: seq<nat>, rooted: bool, w: Workload, k: nat, c: Container)
    requires Uniform(bs, rooted) && InRange(bs, run) && Ready(bs, w) && k < |bs| && k in run
    ensures Volume(bs[k].name, SecretVolume(bs[k].secret, false, 0x124)) in Volumes(BindAll(bs, run, w))
    ensures var w' := BindAll(bs, run, w); c in w'.containers || c in w'.initContainers ==> Carries(bs[k], rooted, c)
  {
    AfterRun(bs, run, rooted, w);
    var w' := BindAll(bs, run, w);
    ItemPresent(StandardVolumes(bs), run, VolumeName, NamedVolume, Volumes(w), Volumes(w'), k);
    if i :| 0 <= i < |w'.containers| && w'.containers[i] == c {
      ContainerCarries(bs, run, rooted, w.containers[i], c, k);
    }
    if i :| 0 <= i < |w'.initContainers| && w'.initContainers[i] == c {
      ContainerCarries(bs, run, rooted, w.initContainers[i], c, k);
    }
  }
}
