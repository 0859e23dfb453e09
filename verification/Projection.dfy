/** Projecting the secret of a service binding into a workload and taking it out again
    (controllers/agents/app/servicebinding_controller.go). */
module Projection {
  import opened Wrappers
  import opened RangeDelete

  const SERVICE_BINDING_ROOT := "SERVICE_BINDING_ROOT"
  const BINDINGS_DIR := "/bindings"

  datatype EnvSource = Literal(value: string) | SecretKey(secret: string, key: string) | OtherSource(of: string)
  datatype EnvVar = EnvVar(name: string, source: EnvSource)
  datatype VolumeSource = SecretVolume(secret: string, optional: bool, mode: nat) | OtherVolume(of: string)
  datatype Volume = Volume(name: string, source: VolumeSource)
  datatype Mount = Mount(name: string, path: string, readOnly: bool)
  datatype Container = Container(name: string, env: seq<EnvVar>, mounts: seq<Mount>)

  /** A workload as far as bindings touch it; its list of volumes may be absent. */
  datatype Workload = Workload(volumes: Option<seq<Volume>>, containers: seq<Container>, initContainers: seq<Container>)

  datatype EnvSpec = EnvSpec(name: string, key: string)
  datatype Binding = Binding(name: string, secret: string, envs: seq<EnvSpec>)

  const RootVar := EnvVar(SERVICE_BINDING_ROOT, Literal(BINDINGS_DIR))

  function NamedEnv(n: string): EnvVar -> bool { (e: EnvVar) => e.name == n }
  function NamedMount(n: string): Mount -> bool { (m: Mount) => m.name == n }
  function NamedVolume(n: string): Volume -> bool { (v: Volume) => v.name == n }

  /** The variable refers to a secret other than `secret`. */
  predicate Foreign(e: EnvVar, secret: string) {
    e.source.SecretKey? && e.source.secret != secret
  }

  function KeepForeign(env: seq<EnvVar>, secret: string): seq<EnvVar> {
    if env == [] then []
    else
      var kept := KeepForeign(env[..|env| - 1], secret);
      var e := env[|env| - 1];
      if Foreign(e, secret) then kept + [e] else kept
  }

  lemma {:induction false} KeepForeignMembers(env: seq<EnvVar>, secret: string)
    ensures forall e :: e in KeepForeign(env, secret) <==> e in env && Foreign(e, secret)
    ensures |KeepForeign(env, secret)| <= |env|
    ensures (forall e :: e in env ==> Foreign(e, secret)) ==> KeepForeign(env, secret) == env
  {
    if env != [] {
      var init, last := env[..|env| - 1], env[|env| - 1];
      KeepForeignMembers(init, secret);
      assert env == init + [last];
    }
  }

  lemma {:induction false} KeepCount(env: seq<EnvVar>, secret: string, e: EnvVar)
    ensures multiset(KeepForeign(env, secret))[e] == if Foreign(e, secret) then multiset(env)[e] else 0
  {
    if env != [] {
      KeepCount(env[..|env| - 1], secret, e);
      assert env == env[..|env| - 1] + [env[|env| - 1]];
    }
  }

  function OfOthers(secret: string): EnvVar -> bool { (e: EnvVar) => !Foreign(e, secret) }

  lemma {:induction false} KeepForeignIsFilter(env: seq<EnvVar>, secret: string)
    ensures KeepForeign(env, secret) == Filter(env, OfOthers(secret))
  {
    if env != [] {
      var init, e := env[..|env| - 1], env[|env| - 1];
      KeepForeignIsFilter(init, secret);
      FilterSnoc(init, e, OfOthers(secret));
      assert env == init + [e];
    }
  }

  /** Only references to other secrets are kept, as often as they are there and in their order. */
  method RemoveServiceBindingEnvironments(envList: seq<EnvVar>, secret: string) returns (kept: seq<EnvVar>)
    ensures kept == KeepForeign(envList, secret) == Filter(envList, OfOthers(secret))
    ensures forall e :: multiset(kept)[e] ==
              if e.source.SecretKey? && e.source.secret != secret then multiset(envList)[e] else 0
  {
    KeepForeignIsFilter(envList, secret);
    forall e {
      KeepCount(envList, secret, e);
    }
    kept := [];
    for i := 0 to |envList|
      invariant kept == KeepForeign(envList[..i], secret)
    {
      var val := envList[i];
      assert envList[..i + 1][..i] == envList[..i];
      if val.source.SecretKey? && val.source.secret != secret {
        kept := kept + [val];
      }
    }
    assert envList[..|envList|] == envList;
  }

  function Projected(envs: seq<EnvSpec>, secret: string): seq<EnvVar> {
    seq(|envs|, i requires 0 <= i < |envs| => EnvVar(envs[i].name, SecretKey(secret, envs[i].key)))
  }

  /** Joining two path elements, the second of them a name. */
  function PathJoin(dir: string, name: string): string {
    if dir == "" then name else dir + "/" + name
  }

  function ValueOf(e: EnvVar): string {
    if e.source.Literal? then e.source.value else ""
  }

  /** The directory that the first SERVICE_BINDING_ROOT variable gives, or the empty string. */
  function RootMountPath(env: seq<EnvVar>, name: string): string {
    if env == [] then ""
    else if env[0].name == SERVICE_BINDING_ROOT then PathJoin(ValueOf(env[0]), name)
    else RootMountPath(env[1..], name)
  }

  /** Replaces the first element that is the same, or appends. */
  function Upsert<T>(s: seq<T>, x: T, same: T -> bool): seq<T> {
    if s == [] then [x]
    else if same(s[0]) then [x] + s[1..]
    else [s[0]] + Upsert(s[1..], x, same)
  }

  function OwnVars(b: Binding, env: seq<EnvVar>): seq<EnvVar> {
    KeepForeign(env, b.secret) + Projected(b.envs, b.secret)
  }

  function BoundEnv(b: Binding, env: seq<EnvVar>): seq<EnvVar> {
    OwnVars(b, env) + if RootMountPath(OwnVars(b, env), b.name) == "" then [RootVar] else []
  }

  function BoundMount(b: Binding, env: seq<EnvVar>): Mount {
    var path := RootMountPath(OwnVars(b, env), b.name);
    Mount(b.name, if path == "" then PathJoin(BINDINGS_DIR, b.name) else path, true)
  }

  function BindContainer(b: Binding, c: Container): Container {
    c.(env := BoundEnv(b, c.env), mounts := Upsert(c.mounts, BoundMount(b, c.env), NamedMount(b.name)))
  }

  function BindContainers(b: Binding, cs: seq<Container>): seq<Container> {
    seq(|cs|, i requires 0 <= i < |cs| => BindContainer(b, cs[i]))
  }

  function BindingVolume(b: Binding): Volume {
    Volume(b.name, SecretVolume(b.secret, false, 0x124))
  }

  function Volumes(w: Workload): seq<Volume> {
    if w.volumes.None? then [] else w.volumes.value
  }

  /** The workload with the binding projected into it. */
  function Bind(b: Binding, w: Workload): Workload {
    Workload(
      Some(Upsert(Volumes(w), BindingVolume(b), NamedVolume(b.name))),
      BindContainers(b, w.containers),
      BindContainers(b, w.initContainers))
  }

  lemma {:induction false} PathWithoutLiterals(env: seq<EnvVar>, name: string)
    requires forall e :: e in env ==> !e.source.Literal?
    ensures RootMountPath(env, name) == if exists e :: e in env && e.name == SERVICE_BINDING_ROOT then name else ""
  {
    if env != [] {
      PathWithoutLiterals(env[1..], name);
      assert env == [env[0]] + env[1..];
    }
  }

  /** The volume, the mount or whatever has a name took the place of the first one of that name, or was appended. */
  ghost predicate Put<T(!new)>(before: seq<T>, x: T, nameOf: T -> string, after: seq<T>) {
    if forall y :: y in before ==> nameOf(y) != nameOf(x) then after == before + [x]
    else exists j :: 0 <= j < |before| && nameOf(before[j]) == nameOf(x) && after == before[j := x] &&
           forall k :: 0 <= k < j ==> nameOf(before[k]) != nameOf(x)
  }

  function MountName(m: Mount): string { m.name }
  function VolumeName(v: Volume): string { v.name }

  lemma UpsertPuts<T(!new)>(s: seq<T>, x: T, nameOf: T -> string, same: T -> bool)
    requires forall y :: same(y) <==> nameOf(y) == nameOf(x)
    ensures Put(s, x, nameOf, Upsert(s, x, same))
  {
    if j: nat :| j < |s| && same(s[j]) && forall k :: 0 <= k < j ==> !same(s[k]) {
      UpsertSplits(s, x, same, j);
    } else {
      NoneUpTo(s, same, |s|);
      UpsertSplits(s, x, same, |s|);
    }
  }

  lemma {:induction false} NoneUpTo<T>(s: seq<T>, p: T -> bool, n: nat)
    requires n <= |s| && !exists j: nat :: j < |s| && p(s[j]) && forall k :: 0 <= k < j ==> !p(s[k])
    ensures forall k :: 0 <= k < n ==> !p(s[k])
  {
    if n > 0 {
      NoneUpTo(s, p, n - 1);
    }
  }

  /** One of the variables names the root directory, and the binding has a name. */
  ghost predicate Rooted(b: Binding, vars: seq<EnvVar>) {
    b.name != "" && exists i :: 0 <= i < |vars| && vars[i].name == "SERVICE_BINDING_ROOT"
  }

  /** The variables of other secrets come first, then one for each of the binding, which refers to its key in the
      secret, and the root directory if none of them names one. */
  ghost predicate VarsByFields(b: Binding, kept: seq<EnvVar>, env: seq<EnvVar>) {
    var n := |kept| + |b.envs|;
    && n <= |env| && env[..|kept|] == kept
    && (forall i :: |kept| <= i < n ==>
          env[i] == EnvVar(b.envs[i - |kept|].name, SecretKey(b.secret, b.envs[i - |kept|].key)))
    && env[n..] == if Rooted(b, env[..n]) then [] else [EnvVar("SERVICE_BINDING_ROOT", Literal("/bindings"))]
  }

  /** The binding is mounted under its name: below the root directory, or at its bare name if a variable from a
      secret gives the root. */
  ghost predicate MountByFields(b: Binding, vars: seq<EnvVar>, before: seq<Mount>, after: seq<Mount>) {
    Put(before, Mount(b.name, if Rooted(b, vars) then b.name else "/bindings/" + b.name, true), MountName, after)
  }

  /** A container with the binding in it, field by field. */
  ghost predicate BoundByFields(b: Binding, c: Container, bound: Container) {
    var kept := KeepForeign(c.env, b.secret);
    && bound.name == c.name && VarsByFields(b, kept, bound.env)
    && MountByFields(b, bound.env[..|kept| + |b.envs|], c.mounts, bound.mounts)
  }

  lemma RootedHasPath(b: Binding, env: seq<EnvVar>)
    ensures RootMountPath(OwnVars(b, env), b.name) == if Rooted(b, OwnVars(b, env)) then b.name else ""
  {
    KeepForeignMembers(env, b.secret);
    PathWithoutLiterals(OwnVars(b, env), b.name);
  }

  lemma BoundVars(b: Binding, env: seq<EnvVar>)
    ensures VarsByFields(b, KeepForeign(env, b.secret), BoundEnv(b, env))
    ensures BoundEnv(b, env)[..|OwnVars(b, env)|] == OwnVars(b, env)
  {
    RootedHasPath(b, env);
    var kept, proj := KeepForeign(env, b.secret), Projected(b.envs, b.secret);
    ThreeParts(b, kept, proj, if RootMountPath(OwnVars(b, env), b.name) == "" then [RootVar] else []);
  }

  lemma ThreeParts(b: Binding, kept: seq<EnvVar>, proj: seq<EnvVar>, tail: seq<EnvVar>)
    requires |proj| == |b.envs|
    requires forall i :: 0 <= i < |proj| ==> proj[i] == EnvVar(b.envs[i].name, SecretKey(b.secret, b.envs[i].key))
    requires tail == if Rooted(b, kept + proj) then [] else [EnvVar("SERVICE_BINDING_ROOT", Literal("/bindings"))]
    ensures VarsByFields(b, kept, kept + proj + tail)
    ensures (kept + proj + tail)[..|kept + proj|] == kept + proj
  {
    var all, n := kept + proj + tail, |kept + proj|;
    assert all[..n] == kept + proj && all[n..] == tail && all[..|kept|] == kept;
    assert forall i :: |kept| <= i < n ==> all[i] == proj[i - |kept|];
  }

  lemma BindContainerByFields(b: Binding, c: Container)
    ensures BoundByFields(b, c, BindContainer(b, c))
  {
    RootedHasPath(b, c.env);
    BoundVars(b, c.env);
    assert BINDINGS_DIR + "/" + b.name == "/bindings/" + b.name;
    UpsertPuts(c.mounts, BoundMount(b, c.env), MountName, NamedMount(b.name));
  }

  method FindMountPath(env: seq<EnvVar>, name: string) returns (mountPath: string)
    ensures mountPath == RootMountPath(env, name)
  {
    for i := 0 to |env|
      invariant RootMountPath(env[i..], name) == RootMountPath(env, name)
    {
      assert env[i..][1..] == env[i + 1..];
      if env[i].name == SERVICE_BINDING_ROOT {
        return PathJoin(ValueOf(env[i]), name);
      }
    }
    return "";
  }

  method UpdateContainer(b: Binding, container: Container) returns (c: Container)
    ensures c == BindContainer(b, container) && BoundByFields(b, container, c)
  {
    c := container;
    var env := RemoveServiceBindingEnvironments(c.env, b.secret);
    for i := 0 to |b.envs|
      invariant env == KeepForeign(container.env, b.secret) + Projected(b.envs, b.secret)[..i]
    {
      env := env + [EnvVar(b.envs[i].name, SecretKey(b.secret, b.envs[i].key))];
    }
    assert Projected(b.envs, b.secret)[..|b.envs|] == Projected(b.envs, b.secret);
    var mountPath := FindMountPath(env, b.name);
    if mountPath == "" {
      mountPath := PathJoin(BINDINGS_DIR, b.name);
      env := env + [RootVar];
    }
    assert env == BoundEnv(b, container.env);
    var volumeMount := Mount(b.name, mountPath, true);
    var mounts := UpsertInPlace(c.mounts, volumeMount, NamedMount(b.name));
    c := c.(env := env, mounts := mounts);
    BindContainerByFields(b, container);
  }

  lemma UpsertSplits<T>(s: seq<T>, x: T, same: T -> bool, j: nat)
    requires j <= |s| && forall k :: 0 <= k < j ==> !same(s[k])
    ensures j == |s| ==> Upsert(s, x, same) == s + [x]
    ensures j < |s| && same(s[j]) ==> Upsert(s, x, same) == s[j := x]
  {
    if j > 0 {
      UpsertSplits(s[1..], x, same, j - 1);
    }
  }

  /** Overwrites the first element that is the same and stops, or appends. */
  method UpsertInPlace<T>(s: seq<T>, x: T, same: T -> bool) returns (r: seq<T>)
    ensures r == Upsert(s, x, same)
  {
    r := s;
    var found := false;
    for j := 0 to |s|
      invariant r == s && !found
      invariant forall k :: 0 <= k < j ==> !same(s[k])
    {
      if same(r[j]) {
        UpsertSplits(s, x, same, j);
        r := r[j := x];
        found := true;
        break;
      }
    }
    if !found {
      UpsertSplits(s, x, same, |s|);
      r := r + [x];
    }
  }

  /** `updateContainerInfo`: every container of the list is replaced by its bound form. */
  method UpdateContainerInfo(containers: array<Container>, b: Binding)
    modifies containers
    ensures containers[..] == BindContainers(b, old(containers[..]))
    ensures forall i :: 0 <= i < containers.Length ==> BoundByFields(b, old(containers[i]), containers[i])
  {
    for i := 0 to containers.Length
      invariant forall j :: 0 <= j < i ==>
        containers[j] == BindContainer(b, old(containers[j])) && BoundByFields(b, old(containers[j]), containers[j])
      invariant forall j :: i <= j < containers.Length ==> containers[j] == old(containers[j])
    {
      var c := UpdateContainer(b, containers[i]);
      containers[i] := c;
    }
  }

  /** `prepareContainerWithMounts` without the final write. */
  method PrepareContainerWithMounts(b: Binding, application: Workload) returns (w: Workload)
    ensures w == Bind(b, application)
    ensures w.volumes.Some?
    ensures Put(Volumes(application), Volume(b.name, SecretVolume(b.secret, false, 0x124)), VolumeName, w.volumes.value)
    ensures |w.containers| == |application.containers| && |w.initContainers| == |application.initContainers|
    ensures forall i :: 0 <= i < |w.containers| ==> BoundByFields(b, application.containers[i], w.containers[i])
    ensures forall i :: 0 <= i < |w.initContainers| ==>
              BoundByFields(b, application.initContainers[i], w.initContainers[i])
  {
    UpsertPuts(Volumes(application), BindingVolume(b), VolumeName, NamedVolume(b.name));
    var volumes := UpsertInPlace(Volumes(application), BindingVolume(b), NamedVolume(b.name));
    var containers := ArrayOf(application.containers);
    UpdateContainerInfo(containers, b);
    var initContainers := ArrayOf(application.initContainers);
    UpdateContainerInfo(initContainers, b);
    w := Workload(Some(volumes), containers[..], initContainers[..]);
  }

  method ArrayOf<T>(s: seq<T>) returns (a: array<T>)
    ensures fresh(a) && a[..] == s
  {
    a := new T[|s|](i requires 0 <= i < |s| => s[i]);
  }

  /** The slice after the delete-while-ranging loop; `None` is a panic. */
  function DeleteRanging<T>(s: seq<T>, p: T -> bool): Option<seq<T>> {
    Loop(s, p, 0, |s|)
  }

  method DeleteFrom<T>(s: seq<T>, p: T -> bool) returns (r: Option<seq<T>>)
    ensures r == DeleteRanging(s, p)
  {
    LoopIs(s, p);
    var a := ArrayOf(s);
    var len := DeleteWhileRanging(a, p);
    return if len.None? then None else Some(a[..len.value]);
  }

  function UnbindContainer(b: Binding, c: Container): Option<Container> {
    var mounts := DeleteRanging(c.mounts, NamedMount(b.name));
    var env := DeleteRanging(c.env, NamedEnv(SERVICE_BINDING_ROOT));
    if mounts.None? || env.None? then None
    else Some(c.(env := KeepForeign(env.value, b.secret), mounts := mounts.value))
  }

  function UnbindContainers(b: Binding, cs: seq<Container>): Option<seq<Container>> {
    if cs == [] then Some([])
    else
      var init := UnbindContainers(b, cs[..|cs| - 1]);
      var last := UnbindContainer(b, cs[|cs| - 1]);
      if init.None? || last.None? then None else Some(init.value + [last.value])
  }

  /** The workload with the binding taken out; `None` is a panic. Without a list of volumes nothing is done. */
  function Unbind(b: Binding, w: Workload): Option<Workload> {
    if w.volumes.None? then Some(w)
    else
      var volumes := DeleteRanging(w.volumes.value, NamedVolume(b.name));
      var containers := UnbindContainers(b, w.containers);
      var initContainers := UnbindContainers(b, w.initContainers);
      if volumes.None? || containers.None? || initContainers.None? then None
      else Some(Workload(Some(volumes.value), containers.value, initContainers.value))
  }

  /** The body of the loop of `removeBindingInformationFromContainer`. */
  method RemoveBindingInformation(b: Binding, c: Container) returns (r: Option<Container>)
    ensures r == UnbindContainer(b, c)
  {
    var mounts := DeleteFrom(c.mounts, NamedMount(b.name));
    var env := DeleteFrom(c.env, NamedEnv(SERVICE_BINDING_ROOT));
    if mounts.None? || env.None? {
      return None;
    }
    var kept := RemoveServiceBindingEnvironments(env.value, b.secret);
    r := Some(c.(env := kept, mounts := mounts.value));
  }

  /** `removeBindingInformationFromContainer`; false is a panic. */
  method RemoveBindingInformationFromContainer(containers: array<Container>, b: Binding) returns (ok: bool)
    modifies containers
    ensures ok == UnbindContainers(b, old(containers[..])).Some?
    ensures ok ==> containers[..] == UnbindContainers(b, old(containers[..])).value
  {
    ghost var cs := containers[..];
    for i := 0 to containers.Length
      invariant UnbindContainers(b, cs[..i]) == Some(containers[..i])
      invariant containers[i..] == cs[i..]
    {
      assert cs[..i + 1][..i] == cs[..i] && cs[i] == cs[i..][0] == containers[i];
      var c := RemoveBindingInformation(b, containers[i]);
      if c.None? {
        UnbindPanics(b, cs, i + 1);
        return false;
      }
      containers[i] := c.value;
      assert containers[..i + 1] == containers[..i] + [containers[i]];
    }
    assert cs[..containers.Length] == cs;
    return true;
  }

  lemma {:induction false} UnbindPanics(b: Binding, cs: seq<Container>, n: nat)
    requires n <= |cs| && UnbindContainers(b, cs[..n]).None?
    ensures UnbindContainers(b, cs).None?
    decreases |cs| - n
  {
    if n < |cs| {
      assert cs[..n + 1][..n] == cs[..n];
      UnbindPanics(b, cs, n + 1);
    } else {
      assert cs[..n] == cs;
    }
  }

  /** `removeVolumeMountAndEnvironment` without the final write; `None` is a panic. */
  method RemoveVolumeMountAndEnvironment(b: Binding, application: Workload) returns (w: Option<Workload>)
    ensures w == Unbind(b, application)
  {
    if application.volumes.None? {
      return Some(application);
    }
    var volumes := DeleteFrom(application.volumes.value, NamedVolume(b.name));
    if volumes.None? {
      return None;
    }
    var containers := ArrayOf(application.containers);
    var ok := RemoveBindingInformationFromContainer(containers, b);
    if !ok {
      return None;
    }
    var initContainers := ArrayOf(application.initContainers);
    ok := RemoveBindingInformationFromContainer(initContainers, b);
    if !ok {
      return None;
    }
    return Some(Workload(Some(volumes.value), containers[..], initContainers[..]));
  }
}
