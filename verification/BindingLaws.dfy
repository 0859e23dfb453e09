/** Binding twice and unbinding after binding. */
module BindingLaws {
  import opened Wrappers
  import opened RangeDelete
  import opened Projection

  lemma {:induction false} KeepForeignAppend(x: seq<EnvVar>, y: seq<EnvVar>, secret: string)
    ensures KeepForeign(x + y, secret) == KeepForeign(x, secret) + KeepForeign(y, secret)
  {
    if y == [] {
      assert x + y == x;
    } else {
      assert (x + y)[..|x + y| - 1] == x + y[..|y| - 1];
      KeepForeignAppend(x, y[..|y| - 1], secret);
    }
  }

  lemma {:induction false} KeepForeignNone(env: seq<EnvVar>, secret: string)
    requires forall e :: e in env ==> !Foreign(e, secret)
    ensures KeepForeign(env, secret) == []
  {
    if env != [] {
      KeepForeignNone(env[..|env| - 1], secret);
    }
  }

  /** What binding appends to the variables it keeps. */
  function Added(b: Binding, env: seq<EnvVar>): seq<EnvVar> {
    Projected(b.envs, b.secret) + if RootMountPath(OwnVars(b, env), b.name) == "" then [RootVar] else []
  }

  lemma BoundEnvSplits(b: Binding, env: seq<EnvVar>)
    ensures BoundEnv(b, env) == KeepForeign(env, b.secret) + Added(b, env)
    ensures forall e :: e in Added(b, env) ==> !Foreign(e, b.secret)
  {
  }

  lemma {:induction false} KeepForeignTwice(env: seq<EnvVar>, secret: string)
    ensures KeepForeign(KeepForeign(env, secret), secret) == KeepForeign(env, secret)
  {
    if env != [] {
      KeepForeignTwice(env[..|env| - 1], secret);
    }
  }

  lemma KeptPart(kept: seq<EnvVar>, added: seq<EnvVar>, secret: string)
    requires forall e :: e in added ==> !Foreign(e, secret)
    ensures KeepForeign(kept + added, secret) == KeepForeign(kept, secret)
  {
    KeepForeignAppend(kept, added, secret);
    KeepForeignNone(added, secret);
  }

  lemma OwnVarsOfBound(b: Binding, env: seq<EnvVar>)
    ensures OwnVars(b, BoundEnv(b, env)) == OwnVars(b, env)
  {
    BoundEnvSplits(b, env);
    KeptPart(KeepForeign(env, b.secret), Added(b, env), b.secret);
    KeepForeignTwice(env, b.secret);
  }

  lemma {:induction false} UpsertTwice<T>(s: seq<T>, x: T, same: T -> bool)
    requires same(x)
    ensures Upsert(Upsert(s, x, same), x, same) == Upsert(s, x, same)
  {
    if s != [] && !same(s[0]) {
      UpsertTwice(s[1..], x, same);
    }
  }

  lemma {:induction false} UpsertKeeps<T>(s: seq<T>, x: T, same: T -> bool, y: T)
    requires y in s && !same(y)
    ensures y in Upsert(s, x, same)
  {
    if !same(s[0]) && y != s[0] {
      UpsertKeeps(s[1..], x, same, y);
    }
  }

  lemma {:induction false} UpsertHas<T>(s: seq<T>, x: T, same: T -> bool)
    ensures x in Upsert(s, x, same)
  {
    if s != [] && !same(s[0]) {
      UpsertHas(s[1..], x, same);
    }
  }

  lemma BindContainerTwice(b: Binding, c: Container)
    ensures BindContainer(b, BindContainer(b, c)) == BindContainer(b, c)
  {
    OwnVarsOfBound(b, c.env);
    UpsertTwice(c.mounts, BoundMount(b, c.env), NamedMount(b.name));
  }

  /** Binding is a fixpoint after one application: projecting the same binding into an already bound workload
      changes nothing, element for element and in order. */
  lemma BindIsFixpoint(b: Binding, w: Workload)
    ensures Bind(b, Bind(b, w)) == Bind(b, w)
  {
    UpsertTwice(Volumes(w), BindingVolume(b), NamedVolume(b.name));
    forall c: Container {
      BindContainerTwice(b, c);
    }
  }

  lemma {:induction false} SurvivorsSkip<T>(x: seq<T>, y: seq<T>, p: T -> bool)
    requires forall e :: e in x ==> !p(e)
    ensures Survivors(x + y, p) == x + Survivors(y, p)
  {
    if x == [] {
      assert x + y == y;
    } else {
      assert (x + y)[1..] == x[1..] + y;
      SurvivorsSkip(x[1..], y, p);
    }
  }

  lemma {:induction false} SurvivorsWithin<T>(s: seq<T>, p: T -> bool)
    ensures forall e :: e in Survivors(s, p) ==> e in s
    ensures |Survivors(s, p)| <= |s|
    ensures (exists e :: e in s && p(e)) ==> |Survivors(s, p)| < |s|
    decreases |s|
  {
    if s == [] {
    } else if !p(s[0]) {
      SurvivorsWithin(s[1..], p);
    } else if |s| > 1 {
      SurvivorsWithin(s[2..], p);
    }
  }

  /** The loop never leaves more variables of other secrets than there were. */
  lemma {:induction false} SurvivorsKeepFewer(env: seq<EnvVar>, p: EnvVar -> bool, secret: string)
    ensures |KeepForeign(Survivors(env, p), secret)| <= |KeepForeign(env, secret)|
    decreases |env|
  {
    if env == [] {
    } else if !p(env[0]) {
      SurvivorsKeepFewer(env[1..], p, secret);
      assert env == [env[0]] + env[1..];
      KeepForeignAppend([env[0]], env[1..], secret);
      KeepForeignAppend([env[0]], Survivors(env[1..], p), secret);
    } else if |env| > 1 {
      SurvivorsKeepFewer(env[2..], p, secret);
      assert env == [env[0]] + ([env[1]] + env[2..]);
      KeepForeignAppend([env[0]], [env[1]] + env[2..], secret);
      KeepForeignAppend([env[1]], env[2..], secret);
      KeepForeignAppend([env[1]], Survivors(env[2..], p), secret);
    }
  }

  lemma {:induction false} RootPathNonEmpty(env: seq<EnvVar>, name: string)
    requires name != ""
    ensures RootMountPath(env, name) != "" <==> exists e :: e in env && e.name == SERVICE_BINDING_ROOT
  {
    if env != [] {
      RootPathNonEmpty(env[1..], name);
      assert env == [env[0]] + env[1..];
    }
  }

  /** The variables of the binding do not make the removal of SERVICE_BINDING_ROOT panic: unless the last one
      and an earlier one both have that name. */
  predicate EnvsSafe(b: Binding) {
    |b.envs| > 0 && b.envs[|b.envs| - 1].name == SERVICE_BINDING_ROOT ==>
      forall j :: 0 <= j < |b.envs| - 1 ==> b.envs[j].name != SERVICE_BINDING_ROOT
  }

  /** Nothing in the container is of the kind a binding overwrites or drops. */
  predicate PristineContainer(b: Binding, c: Container) {
    && (forall e :: e in c.env ==> Foreign(e, b.secret) && e.name != SERVICE_BINDING_ROOT)
    && (forall m :: m in c.mounts ==> m.name != b.name)
  }

  predicate Pristine(b: Binding, w: Workload) {
    && (forall v :: v in Volumes(w) ==> v.name != b.name)
    && (forall c :: c in w.containers ==> PristineContainer(b, c))
    && (forall c :: c in w.initContainers ==> PristineContainer(b, c))
  }

  lemma {:induction false} FirstMatch<T>(s: seq<T>, p: T -> bool) returns (j: nat)
    requires exists e :: e in s && p(e)
    ensures j < |s| && p(s[j]) && forall k :: 0 <= k < j ==> !p(s[k])
  {
    j := 0;
    while !p(s[j])
      invariant j < |s| && forall k :: 0 <= k < j ==> !p(s[k])
      decreases |s| - j
    {
      j := j + 1;
    }
  }

  /** Deleting what was inserted or overwritten gives back the original exactly when there was nothing to
      overwrite. */
  lemma DeleteUpserted<T>(s: seq<T>, x: T, same: T -> bool)
    requires same(x)
    ensures DeleteRanging(Upsert(s, x, same), same) == Some(s) <==> forall e :: e in s ==> !same(e)
  {
    LoopIs(Upsert(s, x, same), same);
    if forall e :: e in s ==> !same(e) {
      UpsertSplits(s, x, same, |s|);
      SurvivorsSkip(s, [x], same);
      assert s + [] == s;
    } else {
      var j := FirstMatch(s, same);
      UpsertSplits(s, x, same, j);
      assert s[j := x][j] in s[j := x];
      SurvivorsWithin(s[j := x], same);
    }
  }

  /** What the removal of SERVICE_BINDING_ROOT and of the binding's own variables leaves. */
  function UnboundEnv(b: Binding, env: seq<EnvVar>): Option<seq<EnvVar>> {
    var left := DeleteRanging(env, NamedEnv(SERVICE_BINDING_ROOT));
    if left.None? then None else Some(KeepForeign(left.value, b.secret))
  }

  predicate PristineEnv(b: Binding, env: seq<EnvVar>) {
    forall e :: e in env ==> Foreign(e, b.secret) && e.name != SERVICE_BINDING_ROOT
  }

  lemma AddedIsSafe(b: Binding, env: seq<EnvVar>)
    requires PristineEnv(b, env) && b.name != ""
    ensures OutOfBounds(Added(b, env), NamedEnv(SERVICE_BINDING_ROOT)) <==> !EnvsSafe(b)
  {
    AddedRoots(b, env);
    var proj := Projected(b.envs, b.secret);
    assert forall j :: 0 <= j < |b.envs| ==> proj[j].name == b.envs[j].name;
  }

  /** Binding a pristine container adds SERVICE_BINDING_ROOT unless the binding declares it. */
  lemma AddedRoots(b: Binding, env: seq<EnvVar>)
    requires PristineEnv(b, env) && b.name != ""
    ensures Added(b, env) == Projected(b.envs, b.secret)
            || (Added(b, env) == Projected(b.envs, b.secret) + [RootVar]
                && forall j :: 0 <= j < |b.envs| ==> b.envs[j].name != SERVICE_BINDING_ROOT)
  {
    var own, proj := OwnVars(b, env), Projected(b.envs, b.secret);
    RootPathNonEmpty(own, b.name);
    if RootMountPath(own, b.name) != "" {
      assert Added(b, env) == proj;
    } else {
      forall j | 0 <= j < |b.envs| ensures b.envs[j].name != SERVICE_BINDING_ROOT {
        assert proj[j] in own && proj[j].name == b.envs[j].name;
      }
    }
  }

  lemma SuffixIsRemoved(env: seq<EnvVar>, added: seq<EnvVar>, p: EnvVar -> bool, secret: string)
    requires forall e :: e in env ==> Foreign(e, secret) && !p(e)
    requires forall e :: e in added ==> !Foreign(e, secret)
    ensures KeepForeign(Survivors(env + added, p), secret) == env
  {
    SurvivorsSkip(env, added, p);
    SurvivorsWithin(added, p);
    KeepForeignAppend(env, Survivors(added, p), secret);
    KeepForeignNone(Survivors(added, p), secret);
    KeepForeignMembers(env, secret);
  }

  lemma PristineEnvIsRestored(b: Binding, env: seq<EnvVar>)
    requires PristineEnv(b, env) && b.name != ""
    ensures UnboundEnv(b, BoundEnv(b, env)) == if EnvsSafe(b) then Some(env) else None
  {
    var root := NamedEnv(SERVICE_BINDING_ROOT);
    BoundEnvSplits(b, env);
    assert BoundEnv(b, env) == env + Added(b, env) by { KeepForeignMembers(env, b.secret); }
    LoopIs(BoundEnv(b, env), root);
    AddedIsSafe(b, env);
    OutOfBoundsSkip(env, Added(b, env), root);
    SuffixIsRemoved(env, Added(b, env), root, b.secret);
  }

  lemma OutOfBoundsSkip<T>(x: seq<T>, y: seq<T>, p: T -> bool)
    requires forall e :: e in x ==> !p(e)
    ensures OutOfBounds(x + y, p) <==> OutOfBounds(y, p)
  {
    var s := x + y;
    if OutOfBounds(s, p) {
      var j :| 0 <= j < |s| - 1 && p(s[j]);
      assert y != [];
      assert p(y[j - |x|]);
    }
    if OutOfBounds(y, p) {
      var j :| 0 <= j < |y| - 1 && p(y[j]);
      assert s[|x| + j] == y[j];
    }
  }

  lemma RestShrinks(b: Binding, e: EnvVar, after: seq<EnvVar>)
    requires e.name == SERVICE_BINDING_ROOT
    ensures |KeepForeign(Survivors([e] + after, NamedEnv(SERVICE_BINDING_ROOT)), b.secret)|
         <= |KeepForeign(after, b.secret)|
  {
    var root := NamedEnv(SERVICE_BINDING_ROOT);
    var s := [e] + after;
    if after != [] {
      assert s[1] == after[0] && s[2..] == after[1..];
      assert after == [after[0]] + after[1..];
      SurvivorsKeepFewer(after[1..], root, b.secret);
      KeepForeignAppend([after[0]], Survivors(after[1..], root), b.secret);
      KeepForeignAppend([after[0]], after[1..], b.secret);
    }
  }

  lemma RootIsLostAt(b: Binding, before: seq<EnvVar>, e: EnvVar, after: seq<EnvVar>)
    requires forall x :: x in before ==> x.name != SERVICE_BINDING_ROOT
    requires e.name == SERVICE_BINDING_ROOT
    ensures |KeepForeign(Survivors(before + ([e] + after), NamedEnv(SERVICE_BINDING_ROOT)), b.secret)|
         <= |before| + |KeepForeign(after, b.secret)|
  {
    var root := NamedEnv(SERVICE_BINDING_ROOT);
    SurvivorsSkip(before, [e] + after, root);
    KeepForeignAppend(before, Survivors([e] + after, root), b.secret);
    RestShrinks(b, e, after);
    KeepForeignMembers(before, b.secret);
  }

  lemma RootIsLost(b: Binding, env: seq<EnvVar>, added: seq<EnvVar>, j: nat)
    requires j < |env| && env[j].name == SERVICE_BINDING_ROOT
    requires forall k :: 0 <= k < j ==> env[k].name != SERVICE_BINDING_ROOT
    requires forall e :: e in added ==> !Foreign(e, b.secret)
    ensures |KeepForeign(Survivors(env + added, NamedEnv(SERVICE_BINDING_ROOT)), b.secret)| < |env|
  {
    var before, behind := env[..j], env[j + 1..];
    assert env + added == before + ([env[j]] + (behind + added));
    RootIsLostAt(b, before, env[j], behind + added);
    ForeignPart(behind, added, b.secret);
  }

  lemma ForeignPart(x: seq<EnvVar>, added: seq<EnvVar>, secret: string)
    requires forall e :: e in added ==> !Foreign(e, secret)
    ensures |KeepForeign(x + added, secret)| <= |x|
  {
    KeepForeignAppend(x, added, secret);
    KeepForeignNone(added, secret);
    KeepForeignMembers(x, secret);
  }

  /** A variable that is dropped, or that is named SERVICE_BINDING_ROOT, does not come back. */
  lemma OtherEnvIsNotRestored(b: Binding, env: seq<EnvVar>)
    requires !PristineEnv(b, env)
    ensures UnboundEnv(b, BoundEnv(b, env)) != Some(env)
  {
    var root := NamedEnv(SERVICE_BINDING_ROOT);
    LoopIs(BoundEnv(b, env), root);
    if exists e :: e in env && !Foreign(e, b.secret) {
      KeepForeignMembers(Survivors(BoundEnv(b, env), root), b.secret);
    } else {
      var e :| e in env && !(Foreign(e, b.secret) && e.name != SERVICE_BINDING_ROOT);
      assert root(e);
      BoundEnvSplits(b, env);
      KeepForeignMembers(env, b.secret);
      var j := FirstMatch(env, root);
      RootIsLost(b, env, Added(b, env), j);
    }
  }

  lemma UnbindContainerUndoesBind(b: Binding, c: Container)
    requires b.name != ""
    ensures UnbindContainer(b, BindContainer(b, c)) == Some(c) <==> PristineContainer(b, c) && EnvsSafe(b)
  {
    DeleteUpserted(c.mounts, BoundMount(b, c.env), NamedMount(b.name));
    if PristineEnv(b, c.env) {
      PristineEnvIsRestored(b, c.env);
    } else {
      OtherEnvIsNotRestored(b, c.env);
    }
  }

  lemma {:induction false} UnbindContainersUndoesBind(b: Binding, cs: seq<Container>)
    requires b.name != ""
    ensures UnbindContainers(b, BindContainers(b, cs)) == Some(cs)
       <==> forall c :: c in cs ==> PristineContainer(b, c) && EnvsSafe(b)
  {
    if cs != [] {
      var init, last := cs[..|cs| - 1], cs[|cs| - 1];
      assert cs == init + [last];
      assert BindContainers(b, cs)[..|cs| - 1] == BindContainers(b, init);
      UnbindContainersUndoesBind(b, init);
      UnbindContainerUndoesBind(b, last);
    }
  }

  /** Unbinding right after binding gives back the workload, with an absent list of volumes turned into an
      empty one, if and only if every variable refers to another secret and none is SERVICE_BINDING_ROOT, no
      volume or mount has the binding's name, and, as soon as there is a container, the variables of the
      binding itself cannot make the removal panic. */
  lemma UnbindUndoesBind(b: Binding, w: Workload)
    requires b.name != ""
    ensures Unbind(b, Bind(b, w)) == Some(w.(volumes := Some(Volumes(w))))
       <==> Pristine(b, w) && (w.containers + w.initContainers != [] ==> EnvsSafe(b))
  {
    DeleteUpserted(Volumes(w), BindingVolume(b), NamedVolume(b.name));
    UnbindContainersUndoesBind(b, w.containers);
    UnbindContainersUndoesBind(b, w.initContainers);
    assert |w.containers| > 0 ==> w.containers[0] in w.containers;
    assert |w.initContainers| > 0 ==> w.initContainers[0] in w.initContainers;
  }
}
