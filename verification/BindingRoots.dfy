/** Which sets of bindings can be unbound again, whatever the order they were bound in: it depends on which of
    them declare SERVICE_BINDING_ROOT, and where. */
module BindingRoots {
  import opened RangeDelete
  import opened Projection
  import opened BindingLaws
  import opened BindingConfluence
  import opened BindingOrder
  import opened Finalization

  /** The last variable of the binding is SERVICE_BINDING_ROOT. */
  predicate EndsInRoot(b: Binding) {
    |b.envs| > 0 && b.envs[|b.envs| - 1].name == SERVICE_BINDING_ROOT
  }

  /** A binding whose last variable is SERVICE_BINDING_ROOT is the only one that declares it, and does so once. */
  ghost predicate RootsApart(bs: seq<Binding>) {
    forall j :: 0 <= j < |bs| && EndsInRoot(bs[j]) ==>
      EnvsSafe(bs[j]) && forall i :: 0 <= i < |bs| && i != j ==> !DeclaresRoot(bs[i])
  }

  /** After any bindings were bound, in any order and number, unbinding any of them is safe. */
  ghost predicate AlwaysReleasable(bs: seq<Binding>, w: Workload) {
    forall run, k :: InRange(bs, run) && run != [] && 0 <= k < |bs| ==> Releasable(bs[k], BindAll(bs, run, w))
  }

  // -- variables by secret --------------------------------------------------------------------------------

  predicate RootRef(e: EnvVar) {
    e.name == SERVICE_BINDING_ROOT && e.source.SecretKey?
  }

  /** The references to a secret, in order. */
  function OfSecret(env: seq<EnvVar>, secret: string): seq<EnvVar> {
    if env == [] then []
    else
      var e := env[|env| - 1];
      OfSecret(env[..|env| - 1], secret) + if RefersTo(e, secret) then [e] else []
  }

  function RootRefs(env: seq<EnvVar>): seq<EnvVar> {
    if env == [] then []
    else
      var e := env[|env| - 1];
      RootRefs(env[..|env| - 1]) + if RootRef(e) then [e] else []
  }

  lemma {:induction false} OfSecretAppend(x: seq<EnvVar>, y: seq<EnvVar>, secret: string)
    ensures OfSecret(x + y, secret) == OfSecret(x, secret) + OfSecret(y, secret)
  {
    if y == [] {
      assert x + y == x;
    } else {
      assert (x + y)[..|x + y| - 1] == x + y[..|y| - 1];
      OfSecretAppend(x, y[..|y| - 1], secret);
    }
  }

  lemma {:induction false} RootRefsAppend(x: seq<EnvVar>, y: seq<EnvVar>)
    ensures RootRefs(x + y) == RootRefs(x) + RootRefs(y)
  {
    if y == [] {
      assert x + y == x;
    } else {
      assert (x + y)[..|x + y| - 1] == x + y[..|y| - 1];
      RootRefsAppend(x, y[..|y| - 1]);
    }
  }

  lemma {:induction false} OfSecretKept(env: seq<EnvVar>, t: string, secret: string)
    ensures OfSecret(KeepForeign(env, t), secret) == if secret == t then [] else OfSecret(env, secret)
  {
    if env != [] {
      var init, e := env[..|env| - 1], env[|env| - 1];
      OfSecretKept(init, t, secret);
      OfSecretAppend(KeepForeign(init, t), [e], secret);
      assert [e][..0] == [];
    }
  }

  lemma RootRefsOfOne(x: seq<EnvVar>, e: EnvVar)
    ensures RootRefs(x + [e]) == if RootRef(e) then RootRefs(x) + [e] else RootRefs(x)
  {
    assert (x + [e])[..|x|] == x && RootRefs(x) + [] == RootRefs(x);
  }

  lemma KeptOfOne(x: seq<EnvVar>, e: EnvVar, t: string)
    ensures KeepForeign(x + [e], t) == if Foreign(e, t) then KeepForeign(x, t) + [e] else KeepForeign(x, t)
  {
    assert (x + [e])[..|x|] == x;
  }

  lemma {:induction false} RootRefsKept(env: seq<EnvVar>, t: string)
    ensures RootRefs(KeepForeign(env, t)) == KeepForeign(RootRefs(env), t)
  {
    if env != [] {
      var init, e := env[..|env| - 1], env[|env| - 1];
      RootRefsKept(init, t);
      RootRefsOfOne(KeepForeign(init, t), e);
      RootRefsOfOne(init, e);
      KeptOfOne(RootRefs(init), e, t);
      assert env == init + [e];
    }
  }

  lemma {:induction false} OfSecretAll(env: seq<EnvVar>, secret: string)
    requires forall e :: e in env ==> RefersTo(e, secret)
    ensures OfSecret(env, secret) == env
  {
    if env != [] {
      var init, last := env[..|env| - 1], env[|env| - 1];
      OfSecretAll(init, secret);
      assert env == init + [last];
    }
  }

  lemma {:induction false} OfSecretNone(env: seq<EnvVar>, secret: string)
    requires forall e :: e in env ==> !RefersTo(e, secret)
    ensures OfSecret(env, secret) == []
  {
    if env != [] {
      OfSecretNone(env[..|env| - 1], secret);
    }
  }

  lemma {:induction false} RootRefsNone(env: seq<EnvVar>)
    requires forall e :: e in env ==> !RootRef(e)
    ensures RootRefs(env) == []
  {
    if env != [] {
      RootRefsNone(env[..|env| - 1]);
    }
  }

  lemma {:induction false} RootRefsMember(env: seq<EnvVar>, e: EnvVar)
    ensures e in RootRefs(env) <==> e in env && RootRef(e)
  {
    if env != [] {
      RootRefsMember(env[..|env| - 1], e);
      assert env == env[..|env| - 1] + [env[|env| - 1]];
    }
  }

  // -- no binding ends in the root -------------------------------------------------------------------------

  /** No secret's references end in a SERVICE_BINDING_ROOT. */
  ghost predicate NeverLast(env: seq<EnvVar>) {
    forall s :: var refs := OfSecret(env, s); |refs| > 0 ==> refs[|refs| - 1].name != SERVICE_BINDING_ROOT
  }

  lemma ProjectedRefer(b: Binding, e: EnvVar)
    ensures e in Projected(b.envs, b.secret) ==> RefersTo(e, b.secret)
  {
  }

  lemma OfSecretBound(b: Binding, env: seq<EnvVar>, s: string)
    ensures OfSecret(OwnVars(b, env), s) == if s == b.secret then Projected(b.envs, b.secret) else OfSecret(env, s)
  {
    var proj := Projected(b.envs, b.secret);
    OfSecretAppend(KeepForeign(env, b.secret), proj, s);
    OfSecretKept(env, b.secret, s);
    if s == b.secret {
      OfSecretAll(proj, s);
    } else {
      OfSecretNone(proj, s);
    }
  }

  /** The appended literal refers to no secret. */
  lemma OfSecretWithLiteral(b: Binding, env: seq<EnvVar>, s: string)
    ensures OfSecret(BoundEnv(b, env), s) == OfSecret(OwnVars(b, env), s)
  {
    OfSecretAppend(OwnVars(b, env), [RootVar], s);
    assert [RootVar][..0] == [] && OwnVars(b, env) + [] == OwnVars(b, env);
  }

  lemma NeverLastStays(b: Binding, env: seq<EnvVar>)
    requires NeverLast(env) && !EndsInRoot(b)
    ensures NeverLast(BoundEnv(b, env))
  {
    forall s ensures
      var refs := OfSecret(BoundEnv(b, env), s); |refs| > 0 ==> refs[|refs| - 1].name != SERVICE_BINDING_ROOT
    {
      OfSecretBound(b, env, s);
      OfSecretWithLiteral(b, env, s);
    }
  }

  lemma NeverLastIsSafe(b: Binding, env: seq<EnvVar>)
    requires NeverLast(env) && !EndsInRoot(b) && b.name != ""
    ensures !OutOfBounds(BoundEnv(b, env), NamedEnv(SERVICE_BINDING_ROOT))
  {
    var own := OwnVars(b, env);
    BoundOutOfBounds(b, env);
    if |own| > 0 {
      var e := own[|own| - 1];
      OwnVarsRefer(b, env, e);
      OfSecretBound(b, env, e.source.secret);
      LastOfSecret(own);
    }
  }

  lemma OwnVarsRefer(b: Binding, env: seq<EnvVar>, e: EnvVar)
    ensures e in OwnVars(b, env) ==> e.source.SecretKey?
  {
    KeepForeignMembers(env, b.secret);
  }

  lemma LastOfSecret(env: seq<EnvVar>)
    requires |env| > 0 && env[|env| - 1].source.SecretKey?
    ensures var e := env[|env| - 1]; var refs := OfSecret(env, e.source.secret); |refs| > 0 && refs[|refs| - 1] == e
  {
  }

  // -- one binding ends in the root ------------------------------------------------------------------------

  /** At most one reference is named SERVICE_BINDING_ROOT, and it refers to `secret`. */
  predicate OneRootRef(env: seq<EnvVar>, secret: string) {
    |RootRefs(env)| <= 1 && forall e :: e in RootRefs(env) ==> RefersTo(e, secret)
  }

  lemma RootRefsBound(b: Binding, env: seq<EnvVar>)
    ensures RootRefs(OwnVars(b, env)) == KeepForeign(RootRefs(env), b.secret) + RootRefs(Projected(b.envs, b.secret))
    ensures RootRefs(BoundEnv(b, env)) == RootRefs(OwnVars(b, env))
  {
    RootRefsAppend(KeepForeign(env, b.secret), Projected(b.envs, b.secret));
    RootRefsKept(env, b.secret);
    RootRefsAppend(OwnVars(b, env), [RootVar]);
    assert [RootVar][..0] == [] && OwnVars(b, env) + [] == OwnVars(b, env);
  }

  lemma ProjectedOnce(b: Binding)
    requires EndsInRoot(b) && EnvsSafe(b)
    ensures |RootRefs(Projected(b.envs, b.secret))| == 1
  {
    var proj := Projected(b.envs, b.secret);
    var init := proj[..|proj| - 1];
    forall e | e in init ensures !RootRef(e) {
      var q :| 0 <= q < |init| && init[q] == e;
      assert proj[q].name == b.envs[q].name;
    }
    RootRefsNone(init);
    assert proj[|proj| - 1].name == b.envs[|b.envs| - 1].name;
  }

  lemma ProjectedNone(b: Binding)
    requires !DeclaresRoot(b)
    ensures RootRefs(Projected(b.envs, b.secret)) == []
  {
    var proj := Projected(b.envs, b.secret);
    forall e | e in proj ensures !RootRef(e) {
      var q :| 0 <= q < |proj| && proj[q] == e;
      assert b.envs[q] in b.envs;
    }
    RootRefsNone(proj);
  }

  lemma OneRootRefStays(b: Binding, env: seq<EnvVar>, secret: string)
    requires OneRootRef(env, secret)
    requires if b.secret == secret then EndsInRoot(b) && EnvsSafe(b) else !DeclaresRoot(b)
    ensures OneRootRef(BoundEnv(b, env), secret) && OneRootRef(OwnVars(b, env), secret)
  {
    RootRefsBound(b, env);
    KeepForeignMembers(RootRefs(env), b.secret);
    var proj := Projected(b.envs, b.secret);
    if b.secret == secret {
      ProjectedOnce(b);
      KeepForeignNone(RootRefs(env), b.secret);
      forall e | e in RootRefs(proj) ensures RefersTo(e, secret) {
        RootRefsMember(proj, e);
        ProjectedRefer(b, e);
      }
    } else {
      ProjectedNone(b);
    }
  }

  lemma TwoRootRefs(env: seq<EnvVar>)
    requires OutOfBounds(env, NamedEnv(SERVICE_BINDING_ROOT)) && forall e :: e in env ==> e.source.SecretKey?
    ensures |RootRefs(env)| >= 2
  {
    var init := env[..|env| - 1];
    var j :| 0 <= j < |init| && env[j].name == SERVICE_BINDING_ROOT;
    assert init[j] in init && init[j] in env && env[|env| - 1] in env;
    RootRefsMember(init, init[j]);
  }

  lemma OneRootRefIsSafe(b: Binding, env: seq<EnvVar>, secret: string)
    requires OneRootRef(OwnVars(b, env), secret) && b.name != ""
    ensures !OutOfBounds(BoundEnv(b, env), NamedEnv(SERVICE_BINDING_ROOT))
  {
    BoundOutOfBounds(b, env);
    KeepForeignMembers(env, b.secret);
    if OutOfBounds(OwnVars(b, env), NamedEnv(SERVICE_BINDING_ROOT)) {
      TwoRootRefs(OwnVars(b, env));
    }
  }

  // -- runs -----------------------------------------------------------------------------------------------

  lemma PlainStarts(env: seq<EnvVar>, secret: string)
    requires PlainRoot(env)
    ensures OneRootRef(env, secret) && NeverLast(env)
  {
    RootRefsNone(env);
    forall s ensures
      var refs := OfSecret(env, s); |refs| > 0 ==> refs[|refs| - 1].name != SERVICE_BINDING_ROOT
    {
      OfSecretWithin(env, s);
      var refs := OfSecret(env, s);
      assert |refs| > 0 ==> refs[|refs| - 1] in refs;
    }
  }

  lemma {:induction false} OfSecretWithin(env: seq<EnvVar>, s: string)
    ensures forall e :: e in OfSecret(env, s) ==> e in env && RefersTo(e, s)
  {
    if env != [] {
      OfSecretWithin(env[..|env| - 1], s);
    }
  }

  /** What every run keeps, with `j` the binding that ends in the root, if there is one. */
  ghost predicate Kept(bs: seq<Binding>, j: int, env: seq<EnvVar>) {
    if 0 <= j < |bs| then OneRootRef(env, bs[j].secret) else NeverLast(env)
  }

  ghost predicate IsTheRoot(bs: seq<Binding>, j: int) {
    if 0 <= j < |bs| then EndsInRoot(bs[j]) else forall i :: 0 <= i < |bs| ==> !EndsInRoot(bs[i])
  }

  lemma SecretsDiffer(bs: seq<Binding>, i: nat, j: nat)
    requires Independent(bs) && i < |bs| && j < |bs| && i != j
    ensures bs[i].secret != bs[j].secret
  {
    assert bs[if i < j then i else j].secret != bs[if i < j then j else i].secret;
  }

  lemma BindKeeps(bs: seq<Binding>, j: int, k: nat, env: seq<EnvVar>)
    requires Independent(bs) && RootsApart(bs) && IsTheRoot(bs, j) && k < |bs| && Kept(bs, j, env)
    ensures Kept(bs, j, BoundEnv(bs[k], env))
    ensures !OutOfBounds(BoundEnv(bs[k], env), NamedEnv(SERVICE_BINDING_ROOT))
  {
    if 0 <= j < |bs| {
      if k != j {
        SecretsDiffer(bs, k, j);
      }
      OneRootRefStays(bs[k], env, bs[j].secret);
      OneRootRefIsSafe(bs[k], env, bs[j].secret);
    } else {
      NeverLastStays(bs[k], env);
      NeverLastIsSafe(bs[k], env);
    }
  }

  lemma {:induction false} RunKeeps(bs: seq<Binding>, j: int, run: seq<nat>, c: Container)
    requires Independent(bs) && RootsApart(bs) && IsTheRoot(bs, j) && InRange(bs, run) && PlainRoot(c.env)
    ensures Kept(bs, j, BindAllIn(bs, run, c).env)
    ensures run != [] ==> !OutOfBounds(BindAllIn(bs, run, c).env, NamedEnv(SERVICE_BINDING_ROOT))
  {
    if run == [] {
      PlainStarts(c.env, if 0 <= j < |bs| then bs[j].secret else "");
    } else {
      RunKeeps(bs, j, run[..|run| - 1], c);
      BindKeeps(bs, j, run[|run| - 1], BindAllIn(bs, run[..|run| - 1], c).env);
    }
  }

  lemma {:induction false} OneVolumeEach(bs: seq<Binding>, run: seq<nat>, w: Workload, i: nat)
    requires Independent(bs) && InRange(bs, run) && i < |bs| && AtMostOne(Volumes(w), NamedVolume(bs[i].name))
    ensures AtMostOne(Volumes(BindAll(bs, run, w)), NamedVolume(bs[i].name))
    ensures run != [] ==> BindAll(bs, run, w).volumes.Some?
  {
    if run != [] {
      var before, k := run[..|run| - 1], run[|run| - 1];
      OneVolumeEach(bs, before, w, i);
      var v := BindAll(bs, before, w);
      if k == i {
        UpsertSame(Volumes(v), BindingVolume(bs[i]), NamedVolume(bs[i].name));
      } else {
        assert bs[if k < i then k else i].name != bs[if k < i then i else k].name;
        UpsertOther(Volumes(v), BindingVolume(bs[k]), NamedVolume(bs[k].name), NamedVolume(bs[i].name));
      }
    }
  }

  lemma TheRoot(bs: seq<Binding>) returns (j: int)
    ensures IsTheRoot(bs, j)
  {
    if i :| 0 <= i < |bs| && EndsInRoot(bs[i]) {
      j := i;
    } else {
      j := -1;
    }
  }

  lemma ContainerStaysReleasable(bs: seq<Binding>, run: seq<nat>, c: Container, k: nat)
    requires Independent(bs) && RootsApart(bs) && InRange(bs, run) && run != [] && k < |bs|
    requires PlainRoot(c.env) && AtMostOne(c.mounts, NamedMount(bs[k].name))
    ensures ReleasableContainer(bs[k], BindAllIn(bs, run, c))
  {
    var j := TheRoot(bs);
    RunKeeps(bs, j, run, c);
    OneMountEach(bs, run, c, k);
  }

  lemma ApartIsEnough(bs: seq<Binding>, run: seq<nat>, w: Workload, k: nat)
    requires Independent(bs) && RootsApart(bs) && Ready(bs, w) && InRange(bs, run) && run != [] && k < |bs|
    ensures Releasable(bs[k], BindAll(bs, run, w))
  {
    var w' := BindAll(bs, run, w);
    OneVolumeEach(bs, run, w, k);
    BindAllPointwise(bs, run, w);
    forall c | c in w'.containers + w'.initContainers ensures ReleasableContainer(bs[k], c) {
      if c in w'.containers {
        var q :| 0 <= q < |w'.containers| && w'.containers[q] == c;
        ContainerStaysReleasable(bs, run, w.containers[q], k);
      } else {
        var q :| 0 <= q < |w'.initContainers| && w'.initContainers[q] == c;
        ContainerStaysReleasable(bs, run, w.initContainers[q], k);
      }
    }
  }

  // -- where it goes wrong ----------------------------------------------------------------------------------

  /** A binding that ends in the root, on top of an earlier root, makes every later unbind panic. */
  lemma LastRootPanics(b: Binding, o: Binding, env: seq<EnvVar>, c: Container)
    requires EndsInRoot(b) && c.env == BoundEnv(b, env)
    requires !EnvsSafe(b) || exists e :: e in env && Foreign(e, b.secret) && e.name == SERVICE_BINDING_ROOT
    ensures UnbindContainer(o, c).None?
  {
    var kept, proj := KeepForeign(env, b.secret), Projected(b.envs, b.secret);
    var own := kept + proj;
    assert proj[|proj| - 1].name == SERVICE_BINDING_ROOT && own[|own| - 1] == proj[|proj| - 1];
    RootIsFound(own, b.name);
    if !EnvsSafe(b) {
      var q :| 0 <= q < |b.envs| - 1 && b.envs[q].name == SERVICE_BINDING_ROOT;
      assert own[|kept| + q] == proj[q] && proj[q].name == SERVICE_BINDING_ROOT;
      assert OutOfBounds(own, NamedEnv(SERVICE_BINDING_ROOT));
    } else {
      var e :| e in env && Foreign(e, b.secret) && e.name == SERVICE_BINDING_ROOT;
      KeepForeignMembers(env, b.secret);
      var q :| 0 <= q < |kept| && kept[q] == e;
      assert own[q] == e;
      assert OutOfBounds(own, NamedEnv(SERVICE_BINDING_ROOT));
    }
    ContainerPanicsExactlyWhen(o, c);
    if RootMountPath(own, b.name) == "" {
      assert BoundEnv(b, env) == own + [RootVar];
      assert own[|own| - 1].name == SERVICE_BINDING_ROOT;
      assert c.env[|own| - 1].name == SERVICE_BINDING_ROOT;
    } else {
      assert c.env == own;
    }
  }

  lemma {:induction false} RootIsFound(env: seq<EnvVar>, name: string)
    ensures (forall e :: e in env ==> e.name != SERVICE_BINDING_ROOT) ==> RootMountPath(env, name) == ""
  {
    if env != [] {
      RootIsFound(env[1..], name);
    }
  }

  /** Two bindings with different secrets that each declare SERVICE_BINDING_ROOT, the second as its last variable:
      once both are bound to a container, unbinding anything from it panics. */
  lemma TwoRootsPanic(first: Binding, second: Binding, o: Binding, c: Container)
    requires DeclaresRoot(first) && EndsInRoot(second) && first.secret != second.secret
    ensures UnbindContainer(o, BindContainer(second, BindContainer(first, c))).None?
  {
    var q :| 0 <= q < |first.envs| && first.envs[q].name == SERVICE_BINDING_ROOT;
    var e := Projected(first.envs, first.secret)[q];
    var d := BindContainer(first, c);
    assert e in Projected(first.envs, first.secret) && e in d.env && Foreign(e, second.secret);
    LastRootPanics(second, o, d.env, BindContainer(second, d));
  }

  const Left := Binding("left", "left-secret", [EnvSpec(SERVICE_BINDING_ROOT, "root")])
  const Right := Binding("right", "right-secret", [EnvSpec(SERVICE_BINDING_ROOT, "root")])

  /** The smallest case: a container without variables and mounts, and two bindings with one variable each. */
  lemma SmallestPanic(o: Binding)
    ensures UnbindContainer(o, BindContainer(Right, BindContainer(Left, Container("app", [], [])))).None?
  {
    assert Left.envs[0] in Left.envs && Left.secret[0] != Right.secret[0];
    TwoRootsPanic(Left, Right, o, Container("app", [], []));
  }

  lemma PanicIsNotReleasable(b: Binding, w: Workload)
    requires w.volumes.Some? && w.containers != [] && UnbindContainer(b, w.containers[0]).None?
    ensures !Releasable(b, w)
  {
    UnbindContainersPointwise(b, w.containers);
    ReleasesExactlyWhen(b, w);
  }

  lemma BindOne(bs: seq<Binding>, j: nat, w: Workload)
    requires j < |bs|
    ensures InRange(bs, [j]) && BindAll(bs, [j], w) == Bind(bs[j], w)
  {
    assert [j][..0] == [];
    assert BindAll(bs, [], w) == w;
  }

  lemma BindTwo(bs: seq<Binding>, i: nat, j: nat, w: Workload)
    requires i < |bs| && j < |bs|
    ensures InRange(bs, [i, j]) && BindAll(bs, [i, j], w) == Bind(bs[j], Bind(bs[i], w))
  {
    BindOne(bs, i, w);
    assert [i, j][..1] == [i];
  }

  lemma TogetherIsTooMuch(bs: seq<Binding>, w: Workload, j: nat) returns (run: seq<nat>)
    requires Independent(bs) && w.containers != [] && j < |bs| && EndsInRoot(bs[j])
    requires !EnvsSafe(bs[j]) || exists i :: 0 <= i < |bs| && i != j && DeclaresRoot(bs[i])
    ensures InRange(bs, run) && run != [] && !Releasable(bs[j], BindAll(bs, run, w))
  {
    var c := w.containers[0];
    if !EnvsSafe(bs[j]) {
      run := [j];
      BindOne(bs, j, w);
      LastRootPanics(bs[j], bs[j], c.env, BindContainer(bs[j], c));
    } else {
      var i :| 0 <= i < |bs| && i != j && DeclaresRoot(bs[i]);
      run := [i, j];
      SecretsDiffer(bs, i, j);
      BindTwo(bs, i, j, w);
      TwoRootsPanic(bs[i], bs[j], bs[j], c);
    }
    PanicIsNotReleasable(bs[j], BindAll(bs, run, w));
  }

  /** Whatever bindings of a set were bound to a workload with a container, in any order and number, unbinding any
      of them does not panic and leaves nothing of it, if and only if a binding whose last variable is
      SERVICE_BINDING_ROOT is the only one that declares it, and does so once. */
  lemma AlwaysReleasableExactlyWhen(bs: seq<Binding>, w: Workload)
    requires Independent(bs) && Ready(bs, w) && w.containers != []
    ensures AlwaysReleasable(bs, w) <==> RootsApart(bs)
  {
    if RootsApart(bs) {
      forall run, k | InRange(bs, run) && run != [] && 0 <= k < |bs|
        ensures Releasable(bs[k], BindAll(bs, run, w))
      {
        ApartIsEnough(bs, run, w, k);
      }
    } else {
      var j :| 0 <= j < |bs| && EndsInRoot(bs[j])
        && !(EnvsSafe(bs[j]) && forall i :: 0 <= i < |bs| && i != j ==> !DeclaresRoot(bs[i]));
      var run := TogetherIsTooMuch(bs, w, j);
    }
  }
}
