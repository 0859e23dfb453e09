/** When the order of several bindings on one workload matters: a binding that declares SERVICE_BINDING_ROOT as
    one of its variables moves the mounts of the bindings that come after it. */
module BindingOrder {
  import opened RangeDelete
  import opened Projection
  import opened BindingLaws
  import opened BindingConfluence

  function BindAllIn(bs: seq<Binding>, run: seq<nat>, c: Container): Container
    requires InRange(bs, run)
  {
    if run == [] then c
    else BindContainer(bs[run[|run| - 1]], BindAllIn(bs, run[..|run| - 1], c))
  }

  lemma {:induction false} BindAllPointwise(bs: seq<Binding>, run: seq<nat>, w: Workload)
    requires InRange(bs, run)
    ensures var w' := BindAll(bs, run, w);
      && |w'.containers| == |w.containers| && |w'.initContainers| == |w.initContainers|
      && (forall q :: 0 <= q < |w.containers| ==> w'.containers[q] == BindAllIn(bs, run, w.containers[q]))
      && (forall q :: 0 <= q < |w.initContainers| ==>
            w'.initContainers[q] == BindAllIn(bs, run, w.initContainers[q]))
  {
    if run != [] {
      BindAllPointwise(bs, run[..|run| - 1], w);
    }
  }

  /** No container ever gets a second mount of the name of a binding. */
  lemma {:induction false} OneMountEach(bs: seq<Binding>, run: seq<nat>, c: Container, i: nat)
    requires Independent(bs) && InRange(bs, run) && i < |bs| && AtMostOne(c.mounts, NamedMount(bs[i].name))
    ensures AtMostOne(BindAllIn(bs, run, c).mounts, NamedMount(bs[i].name))
  {
    if run != [] {
      var before, k := run[..|run| - 1], run[|run| - 1];
      OneMountEach(bs, before, c, i);
      var d := BindAllIn(bs, before, c);
      if k == i {
        UpsertSame(d.mounts, BoundMount(bs[i], d.env), NamedMount(bs[i].name));
      } else {
        assert bs[if k < i then k else i].name != bs[if k < i then i else k].name;
        UpsertOther(d.mounts, BoundMount(bs[k], d.env), NamedMount(bs[k].name), NamedMount(bs[i].name));
      }
    }
  }

  lemma OtherKeepsMount(bs: seq<Binding>, c: Container, i: nat, k: nat)
    requires Independent(bs) && i < |bs| && k < |bs| && i != k && StandardMount(bs[i], false) in c.mounts
    ensures StandardMount(bs[i], false) in BindContainer(bs[k], c).mounts
  {
    assert bs[if k < i then k else i].name != bs[if k < i then i else k].name;
    UpsertKeeps(c.mounts, BoundMount(bs[k], c.env), NamedMount(bs[k].name), StandardMount(bs[i], false));
  }

  lemma FirstMount(b: Binding, c: Container)
    requires PlainRoot(c.env) && !DeclaresRoot(b)
    ensures StandardMount(b, false) in BindContainer(b, c).mounts
  {
    OwnPath(b, c.env);
    UpsertHas(c.mounts, BoundMount(b, c.env), NamedMount(b.name));
  }

  lemma BindOneMore(bs: seq<Binding>, run: seq<nat>, k: nat, c: Container)
    requires InRange(bs, run) && k < |bs|
    ensures InRange(bs, run + [k]) && BindAllIn(bs, run + [k], c) == BindContainer(bs[k], BindAllIn(bs, run, c))
  {
  }

  /** A binding that comes first on a plain container is mounted under the bindings directory, and the later
      ones leave its mount alone. */
  lemma {:induction false} FirstIsMountedUnderRoot(bs: seq<Binding>, rest: seq<nat>, c: Container, i: nat)
    requires Independent(bs) && InRange(bs, [i] + rest) && i < |bs| && i !in rest
    requires PlainRoot(c.env) && !DeclaresRoot(bs[i])
    ensures StandardMount(bs[i], false) in BindAllIn(bs, [i] + rest, c).mounts
  {
    if rest == [] {
      FirstMount(bs[i], c);
      BindOneMore(bs, [], i, c);
      assert [i] + rest == [] + [i];
    } else {
      var before, k := rest[..|rest| - 1], rest[|rest| - 1];
      assert [i] + rest == ([i] + before) + [k];
      assert ([i] + rest)[|rest|] == k && forall q :: 0 <= q < |rest| ==> ([i] + before)[q] == ([i] + rest)[q];
      FirstIsMountedUnderRoot(bs, before, c, i);
      OtherKeepsMount(bs, BindAllIn(bs, [i] + before, c), i, k);
      BindOneMore(bs, [i] + before, k, c);
    }
  }

  predicate HasRootOf(b: Binding, env: seq<EnvVar>) {
    exists e :: e in env && e.name == SERVICE_BINDING_ROOT && e.source.SecretKey? && e.source.secret == b.secret
  }

  /** The SERVICE_BINDING_ROOT variable of a rooted binding stays once it is there. */
  lemma {:induction false} RootStays(bs: seq<Binding>, run: seq<nat>, c: Container, j: nat)
    requires Independent(bs) && InRange(bs, run) && j < |bs| && j in run && DeclaresRoot(bs[j])
    ensures HasRootOf(bs[j], BindAllIn(bs, run, c).env)
  {
    var before, k := run[..|run| - 1], run[|run| - 1];
    assert run == before + [k];
    var d := BindAllIn(bs, before, c);
    if k == j {
      var e :| e in bs[j].envs && e.name == SERVICE_BINDING_ROOT;
      var q :| 0 <= q < |bs[j].envs| && bs[j].envs[q] == e;
      assert Projected(bs[j].envs, bs[j].secret)[q] in BoundEnv(bs[j], d.env);
    } else {
      RootStays(bs, before, c, j);
      var e :| e in d.env && e.name == SERVICE_BINDING_ROOT && e.source.SecretKey? && e.source.secret == bs[j].secret;
      assert bs[if k < j then k else j].secret != bs[if k < j then j else k].secret;
      KeepForeignMembers(d.env, bs[k].secret);
      assert e in BoundEnv(bs[k], d.env);
    }
  }

  /** A binding that comes last, after a rooted one, is mounted under its bare name. */
  lemma LastIsMountedBare(bs: seq<Binding>, before: seq<nat>, c: Container, i: nat, j: nat)
    requires Independent(bs) && InRange(bs, before) && i < |bs| && j < |bs| && i != j && j in before
    requires DeclaresRoot(bs[j])
    ensures InRange(bs, before + [i]) && StandardMount(bs[i], true) in BindAllIn(bs, before + [i], c).mounts
  {
    RootStays(bs, before, c, j);
    var d := BindAllIn(bs, before, c);
    assert bs[if i < j then i else j].secret != bs[if i < j then j else i].secret;
    OwnPath(bs[i], d.env);
    UpsertHas(d.mounts, BoundMount(bs[i], d.env), NamedMount(bs[i].name));
    assert (before + [i])[..|before|] == before;
  }

  /** All indices below `n` except `skip`, in order. */
  function UpTo(n: nat, skip: nat): (r: seq<nat>)
    ensures forall k: nat :: k in r <==> k < n && k != skip
  {
    if n == 0 then [] else if n - 1 == skip then UpTo(n - 1, skip) else UpTo(n - 1, skip) + [n - 1]
  }

  /** Binding `i` first or last, and all the others in between. */
  lemma FirstAndLastCover(bs: seq<Binding>, i: nat)
    requires i < |bs|
    ensures Covers(bs, [i] + UpTo(|bs|, i)) && Covers(bs, UpTo(|bs|, i) + [i])
  {
    var rest := UpTo(|bs|, i);
    assert forall k :: 0 <= k < |rest| ==> rest[k] in rest;
    forall k | 0 <= k < |bs| ensures k in [i] + rest && k in rest + [i] {
      assert k == i || k in rest;
    }
  }

  lemma DifferentMount(b: Binding, m1: seq<Mount>, m2: seq<Mount>)
    requires AtMostOne(m1, NamedMount(b.name)) && StandardMount(b, false) in m1 && StandardMount(b, true) in m2
    ensures multiset(m1) != multiset(m2)
  {
    var bare := StandardMount(b, true);
    var q :| 0 <= q < |m1| && m1[q] == StandardMount(b, false);
    assert |m1[q].path| > |bare.path|;
    OnlyAt(m1, NamedMount(b.name), q, bare);
    assert bare in multiset(m2);
  }

  lemma BoundLast(bs: seq<Binding>, c: Container, i: nat, j: nat)
    requires Independent(bs) && i < |bs| && j < |bs| && i != j && DeclaresRoot(bs[j])
    ensures InRange(bs, UpTo(|bs|, i) + [i])
    ensures StandardMount(bs[i], true) in BindAllIn(bs, UpTo(|bs|, i) + [i], c).mounts
  {
    var rest := UpTo(|bs|, i);
    assert forall k :: 0 <= k < |rest| ==> rest[k] in rest;
    LastIsMountedBare(bs, rest, c, i, j);
  }

  /** With a rooted and an unrooted binding, two orders give a container different mounts. */
  lemma MixedOrdersDiffer(bs: seq<Binding>, c: Container, i: nat, j: nat)
    requires Independent(bs) && i < |bs| && j < |bs| && !DeclaresRoot(bs[i]) && DeclaresRoot(bs[j])
    requires PlainRoot(c.env) && AtMostOne(c.mounts, NamedMount(bs[i].name))
    ensures var r1, r2 := [i] + UpTo(|bs|, i), UpTo(|bs|, i) + [i];
      && InRange(bs, r1) && InRange(bs, r2)
      && multiset(BindAllIn(bs, r1, c).mounts) != multiset(BindAllIn(bs, r2, c).mounts)
  {
    var r1, r2 := [i] + UpTo(|bs|, i), UpTo(|bs|, i) + [i];
    FirstAndLastCover(bs, i);
    FirstIsMountedUnderRoot(bs, UpTo(|bs|, i), c, i);
    BoundLast(bs, c, i, j);
    OneMountEach(bs, r1, c, i);
    DifferentMount(bs[i], BindAllIn(bs, r1, c).mounts, BindAllIn(bs, r2, c).mounts);
  }

  /** Any two runs in which every binding occurs have the same outcome. */
  ghost predicate OrderFree(bs: seq<Binding>, w: Workload) {
    forall r1, r2 :: Covers(bs, r1) && Covers(bs, r2) ==> SameProjection(BindAll(bs, r1, w), BindAll(bs, r2, w))
  }

  ghost predicate AllOrNone(bs: seq<Binding>) {
    (forall i :: 0 <= i < |bs| ==> !DeclaresRoot(bs[i])) || (forall i :: 0 <= i < |bs| ==> DeclaresRoot(bs[i]))
  }

  lemma FirstContainerDiffers(bs: seq<Binding>, w: Workload, r1: seq<nat>, r2: seq<nat>)
    requires InRange(bs, r1) && InRange(bs, r2) && w.containers != []
    requires multiset(BindAllIn(bs, r1, w.containers[0]).mounts) != multiset(BindAllIn(bs, r2, w.containers[0]).mounts)
    ensures !SameProjection(BindAll(bs, r1, w), BindAll(bs, r2, w))
  {
    BindAllPointwise(bs, r1, w);
    BindAllPointwise(bs, r2, w);
  }

  lemma MixedRunsDiffer(bs: seq<Binding>, w: Workload, i: nat, j: nat)
    requires Independent(bs) && w.containers != []
    requires PlainRoot(w.containers[0].env) && i < |bs| && AtMostOne(w.containers[0].mounts, NamedMount(bs[i].name))
    requires j < |bs| && !DeclaresRoot(bs[i]) && DeclaresRoot(bs[j])
    ensures var r1, r2 := [i] + UpTo(|bs|, i), UpTo(|bs|, i) + [i];
      && InRange(bs, r1) && InRange(bs, r2) && !SameProjection(BindAll(bs, r1, w), BindAll(bs, r2, w))
  {
    MixedOrdersDiffer(bs, w.containers[0], i, j);
    FirstContainerDiffers(bs, w, [i] + UpTo(|bs|, i), UpTo(|bs|, i) + [i]);
  }

  lemma TwoRunsDiffer(bs: seq<Binding>, w: Workload, r1: seq<nat>, r2: seq<nat>)
    requires Covers(bs, r1) && Covers(bs, r2) && !SameProjection(BindAll(bs, r1, w), BindAll(bs, r2, w))
    ensures !OrderFree(bs, w)
  {
  }

  lemma MixedIsOrdered(bs: seq<Binding>, w: Workload, i: nat, j: nat)
    requires Independent(bs) && Ready(bs, w) && w.containers != []
    requires i < |bs| && j < |bs| && !DeclaresRoot(bs[i]) && DeclaresRoot(bs[j])
    ensures !OrderFree(bs, w)
  {
    assert w.containers[0] in w.containers;
    FirstAndLastCover(bs, i);
    MixedRunsDiffer(bs, w, i, j);
    TwoRunsDiffer(bs, w, [i] + UpTo(|bs|, i), UpTo(|bs|, i) + [i]);
  }

  /** For a workload with a container, the order and number of the bindings is irrelevant if and only if none or
      all of them declare SERVICE_BINDING_ROOT. */
  lemma OrderFreeExactlyWhen(bs: seq<Binding>, w: Workload)
    requires Independent(bs) && Ready(bs, w) && w.containers != []
    ensures OrderFree(bs, w) <==> AllOrNone(bs)
  {
    if AllOrNone(bs) {
      var rooted := |bs| > 0 && DeclaresRoot(bs[0]);
      forall r1, r2 | Covers(bs, r1) && Covers(bs, r2)
        ensures SameProjection(BindAll(bs, r1, w), BindAll(bs, r2, w))
      {
        Confluence(bs, rooted, r1, r2, w);
      }
    } else {
      var i :| 0 <= i < |bs| && !DeclaresRoot(bs[i]);
      var j :| 0 <= j < |bs| && DeclaresRoot(bs[j]);
      MixedIsOrdered(bs, w, i, j);
    }
  }
}
