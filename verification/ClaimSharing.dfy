/** Runs in which the deletion of a claim makes two live claims share a service. */
module ClaimSharing {
  import opened Wrappers
  import opened Runs
  import opened ClaimMachine
  import opened ClaimExclusivity
  import opened ClaimReconciler
  import opened Selection

  ghost predicate IsAnyRun(tr: seq<World>) {
    IsRun(Initial, AnyNext, tr) && WellFormed(tr[|tr| - 1]) && tr[|tr| - 1].checked == {}
  }

  function End(tr: seq<World>): World
    requires |tr| > 0
  {
    tr[|tr| - 1]
  }

  lemma Go(tr: seq<World>, s: Step) returns (tr': seq<World>)
    requires IsAnyRun(tr) && Enabled(End(tr), s)
    ensures IsAnyRun(tr') && tr < tr' && |tr'| == |tr| + 1 && End(tr') == Apply(End(tr), s)
  {
    RunGrowsByStep(tr, s);
    tr' := tr + [Apply(End(tr), s)];
  }

  lemma Start() returns (tr: seq<World>)
    ensures IsAnyRun(tr) && End(tr) == World(map[], map[], map[], map[], {}, {})
  {
    tr := [World(map[], map[], map[], map[], {}, {})];
  }

  /** A new service is reconciled to Available. */
  lemma AddService(tr: seq<World>, r: Name) returns (tr': seq<World>)
    requires IsAnyRun(tr) && r !in End(tr).services
    ensures IsAnyRun(tr') && tr <= tr'
    ensures End(tr') == End(tr).(services := End(tr).services[r := [Unknown, Available]])
  {
    tr' := Go(tr, OfService(r, CreateService));
    tr' := Go(tr', OfService(r, ReconcileService(0, false)));
    assert [SvcState.Unknown] + [SvcState.Available] == [SvcState.Unknown, SvcState.Available];
    assert End(tr').services == End(tr).services[r := [Unknown, Available]];
  }

  lemma AddClaim(tr: seq<World>, c: Name) returns (tr': seq<World>)
    requires IsAnyRun(tr) && c !in End(tr).claims
    ensures IsAnyRun(tr') && tr <= tr'
    ensures End(tr') == End(tr).(claims := End(tr).claims[c := [ClaimStatus(Pending, None)]],
                                 workers := End(tr).workers[c := Idle])
  {
    tr' := Go(tr, OfClaim(c, CreateClaim));
  }

  /** The claim is waiting. */
  predicate Waits(w: World, e: Name) {
    IsIdle(w, e) && NotResolved(w, e) && e !in w.terminating
  }

  /** A waiting claim takes an Available service, without interference. Of other claims `o` and `p` nothing moves,
      nor of service `q`. */
  lemma Claims(tr: seq<World>, e: Name, r: Name, o: Name, p: Name, q: Name) returns (tr': seq<World>)
    requires IsAnyRun(tr) && Waits(End(tr), e) && InState(End(tr), r, Available)
    ensures IsAnyRun(tr') && tr <= tr'
    ensures ResolvedTo(End(tr'), e, r) && InState(End(tr'), r, Claimed) && IsIdle(End(tr'), e)
    ensures End(tr').services.Keys == End(tr).services.Keys && End(tr').terminating == End(tr).terminating
    ensures q in End(tr).services && q != r ==> End(tr').services[q] == End(tr).services[q]
    ensures o in End(tr).claims && o != e ==> Unmoved(End(tr), End(tr'), o)
    ensures p in End(tr).claims && p != e ==> Unmoved(End(tr), End(tr'), p)
  {
    var w := End(tr);
    tr' := Go(tr, OfWorker(e, Begin(Fresh, r, |w.services[r]| - 1, |w.claims[e]| - 1)));
    tr' := Go(tr', OfWorker(e, WriteClaim));
    tr' := Go(tr', OfWorker(e, WriteService(false)));
    tr' := Go(tr', OfWorker(e, PushEnds(true)));
    tr' := Go(tr', OfWorker(e, WriteResolved));
  }

  predicate Unmoved(w: World, w': World, d: Name) {
    && d in w.claims && d in w'.claims && d in w.workers && d in w'.workers
    && w'.claims[d] == w.claims[d] && w'.workers[d] == w.workers[d]
  }

  /** The claim is marked as deleted. */
  lemma Marks(tr: seq<World>, c: Name, o: Name, p: Name) returns (tr': seq<World>)
    requires IsAnyRun(tr) && c in End(tr).claims && IsIdle(End(tr), c)
    ensures IsAnyRun(tr') && tr <= tr'
    ensures var w, w' := End(tr), End(tr');
      && w'.services == w.services && w'.terminating == w.terminating + {c} && IsIdle(w', c)
      && c in w'.claims && Last(w'.claims[c]) == Last(w.claims[c])
      && (o in w.claims && o != c ==> Unmoved(w, w', o)) && (p in w.claims && p != c ==> Unmoved(w, w', p))
  {
    tr' := Go(tr, OfClaim(c, MarkDeleted));
  }

  /** A deleted claim frees a service. */
  lemma Frees(tr: seq<World>, c: Name, r: Name) returns (tr': seq<World>)
    requires IsAnyRun(tr) && IsIdle(End(tr), c) && c in End(tr).terminating && r in End(tr).services
    ensures IsAnyRun(tr') && tr < tr' && |tr'| == |tr| + 1
    ensures var w, w' := End(tr), End(tr');
      && w' == Apply(w, OfClaim(c, FreeOnDelete(r, |w.services[r]| - 1)))
      && InState(w', r, Available) && w'.claims == w.claims && w'.workers == w.workers
      && w'.terminating == w.terminating && w'.services.Keys == w.services.Keys
  {
    tr' := Go(tr, OfClaim(c, FreeOnDelete(r, |End(tr).services[r]| - 1)));
  }

  /** A service as it is listed now, with nothing to tell it from others. */
  function Listed(w: World, r: Name): RegisteredService
    requires r in w.services && |w.services[r]| > 0
  {
    RegisteredService(r, |w.services[r]| - 1, Last(w.services[r]), [], None, [])
  }

  /** Two live claims are resolved to one service. */
  predicate Shared(w: World, r: Name, c: Name, d: Name) {
    c != d && ResolvedTo(w, c, r) && ResolvedTo(w, d, r) && c !in w.terminating && d !in w.terminating
  }

  /** Service `s1`, or both services, and three waiting claims. */
  lemma SetUp(two: bool) returns (tr: seq<World>)
    ensures IsAnyRun(tr) && End(tr).terminating == {}
    ensures Waits(End(tr), "a") && Waits(End(tr), "b") && Waits(End(tr), "c")
    ensures InState(End(tr), "s1", Available) && (two ==> InState(End(tr), "s2", Available))
  {
    tr := Start();
    tr := AddService(tr, "s1");
    if two {
      tr := AddService(tr, "s2");
    }
    tr := AddClaim(tr, "a");
    tr := AddClaim(tr, "b");
    tr := AddClaim(tr, "c");
  }

  /** The rest of both runs: `x` frees `s1`, which `d` is resolved to, and `c` takes it. */
  lemma FreedAndTaken(tr: seq<World>, x: Name, d: Name, c: Name) returns (tr': seq<World>)
    requires IsAnyRun(tr) && IsIdle(End(tr), x) && x in End(tr).terminating && InState(End(tr), "s1", Claimed)
    requires ResolvedTo(End(tr), d, "s1") && d !in End(tr).terminating && Waits(End(tr), c) && c != d
    ensures IsAnyRun(tr') && tr < tr' && |tr'| > |tr|
    ensures tr'[|tr|] == Apply(End(tr), OfClaim(x, FreeOnDelete("s1", |End(tr).services["s1"]| - 1)))
    ensures Shared(End(tr'), "s1", d, c)
  {
    var freed := Frees(tr, x, "s1");
    tr' := Claims(freed, c, "s1", d, x, "s1");
    assert tr'[|tr|] == freed[|tr|];
  }

  lemma TwoHeld() returns (tr: seq<World>)
    ensures IsAnyRun(tr) && End(tr).terminating == {"b"} && IsIdle(End(tr), "b")
    ensures ResolvedTo(End(tr), "a", "s1") && ResolvedTo(End(tr), "b", "s2") && Waits(End(tr), "c")
    ensures InState(End(tr), "s1", Claimed) && InState(End(tr), "s2", Claimed)
  {
    tr := SetUp(true);
    tr := Claims(tr, "a", "s1", "b", "c", "s2");
    tr := Claims(tr, "b", "s2", "a", "c", "s1");
    tr := Marks(tr, "b", "a", "c");
  }

  /** Services `s1` and `s2` both suit claims `a` and `b`, which are resolved to one each. Deleting `b` frees the
      first that suits, which is the one of `a`, and a third claim takes it. */
  lemma DeletionSharesService() returns (tr: seq<World>, k: nat, rsl: seq<RegisteredService>)
    ensures IsAnyRun(tr) && k + 1 < |tr|
    ensures ResolvedTo(tr[k], "b", "s2") && FirstSuiting([], "prod", rsl, 0) && rsl[0].name == "s1"
    ensures |rsl| == 2 && rsl[1].name == "s2" && Suits([], "prod", rsl[1])
    ensures forall i :: 0 <= i < |rsl| ==> ReadFrom(tr[k], rsl[i])
    ensures WellFormed(tr[k]) && ClaimMay(tr[k], "b", FreeOnDelete("s1", rsl[0].version))
    ensures tr[k + 1] == ApplyClaim(tr[k], "b", FreeOnDelete("s1", rsl[0].version))
    ensures Shared(End(tr), "s1", "a", "c")
  {
    var held := TwoHeld();
    k := |held| - 1;
    rsl := [Listed(End(held), "s1"), Listed(End(held), "s2")];
    tr := FreedAndTaken(held, "b", "a", "c");
    assert tr[k] == held[k];
  }

  lemma FreedOnceAndTaken() returns (tr: seq<World>)
    ensures IsAnyRun(tr) && End(tr).terminating == {"a"} && IsIdle(End(tr), "a")
    ensures ResolvedTo(End(tr), "a", "s1") && ResolvedTo(End(tr), "b", "s1") && Waits(End(tr), "c")
    ensures InState(End(tr), "s1", Claimed)
  {
    tr := SetUp(false);
    tr := Claims(tr, "a", "s1", "b", "c", "s1");
    tr := Marks(tr, "a", "b", "c");
    tr := Frees(tr, "a", "s1");
    tr := Claims(tr, "b", "s1", "a", "c", "s1");
  }

  /** Even the claim's own service is freed twice when its deletion is tried again: by then `b` has it. */
  lemma RetriedDeletionSharesService() returns (tr: seq<World>, k: nat, rsl: seq<RegisteredService>)
    ensures IsAnyRun(tr) && k + 1 < |tr|
    ensures ResolvedTo(tr[k], "a", "s1") && FirstSuiting([], "prod", rsl, 0) && |rsl| == 1 && rsl[0].name == "s1"
    ensures ReadFrom(tr[k], rsl[0])
    ensures WellFormed(tr[k]) && ClaimMay(tr[k], "a", FreeOnDelete("s1", rsl[0].version))
    ensures tr[k + 1] == ApplyClaim(tr[k], "a", FreeOnDelete("s1", rsl[0].version))
    ensures Shared(End(tr), "s1", "b", "c")
  {
    var held := FreedOnceAndTaken();
    k := |held| - 1;
    rsl := [Listed(End(held), "s1")];
    tr := FreedAndTaken(held, "a", "b", "c");
    assert tr[k] == held[k];
  }
}
