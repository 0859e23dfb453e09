/** Safety of the claim protocol over every interleaving, for one service `r` without HealthCheck. */
module ClaimExclusivity {
  import opened Wrappers
  import opened ClaimMachine

  predicate NotResolved(w: World, c: Name) {
    c in w.claims && |w.claims[c]| > 0 && Last(w.claims[c]).phase == Pending
  }

  /** What a worker's program counter and snapshots guarantee. */
  predicate WorkerOk(w: World, c: Name)
    requires WellFormed(w) && c in w.workers
  {
    var k := w.workers[c];
    k.Working? ==>
      && Known(w, k.service, k.sver)
      && k.cver < |w.claims[c]|
      && (k.path == Fresh ==> w.services[k.service][k.sver] == Available)
      && (k.pc == MarkClaim ==>
            && (c in w.terminating ==> !ClaimCurrent(w, c, k.cver))
            && (k.path == Held ==> w.claims[c][k.cver] == ClaimStatus(Resolved, Some(k.service))))
      && (k.pc != MarkClaim ==> NotResolved(w, c))
  }

  /** A claim names only services that exist. */
  predicate RefsOk(w: World, c: Name)
    requires c in w.claims
  {
    forall v :: 0 <= v < |w.claims[c]| ==>
      var st := w.claims[c][v]; st.service.Some? ==> st.service.value in w.services
  }

  predicate Good(w: World, c: Name, r: Name)
    requires WellFormed(w) && c in w.claims
  {
    RefsOk(w, c) && WorkerOk(w, c) && (Needs(w, c, r) ==> Holds(w, c, r))
  }

  /** Whoever relies on `r` holds it. */
  predicate Inv(w: World, r: Name) {
    WellFormed(w) && r !in w.checked && forall c :: c in w.claims ==> Good(w, c, r)
  }

  /** The two worlds differ at most in the claim and the worker of `c`. */
  predicate OnlyClaim(w: World, w': World, c: Name) {
    && w'.services == w.services && w'.owner == w.owner && w'.checked == w.checked
    && w'.claims - {c} == w.claims - {c} && w'.workers - {c} == w.workers - {c}
    && w'.terminating - {c} == w.terminating - {c}
  }

  lemma ClaimFrame(w: World, w': World, c: Name, r: Name)
    requires Inv(w, r) && WellFormed(w') && OnlyClaim(w, w', c)
    requires c in w'.claims ==> Good(w', c, r)
    ensures Inv(w', r)
  {
    forall d | d in w'.claims && d != c ensures Good(w', d, r) {
      assert d in w'.claims - {c} && d in w'.workers - {c};
      assert w'.claims[d] == (w'.claims - {c})[d] == w.claims[d];
      assert w'.workers[d] == (w'.workers - {c})[d] == w.workers[d];
      assert d in w.terminating <==> d in w.terminating - {c};
      assert Good(w, d, r);
    }
  }

  /** The two worlds differ at most in service `q`, which may have got one more content. */
  ghost predicate OnlyService(w: World, w': World, q: Name) {
    && w'.claims == w.claims && w'.workers == w.workers
    && w'.terminating == w.terminating && w'.checked == w.checked
    && q in w'.services && w'.services.Keys == w.services.Keys + {q}
    && (q in w.services ==> w.services[q] <= w'.services[q])
    && (forall p :: p in w.services && p != q ==> w'.services[p] == w.services[p])
    && w'.owner - {q} == w.owner - {q}
  }

  lemma HoldsElsewhere(w: World, w': World, q: Name, c: Name, r: Name)
    requires OnlyService(w, w', q) && r != q && r in w.services
    ensures Holds(w', c, r) <==> Holds(w, c, r)
  {
    assert r in w.owner <==> r in w.owner - {q};
    assert r in w'.owner <==> r in w'.owner - {q};
    if r in w.owner {
      assert (w'.owner - {q})[r] == (w.owner - {q})[r];
    }
  }

  /** What happens to a service keeps the invariant if and only if nobody who relies on `r` loses it. */
  lemma ServiceFrame(w: World, w': World, q: Name, r: Name)
    requires Inv(w, r) && WellFormed(w') && OnlyService(w, w', q)
    ensures Inv(w', r) <==> q == r ==> forall c :: c in w.claims && Needs(w, c, r) ==> Holds(w', c, r)
  {
    forall c | c in w'.claims ensures Good(w', c, r) <==> (q == r && Needs(w, c, r) ==> Holds(w', c, r)) {
      assert Good(w, c, r);
      var k := w.workers[c];
      if k.Working? {
        assert Known(w', k.service, k.sver);
        assert w'.services[k.service][k.sver] == w.services[k.service][k.sver];
      }
      if q != r && Needs(w, c, r) {
        HoldsElsewhere(w, w', q, c, r);
      }
    }
  }

  lemma InitialOk(w: World, r: Name)
    requires Initial(w) && r !in w.checked
    ensures Inv(w, r)
  {
  }

  lemma KeepBegin(w: World, c: Name, a: WorkerAct, r: Name)
    requires Inv(w, r) && WorkerMay(w, c, a) && a.Begin?
    ensures Inv(ApplyWork(w, c, a), r)
  {
    assert Good(w, c, r);
    ClaimFrame(w, ApplyWork(w, c, a), c, r);
  }

  lemma KeepWorker(w: World, c: Name, k: Worker, r: Name)
    requires Inv(w, r) && c in w.claims && Good(SetWorker(w, c, k), c, r)
    ensures Inv(SetWorker(w, c, k), r)
  {
    ClaimFrame(w, SetWorker(w, c, k), c, r);
  }

  lemma KeepWriteClaim(w: World, c: Name, r: Name)
    requires Inv(w, r) && AtPc(w, c, MarkClaim)
    ensures Inv(AfterWriteClaim(w, c), r)
  {
    assert Good(w, c, r);
    ClaimFrame(w, AfterWriteClaim(w, c), c, r);
  }

  lemma KeepWriteResolved(w: World, c: Name, r: Name)
    requires Inv(w, r) && AtPc(w, c, Resolve)
    ensures Inv(AfterWriteResolved(w, c), r)
  {
    assert Good(w, c, r);
    ClaimFrame(w, AfterWriteResolved(w, c), c, r);
  }

  lemma KeepTake(w: World, c: Name, q: Name, bump: bool, r: Name)
    requires Inv(w, r) && q in w.services
    ensures Inv(TakeService(w, c, q, bump), r)
    ensures q == r && InState(w, r, Claimed) ==> TakeService(w, c, r, bump).owner == w.owner
  {
    if TakeService(w, c, q, bump) != w {
      forall d | d in w.claims && Needs(w, d, r) && q == r ensures Holds(TakeService(w, c, q, bump), d, r) {
        assert Good(w, d, r);
      }
      ServiceFrame(w, TakeService(w, c, q, bump), q, r);
    }
  }

  /** The write that marks a service: at a version that is still current the worker's claim owns the service
      afterwards and the worker goes on; at an older version nothing is written and the worker gives up. */
  lemma KeepWriteService(w: World, c: Name, bump: bool, r: Name)
    requires Inv(w, r) && AtPc(w, c, MarkService)
    ensures Inv(AfterWriteService(w, c, bump), r)
    ensures var k := w.workers[c]; var w' := AfterWriteService(w, c, bump);
      k.service == r ==>
        if Current(w, r, k.sver) then Holds(w', c, r) && AtPc(w', c, Push)
        else w'.services == w.services && w'.owner == w.owner && IsIdle(w', c)
  {
    assert Good(w, c, r);
    var k := w.workers[c];
    if Current(w, k.service, k.sver) {
      KeepTake(w, c, k.service, bump, r);
      var w1 := TakeService(w, c, k.service, bump);
      assert Good(w1, c, r);
      KeepWorker(w1, c, k.(pc := Push), r);
    } else {
      KeepWorker(w, c, Idle, r);
    }
  }

  /** Freeing a service keeps the invariant if and only if nobody relies on it. */
  lemma KeepFree(w: World, q: Name, r: Name)
    requires Inv(w, r) && q in w.services
    ensures Inv(FreeService(w, q), r) <==> q == r ==> forall d :: d in w.claims ==> !Needs(w, d, r)
  {
    ServiceFrame(w, FreeService(w, q), q, r);
  }

  lemma KeepWriteRollback(w: World, c: Name, r: Name)
    requires Inv(w, r) && AtPc(w, c, Rollback)
    ensures Inv(AfterWriteRollback(w, c), r)
  {
    assert Good(w, c, r);
    var k := w.workers[c];
    var w1 := SetWorker(w, c, Idle);
    KeepWorker(w, c, Idle, r);
    if Current(w, k.service, k.sver) {
      forall d | d in w1.claims && k.service == r ensures !Needs(w1, d, r) {
        assert Good(w, d, r);
      }
      KeepFree(w1, k.service, r);
    }
  }

  lemma WorkKeepsInv(w: World, c: Name, a: WorkerAct, r: Name)
    requires Inv(w, r) && WorkerMay(w, c, a)
    ensures Inv(ApplyWork(w, c, a), r)
  {
    assert Good(w, c, r);
    match a {
      case Begin(_, _, _, _) => KeepBegin(w, c, a, r);
      case GiveUp => KeepWorker(w, c, Idle, r);
      case WriteClaim => KeepWriteClaim(w, c, r);
      case WriteService(bump) => KeepWriteService(w, c, bump, r);
      case PushEnds(ok) => KeepWorker(w, c, w.workers[c].(pc := if ok then Resolve else Rollback), r);
      case WriteResolved => KeepWriteResolved(w, c, r);
      case WriteRollback => KeepWriteRollback(w, c, r);
    }
  }

  lemma KeepPutClaim(w: World, c: Name, st: ClaimStatus, terminating: set<Name>, r: Name)
    requires Inv(w, r) && c in w.claims && st in w.claims[c]
    requires terminating == w.terminating || terminating == w.terminating + {c}
    requires st == Last(w.claims[c]) || (st.phase == Pending && IsIdle(w, c))
    ensures Inv(PutClaim(w, c, st).(terminating := terminating), r)
  {
    assert Good(w, c, r);
    ClaimFrame(w, PutClaim(w, c, st).(terminating := terminating), c, r);
  }

  lemma ClaimEventKeepsInv(w: World, c: Name, a: ClaimAct, r: Name)
    requires Inv(w, r) && ClaimMay(w, c, a)
    ensures Inv(ApplyClaim(w, c, a), r) <==> Faithful(w, OfClaim(c, a), r)
  {
    assert c in w.claims ==> Good(w, c, r);
    match a {
      case FreeOnDelete(q, sver) => if Current(w, q, sver) { KeepFree(w, q, r); }
      case CreateClaim => ClaimFrame(w, ApplyClaim(w, c, a), c, r);
      case EditClaim => KeepPutClaim(w, c, Last(w.claims[c]), w.terminating, r);
      case ReportPending(cver) =>
        if ClaimCurrent(w, c, cver) { KeepPutClaim(w, c, w.claims[c][cver], w.terminating, r); }
      case MarkDeleted => KeepPutClaim(w, c, Last(w.claims[c]), w.terminating + {c}, r);
    }
  }

  lemma ServiceEventKeepsInv(w: World, q: Name, e: ServiceAct, r: Name)
    requires Inv(w, r) && ServiceMay(w, q, e)
    ensures Inv(ApplyService(w, q, e), r)
  {
    var w' := ApplyService(w, q, e);
    if w' != w {
      forall d | d in w.claims && Needs(w, d, r) && q == r ensures Holds(w', d, r) {
        assert Good(w, d, r);
      }
      ServiceFrame(w, w', q, r);
    }
  }

  /** A step keeps the invariant if and only if it is faithful: only the deletion of a claim can break it, and
      exactly when it frees a service that some claim relies on. */
  lemma StepKeepsInvExactlyWhen(w: World, s: Step, r: Name)
    requires Inv(w, r) && Enabled(w, s)
    ensures Inv(Apply(w, s), r) <==> Faithful(w, s, r)
  {
    match s {
      case OfWorker(c, a) => WorkKeepsInv(w, c, a, r);
      case OfClaim(c, a) => ClaimEventKeepsInv(w, c, a, r);
      case OfService(q, e) => ServiceEventKeepsInv(w, q, e, r);
    }
  }
}
