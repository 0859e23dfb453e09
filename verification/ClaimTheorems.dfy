/** What the invariant gives for whole runs of the claim protocol, for one service `r` without HealthCheck. */
module ClaimTheorems {
  import opened Runs
  import opened ClaimMachine
  import opened ClaimExclusivity

  lemma {:induction false} InvUpTo(tr: seq<World>, i: nat, r: Name)
    requires IsRun(StartFor(r), AnyNext, tr) && i < |tr|
    requires forall k: nat :: k < i ==> StepAt(NextFor(r), tr, k)
    ensures Inv(tr[i], r)
  {
    if i == 0 {
      InitialOk(tr[0], r);
    } else {
      InvUpTo(tr, i - 1, r);
      assert StepAt(NextFor(r), tr, i - 1);
      var s :| Enabled(tr[i - 1], s) && Faithful(tr[i - 1], s, r) && tr[i] == Apply(tr[i - 1], s);
      StepKeepsInvExactlyWhen(tr[i - 1], s, r);
    }
  }

  lemma FaithfulIsAny(r: Name, tr: seq<World>)
    requires IsRun(StartFor(r), NextFor(r), tr)
    ensures IsRun(StartFor(r), AnyNext, tr)
  {
    forall k: nat | k + 1 < |tr| ensures StepAt(AnyNext, tr, k) {
      assert StepAt(NextFor(r), tr, k);
    }
  }

  lemma RunKeepsInv(tr: seq<World>, i: nat, r: Name)
    requires IsRun(StartFor(r), NextFor(r), tr) && i < |tr|
    ensures Inv(tr[i], r)
  {
    FaithfulIsAny(r, tr);
    InvUpTo(tr, i, r);
  }

  /** Exclusivity, over every run whose claim deletions are faithful to `r`, whatever they do to other services:
      a live claim that is resolved to `r` finds it Claimed, and no other live claim is resolved to it. */
  lemma Exclusivity(tr: seq<World>, i: nat, c: Name, d: Name, r: Name)
    requires IsRun(StartFor(r), NextFor(r), tr) && i < |tr|
    requires ResolvedTo(tr[i], c, r) && c !in tr[i].terminating
    ensures InState(tr[i], r, Claimed)
    ensures ResolvedTo(tr[i], d, r) && d !in tr[i].terminating ==> d == c
  {
    RunKeepsInv(tr, i, r);
    assert Good(tr[i], c, r);
    if ResolvedTo(tr[i], d, r) && d !in tr[i].terminating {
      assert Good(tr[i], d, r);
    }
  }

  // -- leaving Claimed ----------------------------------------------------------------------------------

  /** The call is the rollback of a resolved claim's worker at a version that is still current. */
  predicate HeldRollback(w: World, s: Step, r: Name)
    requires WellFormed(w)
  {
    && s.OfWorker? && s.work == WriteRollback && AtPc(w, s.c, Rollback)
    && w.workers[s.c].path == Held && w.workers[s.c].service == r
    && Current(w, r, w.workers[s.c].sver)
    && r in w.owner && w.owner[r] == s.c
  }

  lemma WorkReleases(w: World, c: Name, a: WorkerAct, r: Name)
    requires Inv(w, r) && WorkerMay(w, c, a) && InState(w, r, Claimed)
    ensures !InState(ApplyWork(w, c, a), r, Claimed) <==> HeldRollback(w, OfWorker(c, a), r)
  {
    assert Good(w, c, r);
  }

  /** Release safety: a step takes the service out of Claimed exactly when it is the rollback of the claim that
      owns the service, in its resolved path and at a current version, or the finalizer write of a deleted
      claim. Every other write that tries conflicts. */
  lemma ReleaseSafety(w: World, s: Step, r: Name)
    requires Inv(w, r) && Enabled(w, s) && InState(w, r, Claimed)
    ensures !InState(Apply(w, s), r, Claimed) <==> HeldRollback(w, s, r) || FreesByDeletion(w, s, r)
  {
    match s {
      case OfWorker(c, a) => WorkReleases(w, c, a, r);
      case OfClaim(c, a) =>
      case OfService(_, _) =>
    }
  }

  // -- services that are lost ---------------------------------------------------------------------------

  /** After a push failed on the path of a Pending claim, the write that should free the service carries the
      version from before the service was claimed, so it conflicts and changes nothing. */
  lemma FreshRollbackConflicts(w: World, c: Name, r: Name)
    requires Inv(w, r) && AtPc(w, c, Rollback) && w.workers[c].path == Fresh && w.workers[c].service == r
    ensures AfterWriteRollback(w, c) == SetWorker(w, c, Idle)
  {
    assert Good(w, c, r);
  }

  /** Claim `c` is not resolved to service `r`, and its worker can only conflict on it. */
  predicate OffService(w: World, c: Name, r: Name) {
    && c in w.claims && |w.claims[c]| > 0 && c in w.workers && !ResolvedTo(w, c, r)
    && var k := w.workers[c];
       k.Working? && k.service == r ==>
         if k.path == Fresh then k.pc in {MarkClaim, MarkService, Rollback}
         else k.pc == MarkClaim && !ClaimCurrent(w, c, k.cver)
  }

  /** A service that nobody can use: Claimed for a claim that is off it. */
  predicate Leaked(w: World, c: Name, r: Name) {
    Holds(w, c, r) && OffService(w, c, r)
  }

  lemma FailedPushLeaks(w: World, c: Name, r: Name)
    requires Inv(w, r) && AtPc(w, c, Rollback) && w.workers[c].path == Fresh && w.workers[c].service == r
    ensures Leaked(AfterWriteRollback(w, c), c, r)
  {
    assert Good(w, c, r);
    FreshRollbackConflicts(w, c, r);
  }

  /** How a rollback in `before` by worker state `k` leaves the service of claim `c`: freed on the resolved path if
      the version was still current, and lost otherwise. */
  predicate RolledBack(before: World, w: World, c: Name, k: Worker)
    requires k.Working?
  {
    if k.path == Held && Current(before, k.service, k.sver) then
      InState(w, k.service, Available) && k.service !in w.owner
    else Leaked(w, c, k.service)
  }

  lemma RollbackOutcome(w: World, c: Name, r: Name)
    requires Inv(w, r) && AtPc(w, c, Rollback) && w.workers[c].service == r
    ensures RolledBack(w, AfterWriteRollback(w, c), c, w.workers[c])
  {
    assert Good(w, c, r);
  }

  lemma OwnerStays(w: World, d: Name, a: WorkerAct, c: Name, r: Name)
    requires Inv(w, r) && WorkerMay(w, d, a) && Holds(w, c, r)
    requires InState(ApplyWork(w, d, a), r, Claimed)
    ensures Holds(ApplyWork(w, d, a), c, r)
  {
  }

  lemma OffServiceStays(w: World, c: Name, r: Name, a: WorkerAct)
    requires Inv(w, r) && Leaked(w, c, r) && WorkerMay(w, c, a)
    ensures OffService(ApplyWork(w, c, a), c, r)
  {
    assert Good(w, c, r);
  }

  lemma OthersUntouched(w: World, d: Name, a: WorkerAct, c: Name)
    requires WellFormed(w) && WorkerMay(w, d, a) && c in w.claims && c != d
    ensures var w' := ApplyWork(w, d, a);
      && c in w'.claims && c in w'.workers && w'.claims[c] == w.claims[c] && w'.workers[c] == w.workers[c]
  {
  }

  lemma LeakSurvivesWork(w: World, c: Name, r: Name, d: Name, a: WorkerAct)
    requires Inv(w, r) && Leaked(w, c, r) && WorkerMay(w, d, a)
    ensures Leaked(ApplyWork(w, d, a), c, r)
  {
    WorkReleases(w, d, a, r);
    OwnerStays(w, d, a, c, r);
    if d == c {
      OffServiceStays(w, c, r, a);
    } else {
      OthersUntouched(w, d, a, c);
    }
  }

  lemma LeakSurvivesClaimEvent(w: World, c: Name, r: Name, d: Name, a: ClaimAct)
    requires Inv(w, r) && Leaked(w, c, r) && ClaimMay(w, d, a)
    ensures Leaked(ApplyClaim(w, d, a), c, r) <==> !FreesByDeletion(w, OfClaim(d, a), r)
  {
  }

  /** A lost service stays lost, whatever happens, unless the deletion of some claim frees it. */
  lemma LeakSurvivesExactlyWhen(w: World, s: Step, c: Name, r: Name)
    requires Inv(w, r) && Leaked(w, c, r) && Enabled(w, s)
    ensures Leaked(Apply(w, s), c, r) <==> !FreesByDeletion(w, s, r)
  {
    match s {
      case OfWorker(d, a) => LeakSurvivesWork(w, c, r, d, a);
      case OfClaim(d, a) => LeakSurvivesClaimEvent(w, c, r, d, a);
      case OfService(_, _) =>
    }
  }

  /** Between the two worlds the deletion of some claim freed `r`. */
  ghost predicate DeletionFrees(w: World, w': World, r: Name) {
    && WellFormed(w)
    && exists d, sver: nat :: FreesByDeletion(w, OfClaim(d, FreeOnDelete(r, sver)), r)
         && ClaimMay(w, d, FreeOnDelete(r, sver)) && w' == ApplyClaim(w, d, FreeOnDelete(r, sver))
  }

  lemma FreeingStep(w: World, s: Step, r: Name)
    requires WellFormed(w) && Enabled(w, s) && FreesByDeletion(w, s, r)
    ensures DeletionFrees(w, Apply(w, s), r)
  {
    assert s == OfClaim(s.c, FreeOnDelete(r, s.act.sver));
  }

  lemma FreedIsAvailable(w: World, w': World, r: Name)
    requires DeletionFrees(w, w', r)
    ensures InState(w', r, Available)
  {
  }

  lemma NextKeepsLeak(w: World, w': World, c: Name, r: Name)
    requires Inv(w, r) && AnyNext(w, w') && Leaked(w, c, r) && !DeletionFrees(w, w', r)
    ensures Inv(w', r) && Leaked(w', c, r)
  {
    var s :| Enabled(w, s) && w' == Apply(w, s);
    if FreesByDeletion(w, s, r) {
      FreeingStep(w, s, r);
    }
    LeakSurvivesExactlyWhen(w, s, c, r);
    StepKeepsInvExactlyWhen(w, s, r);
  }

  ghost predicate FreedAt(tr: seq<World>, k: nat, r: Name)
    requires k + 1 < |tr|
  {
    DeletionFrees(tr[k], tr[k + 1], r)
  }

  /** No deletion frees `r` from the i-th to the j-th world. */
  ghost predicate NeverFreed(tr: seq<World>, i: nat, j: nat, r: Name)
    requires j < |tr|
  {
    forall k: nat :: i <= k < j ==> !FreedAt(tr, k, r)
  }

  lemma LeakStep(tr: seq<World>, k: nat, c: Name, r: Name)
    requires IsRun(StartFor(r), AnyNext, tr) && k + 1 < |tr|
    requires Inv(tr[k], r) && Leaked(tr[k], c, r) && !FreedAt(tr, k, r)
    ensures Inv(tr[k + 1], r) && Leaked(tr[k + 1], c, r)
  {
    assert StepAt(AnyNext, tr, k);
    NextKeepsLeak(tr[k], tr[k + 1], c, r);
  }

  lemma {:induction false} LeakHolds(tr: seq<World>, i: nat, j: nat, c: Name, r: Name)
    requires IsRun(StartFor(r), AnyNext, tr) && i <= j < |tr| && Inv(tr[i], r) && Leaked(tr[i], c, r)
    requires NeverFreed(tr, i, j, r)
    ensures Inv(tr[j], r) && Leaked(tr[j], c, r)
  {
    if i < j {
      LeakHolds(tr, i, j - 1, c, r);
      assert !FreedAt(tr, j - 1, r);
      LeakStep(tr, j - 1, c, r);
    }
  }

  lemma LeakedIsUseless(w: World, c: Name, r: Name, d: Name)
    requires Inv(w, r) && Leaked(w, c, r)
    ensures InState(w, r, Claimed) && (ResolvedTo(w, d, r) ==> d in w.terminating)
  {
    if ResolvedTo(w, d, r) {
      assert Good(w, d, r);
    }
  }

  ghost predicate StaysClaimed(tr: seq<World>, i: nat, j: nat, r: Name)
    requires j < |tr|
  {
    forall k: nat :: i <= k <= j ==> InState(tr[k], r, Claimed)
  }

  /** Once a service is lost it stays Claimed over every continuation, with any deletions, if and only if the
      deletion of no claim frees it; and until then no live claim is resolved to it. */
  lemma LostExactlyUntilFreed(tr: seq<World>, i: nat, j: nat, c: Name, r: Name, d: Name)
    requires IsRun(StartFor(r), AnyNext, tr) && i <= j < |tr| && Inv(tr[i], r) && Leaked(tr[i], c, r)
    ensures StaysClaimed(tr, i, j, r) <==> NeverFreed(tr, i, j, r)
    ensures NeverFreed(tr, i, j, r) && ResolvedTo(tr[j], d, r) ==> d in tr[j].terminating
  {
    if NeverFreed(tr, i, j, r) {
      forall k: nat | i <= k <= j ensures InState(tr[k], r, Claimed) {
        LeakHolds(tr, i, k, c, r);
      }
      LeakHolds(tr, i, j, c, r);
      LeakedIsUseless(tr[j], c, r, d);
    } else {
      var k: nat :| i <= k < j && FreedAt(tr, k, r);
      FreedIsAvailable(tr[k], tr[k + 1], r);
    }
  }

  /** A push that fails on the path of a Pending claim loses the service: from the rollback on, which conflicts,
      it stays Claimed over every continuation if and only if the deletion of no claim frees it. */
  lemma FailedPushLosesService(tr: seq<World>, i: nat, j: nat, c: Name, r: Name, d: Name)
    requires IsRun(StartFor(r), AnyNext, tr) && i < j < |tr|
    requires forall k: nat :: k < i ==> StepAt(NextFor(r), tr, k)
    requires WellFormed(tr[i]) && AtPc(tr[i], c, Rollback)
    requires tr[i].workers[c].path == Fresh && tr[i].workers[c].service == r
    requires tr[i + 1] == AfterWriteRollback(tr[i], c)
    ensures StaysClaimed(tr, i + 1, j, r) <==> NeverFreed(tr, i + 1, j, r)
    ensures NeverFreed(tr, i + 1, j, r) && ResolvedTo(tr[j], d, r) ==> d in tr[j].terminating
  {
    InvUpTo(tr, i, r);
    KeepWriteRollback(tr[i], c, r);
    FailedPushLeaks(tr[i], c, r);
    LostExactlyUntilFreed(tr, i + 1, j, c, r, d);
  }

  // -- claim deletion -----------------------------------------------------------------------------------

  /** Freeing the service that the deleted claim itself still holds is always faithful. */
  lemma OwnServiceIsFaithful(w: World, c: Name, r: Name, sver: nat)
    requires Inv(w, r) && ClaimMay(w, c, FreeOnDelete(r, sver)) && Holds(w, c, r)
    ensures Faithful(w, OfClaim(c, FreeOnDelete(r, sver)), r)
  {
    forall d | d in w.claims ensures !Needs(w, d, r) {
      assert Good(w, d, r);
    }
  }

  /** Five calls of an idle worker that finds `r` Available and meets no interference. */
  function MarkIt(w: World, e: Name, r: Name): (w': World)
    requires WellFormed(w) && IsIdle(w, e) && e !in w.terminating && InState(w, r, Available)
    requires NotResolved(w, e)
    ensures WellFormed(w') && AtPc(w', e, Push) && ClaimCurrent(w', e, w'.workers[e].cver)
    ensures w'.workers[e].service == r
    ensures forall d :: d != e && d in w.claims ==> d in w'.claims && w'.claims[d] == w.claims[d]
    ensures w'.terminating == w.terminating && w'.checked == w.checked
  {
    var w1 := ApplyWork(w, e, Begin(Fresh, r, |w.services[r]| - 1, |w.claims[e]| - 1));
    var w2 := AfterWriteClaim(w1, e);
    AfterWriteService(w2, e, false)
  }

  function ClaimIt(w: World, e: Name, r: Name): (w': World)
    requires WellFormed(w) && IsIdle(w, e) && e !in w.terminating && InState(w, r, Available)
    requires NotResolved(w, e)
    ensures ResolvedTo(w', e, r)
    ensures forall d :: d != e && d in w.claims ==> d in w'.claims && w'.claims[d] == w.claims[d]
    ensures w'.terminating == w.terminating && w'.checked == w.checked
  {
    AfterWriteResolved(ApplyWork(MarkIt(w, e, r), e, PushEnds(true)), e)
  }

  /** When a deletion frees a service that a live claim is resolved to, any waiting claim can take it, and
      then two live claims are resolved to the same service. */
  lemma UnfaithfulDeletionSharesService(w: World, c: Name, r: Name, sver: nat, d: Name, e: Name)
    requires Inv(w, r) && ClaimMay(w, c, FreeOnDelete(r, sver)) && Current(w, r, sver)
    requires ResolvedTo(w, d, r) && d !in w.terminating
    requires IsIdle(w, e) && NotResolved(w, e) && e !in w.terminating
    ensures var w' := ClaimIt(ApplyClaim(w, c, FreeOnDelete(r, sver)), e, r);
            d != e && ResolvedTo(w', d, r) && ResolvedTo(w', e, r) && d !in w'.terminating && e !in w'.terminating
  {
  }
}
