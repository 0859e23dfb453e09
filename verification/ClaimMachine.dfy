/** The claim protocol (controllers/serviceclaim_controller.go and the RegisteredService reconciler) as a
    transition system.

    The API server keeps, for every object, the list of all contents it ever had. The resource version of
    a content is its index in that list, so the current version is the last index, a stale read is any
    index, and a status write that carries a version succeeds only if that version is the last index. A
    write that changes nothing may or may not produce a new version.

    One worker runs per claim. It holds a program counter and the versions it read; between any two of its
    calls anything else may happen. */
module ClaimMachine {
  import opened Wrappers

  type Name = string

  datatype SvcState = Available | Claimed | Unknown | Unreachable
  datatype Phase = Pending | Resolved
  datatype ClaimStatus = ClaimStatus(phase: Phase, service: Option<Name>)

  /** `Fresh` is `processServiceClaim`, `Held` is `processResolvedServiceClaim`. */
  datatype Path = Fresh | Held

  /** The next call of a worker: write the claim as Pending, write the service as Claimed, push the
      binding, write the claim as Resolved, or write the service back to Available. */
  datatype Pc = MarkClaim | MarkService | Push | Resolve | Rollback

  datatype Worker = Idle | Working(pc: Pc, path: Path, service: Name, sver: nat, cver: nat)

  /** `owner` is bookkeeping that no controller reads: the claim whose write last took a service from
      another state to Claimed. `checked` names the services that have a HealthCheck. */
  datatype World = World(
    services: map<Name, seq<SvcState>>,
    claims: map<Name, seq<ClaimStatus>>,
    workers: map<Name, Worker>,
    owner: map<Name, Name>,
    terminating: set<Name>,
    checked: set<Name>)

  datatype WorkerAct =
    | Begin(path: Path, r: Name, sver: nat, cver: nat)
    | GiveUp
    | WriteClaim
    | WriteService(bump: bool)
    | PushEnds(ok: bool)
    | WriteResolved
    | WriteRollback

  datatype ClaimAct =
    | CreateClaim
    | EditClaim
    | ReportPending(cver: nat)
    | MarkDeleted
    | FreeOnDelete(r: Name, sver: nat)

  datatype ServiceAct =
    | CreateService
    | EditService
    | ReconcileService(sver: nat, bump: bool)
    | HealthCheckWrite(sver: nat, state: SvcState)

  /** A call of the worker of claim `c`, another event of claim `c`, or an event of service `r`. */
  datatype Step =
    | OfWorker(c: Name, work: WorkerAct)
    | OfClaim(c: Name, act: ClaimAct)
    | OfService(r: Name, event: ServiceAct)

  function Last<T>(h: seq<T>): T
    requires |h| > 0
  {
    h[|h| - 1]
  }

  predicate WellFormed(w: World) {
    && (forall r :: r in w.services ==> |w.services[r]| > 0)
    && (forall c :: c in w.claims ==> |w.claims[c]| > 0)
    && w.workers.Keys == w.claims.Keys
  }

  predicate Known(w: World, r: Name, sver: nat) {
    r in w.services && sver < |w.services[r]|
  }

  predicate Current(w: World, r: Name, sver: nat) {
    r in w.services && sver + 1 == |w.services[r]|
  }

  predicate ClaimCurrent(w: World, c: Name, cver: nat) {
    c in w.claims && cver + 1 == |w.claims[c]|
  }

  predicate IsIdle(w: World, c: Name) {
    c in w.workers && w.workers[c] == Idle
  }

  predicate AtPc(w: World, c: Name, pc: Pc) {
    c in w.workers && w.workers[c].Working? && w.workers[c].pc == pc
  }

  predicate MayBegin(w: World, c: Name, path: Path, r: Name, sver: nat, cver: nat)
    requires WellFormed(w)
  {
    && IsIdle(w, c) && Known(w, r, sver) && cver < |w.claims[c]|
    && (c in w.terminating ==> !ClaimCurrent(w, c, cver))
    && (match path
        case Fresh => w.claims[c][cver].phase == Pending && w.services[r][sver] == Available
        case Held => w.claims[c][cver] == ClaimStatus(Resolved, Some(r)))
  }

  predicate WorkerMay(w: World, c: Name, a: WorkerAct)
    requires WellFormed(w)
  {
    match a
    case Begin(path, r, sver, cver) => MayBegin(w, c, path, r, sver, cver)
    case GiveUp => c in w.workers
    case WriteClaim => AtPc(w, c, MarkClaim)
    case WriteService(_) => AtPc(w, c, MarkService)
    case PushEnds(_) => AtPc(w, c, Push)
    case WriteResolved => AtPc(w, c, Resolve)
    case WriteRollback => AtPc(w, c, Rollback)
  }

  predicate ClaimMay(w: World, c: Name, a: ClaimAct)
    requires WellFormed(w)
  {
    match a
    case CreateClaim => c !in w.claims
    case EditClaim => c in w.claims
    case ReportPending(cver) =>
      IsIdle(w, c) && cver < |w.claims[c]| && w.claims[c][cver].phase == Pending
    case MarkDeleted => c in w.claims
    case FreeOnDelete(r, sver) => IsIdle(w, c) && c in w.terminating && Known(w, r, sver)
  }

  predicate ServiceMay(w: World, r: Name, e: ServiceAct) {
    match e
    case CreateService => r !in w.services
    case EditService => r in w.services && |w.services[r]| > 0
    case ReconcileService(sver, _) => r !in w.checked && Known(w, r, sver)
    case HealthCheckWrite(sver, _) => r in w.checked && Known(w, r, sver)
  }

  /** When a step can be taken. What a worker reads at `Begin` may be any past content, except that a claim
      read with its deletion timestamp takes the deletion branch instead. */
  predicate Enabled(w: World, s: Step)
    requires WellFormed(w)
  {
    match s
    case OfWorker(c, a) => WorkerMay(w, c, a)
    case OfClaim(c, a) => ClaimMay(w, c, a)
    case OfService(r, e) => ServiceMay(w, r, e)
  }

  function SetWorker(w: World, c: Name, k: Worker): World {
    w.(workers := w.workers[c := k])
  }

  function PutService(w: World, r: Name, st: SvcState): World
    requires r in w.services
  {
    w.(services := w.services[r := w.services[r] + [st]])
  }

  function PutClaim(w: World, c: Name, st: ClaimStatus): World
    requires c in w.claims
  {
    w.(claims := w.claims[c := w.claims[c] + [st]])
  }

  /** A write of Claimed at the current version: taking the service if it was in another state. */
  function TakeService(w: World, c: Name, r: Name, bump: bool): World
    requires r in w.services && |w.services[r]| > 0
  {
    if Last(w.services[r]) != Claimed then PutService(w, r, Claimed).(owner := w.owner[r := c])
    else if bump then PutService(w, r, Claimed)
    else w
  }

  function FreeService(w: World, r: Name): World
    requires r in w.services
  {
    PutService(w, r, Available).(owner := w.owner - {r})
  }

  /** `sclaim.Status` written as Pending with the chosen service; a conflict ends the attempt. */
  function AfterWriteClaim(w: World, c: Name): World
    requires WellFormed(w) && AtPc(w, c, MarkClaim)
  {
    var k := w.workers[c];
    if ClaimCurrent(w, c, k.cver) then
      SetWorker(PutClaim(w, c, ClaimStatus(Pending, Some(k.service))), c,
                k.(pc := MarkService, cver := |w.claims[c]|))
    else SetWorker(w, c, Idle)
  }

  function AfterWriteService(w: World, c: Name, bump: bool): World
    requires WellFormed(w) && AtPc(w, c, MarkService)
  {
    var k := w.workers[c];
    if Current(w, k.service, k.sver) then SetWorker(TakeService(w, c, k.service, bump), c, k.(pc := Push))
    else SetWorker(w, c, Idle)
  }

  function AfterWriteResolved(w: World, c: Name): World
    requires WellFormed(w) && AtPc(w, c, Resolve)
  {
    var k := w.workers[c];
    if ClaimCurrent(w, c, k.cver) then
      PutClaim(SetWorker(w, c, Idle), c, ClaimStatus(Resolved, Some(k.service)))
    else SetWorker(w, c, Idle)
  }

  /** The rollback carries the version read before the service was marked. */
  function AfterWriteRollback(w: World, c: Name): World
    requires WellFormed(w) && AtPc(w, c, Rollback)
  {
    var k := w.workers[c];
    if Current(w, k.service, k.sver) then FreeService(SetWorker(w, c, Idle), k.service)
    else SetWorker(w, c, Idle)
  }

  function ApplyWork(w: World, c: Name, a: WorkerAct): World
    requires WellFormed(w) && WorkerMay(w, c, a)
  {
    match a
    case Begin(path, r, sver, cver) => SetWorker(w, c, Working(MarkClaim, path, r, sver, cver))
    case GiveUp => SetWorker(w, c, Idle)
    case WriteClaim => AfterWriteClaim(w, c)
    case WriteService(bump) => AfterWriteService(w, c, bump)
    case PushEnds(ok) => SetWorker(w, c, w.workers[c].(pc := if ok then Resolve else Rollback))
    case WriteResolved => AfterWriteResolved(w, c)
    case WriteRollback => AfterWriteRollback(w, c)
  }

  function ApplyClaim(w: World, c: Name, a: ClaimAct): World
    requires WellFormed(w) && ClaimMay(w, c, a)
  {
    match a
    case CreateClaim => SetWorker(w.(claims := w.claims[c := [ClaimStatus(Pending, None)]]), c, Idle)
    case EditClaim => PutClaim(w, c, Last(w.claims[c]))
    case ReportPending(cver) => if ClaimCurrent(w, c, cver) then PutClaim(w, c, w.claims[c][cver]) else w
    case MarkDeleted => PutClaim(w, c, Last(w.claims[c])).(terminating := w.terminating + {c})
    case FreeOnDelete(r, sver) => if Current(w, r, sver) then FreeService(w, r) else w
  }

  /** What the RegisteredService reconciler makes of a state when the service has no HealthCheck. */
  function Settled(st: SvcState): SvcState {
    if st == Claimed then Claimed else Available
  }

  function ApplyService(w: World, r: Name, e: ServiceAct): World
    requires WellFormed(w) && ServiceMay(w, r, e)
  {
    match e
    case CreateService => w.(services := w.services[r := [Unknown]])
    case EditService => PutService(w, r, Last(w.services[r]))
    case ReconcileService(sver, bump) =>
      var st := Settled(w.services[r][sver]);
      if Current(w, r, sver) && (st != w.services[r][sver] || bump) then PutService(w, r, st) else w
    case HealthCheckWrite(sver, st) => if Current(w, r, sver) then PutService(w, r, st) else w
  }

  function Apply(w: World, s: Step): World
    requires WellFormed(w) && Enabled(w, s)
  {
    match s
    case OfWorker(c, a) => ApplyWork(w, c, a)
    case OfClaim(c, a) => ApplyClaim(w, c, a)
    case OfService(r, e) => ApplyService(w, r, e)
  }

  lemma SetWorkerWellFormed(w: World, c: Name, k: Worker)
    requires WellFormed(w) && c in w.claims
    ensures WellFormed(SetWorker(w, c, k))
  {
    assert SetWorker(w, c, k).workers.Keys == w.claims.Keys;
  }

  lemma PutClaimWellFormed(w: World, c: Name, st: ClaimStatus)
    requires WellFormed(w) && c in w.claims
    ensures WellFormed(PutClaim(w, c, st))
  {
    assert PutClaim(w, c, st).claims.Keys == w.claims.Keys;
  }

  lemma PutServiceWellFormed(w: World, r: Name, st: SvcState)
    requires WellFormed(w) && r in w.services
    ensures WellFormed(PutService(w, r, st)) && WellFormed(FreeService(w, r))
  {
  }

  lemma WorkStaysWellFormed(w: World, c: Name, a: WorkerAct)
    requires WellFormed(w) && WorkerMay(w, c, a)
    ensures WellFormed(ApplyWork(w, c, a))
  {
    forall k {
      SetWorkerWellFormed(w, c, k);
    }
    var k := w.workers[c];
    match a {
      case WriteClaim => PutClaimWellFormed(w, c, ClaimStatus(Pending, Some(k.service)));
      case WriteResolved => PutClaimWellFormed(SetWorker(w, c, Idle), c, ClaimStatus(Resolved, Some(k.service)));
      case WriteRollback =>
        if Current(w, k.service, k.sver) { PutServiceWellFormed(SetWorker(w, c, Idle), k.service, Available); }
      case _ =>
    }
  }

  lemma ClaimEventStaysWellFormed(w: World, c: Name, a: ClaimAct)
    requires WellFormed(w) && ClaimMay(w, c, a)
    ensures WellFormed(ApplyClaim(w, c, a))
  {
  }

  lemma ServiceEventStaysWellFormed(w: World, r: Name, e: ServiceAct)
    requires WellFormed(w) && ServiceMay(w, r, e)
    ensures WellFormed(ApplyService(w, r, e))
  {
  }

  lemma StaysWellFormed(w: World, s: Step)
    requires WellFormed(w) && Enabled(w, s)
    ensures WellFormed(Apply(w, s))
  {
    match s {
      case OfWorker(c, a) => WorkStaysWellFormed(w, c, a);
      case OfClaim(c, a) => ClaimEventStaysWellFormed(w, c, a);
      case OfService(r, e) => ServiceEventStaysWellFormed(w, r, e);
    }
  }

  /** Claim `c` is resolved, in the current content, to service `r`. */
  predicate ResolvedTo(w: World, c: Name, r: Name) {
    c in w.claims && |w.claims[c]| > 0 && Last(w.claims[c]) == ClaimStatus(Resolved, Some(r))
  }

  predicate InState(w: World, r: Name, st: SvcState) {
    r in w.services && |w.services[r]| > 0 && Last(w.services[r]) == st
  }

  predicate Holds(w: World, c: Name, r: Name) {
    InState(w, r, Claimed) && r in w.owner && w.owner[r] == c
  }

  /** Claim `c` relies on service `r`: it is live and resolved to it, or its worker is past the write that marks
      the service, or renews it. */
  predicate Needs(w: World, c: Name, r: Name) {
    || (ResolvedTo(w, c, r) && c !in w.terminating)
    || (c in w.workers && w.workers[c].Working? && w.workers[c].service == r && w.workers[c].pc != MarkClaim
        && (w.workers[c].path == Held || w.workers[c].pc != MarkService))
  }

  /** The step is the finalizer write of a deleted claim that lands on `r`. */
  predicate FreesByDeletion(w: World, s: Step, r: Name) {
    s.OfClaim? && s.act.FreeOnDelete? && s.act.r == r && Current(w, r, s.act.sver)
  }

  /** The deletion of a claim frees the first matching service, whosever it is. It is faithful to `r` unless it
      frees `r` while a claim relies on it. */
  predicate Faithful(w: World, s: Step, r: Name) {
    FreesByDeletion(w, s, r) ==> forall d :: d in w.claims ==> !Needs(w, d, r)
  }

  predicate Initial(w: World) {
    w.services == map[] && w.claims == map[] && w.workers == map[] && w.owner == map[] && w.terminating == {}
  }

  /** Any step of the system. */
  ghost predicate AnyNext(w: World, w': World) {
    WellFormed(w) && exists s :: Enabled(w, s) && w' == Apply(w, s)
  }

  /** A step that is faithful to `r`. */
  ghost predicate Next(r: Name, w: World, w': World) {
    WellFormed(w) && exists s :: Enabled(w, s) && Faithful(w, s, r) && w' == Apply(w, s)
  }

  ghost function NextFor(r: Name): (World, World) -> bool {
    (w, w') => Next(r, w, w')
  }

  /** The start of runs in which `r` has no HealthCheck. */
  ghost function StartFor(r: Name): World -> bool {
    w => Initial(w) && r !in w.checked
  }
}
