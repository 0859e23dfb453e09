/** The service catalogs as a replicated index of the registered services, and the two controllers that keep
    it: the RegisteredService reconciler edits one entry in every catalog, call by call
    (controllers/registeredservice_controller.go), and the ClusterEnvironment reconciler builds a whole new
    catalog (controllers/clusterenvironment_controller.go).

    Every write takes a new number from `clock` as resource version. A service whose object changed is
    `dirty`: its event is queued. At most one reconcile per service is in flight. */
module CatalogMachine {
  import opened Wrappers
  import EnvTag
  import CM = ClaimMachine

  type Name = string

  /** What a catalog says about a service: its class identity and the keys of its endpoint. */
  datatype Content = Content(identity: seq<(string, string)>, keys: seq<string>)
  datatype Entry = Entry(name: Name, content: Content)
  datatype Svc = Svc(
    version: nat,
    state: CM.SvcState,
    constraints: Option<seq<string>>,
    checked: bool,
    content: Content)
  datatype Catalog = Catalog(version: nat, entries: seq<Entry>)

  /** A reconcile: the service as it was read, the state computed for it, the catalogs of the listing that are
      still to be visited, and whether a visit failed. */
  datatype Flight = Flight(seen: Option<Svc>, computed: CM.SvcState, todo: map<Name, Catalog>, failed: bool)

  /** The listing from which a catalog is going to be created. */
  datatype Draft = Draft(listing: map<Name, Svc>, order: seq<Name>)

  datatype World = World(
    services: map<Name, Svc>,
    catalogs: map<Name, Catalog>,
    dirty: set<Name>,
    flights: map<Name, Flight>,
    drafts: map<Name, Draft>,
    clock: nat)

  datatype Step =
    | ChangeService(n: Name, svc: Svc)
    | DeleteService(n: Name)
    | Begin(n: Name, seen: Option<Svc>, computed: CM.SvcState, listed: map<Name, Catalog>)
    | Visit(n: Name, c: Name, applied: bool, answered: bool)
    | Finish(n: Name, written: bool)
    | Abort(n: Name)
    | ListServices(c: Name, order: seq<Name>)
    | CreateCatalog(c: Name)
    | DropDraft(c: Name)
    | DeleteCatalog(c: Name)

  // -- lists of entries ---------------------------------------------------------------------------------

  predicate Lists(es: seq<Entry>, n: Name) {
    exists e :: e in es && e.name == n
  }

  predicate DistinctNames(es: seq<Entry>) {
    forall i, j :: 0 <= i < j < |es| ==> es[i].name != es[j].name
  }

  /** The list without its first entry of that name. */
  function Without(es: seq<Entry>, n: Name): seq<Entry> {
    if es == [] then []
    else if es[0].name == n then es[1..]
    else [es[0]] + Without(es[1..], n)
  }

  function ConstraintsOf(s: Svc): seq<string> {
    if s.constraints.None? then [] else s.constraints.value
  }

  /** The service is to be in the catalog of environment `c`, going by the state `st`. */
  predicate Eligible(s: Svc, st: CM.SvcState, c: Name) {
    st == CM.Available && EnvTag.Admits(c, ConstraintsOf(s))
  }

  /** One catalog after one service was reconciled; `wanted` says whether it belongs there. */
  function Edited(es: seq<Entry>, n: Name, wanted: bool, content: Content): seq<Entry> {
    if wanted == Lists(es, n) then es
    else if wanted then es + [Entry(n, content)]
    else Without(es, n)
  }

  /** A catalog made from a listing, by the stored states. */
  function FromScratch(listing: map<Name, Svc>, order: seq<Name>, c: Name): seq<Entry> {
    if order == [] then []
    else
      var n := order[|order| - 1];
      var before := FromScratch(listing, order[..|order| - 1], c);
      if n in listing && listing[n].state == CM.Available
         && (listing[n].constraints.None? || EnvTag.Admits(c, listing[n].constraints.value))
      then before + [Entry(n, listing[n].content)]
      else before
  }

  ghost predicate IsListing(order: seq<Name>, services: map<Name, Svc>) {
    && (forall n :: n in order <==> n in services)
    && (forall i, j :: 0 <= i < j < |order| ==> order[i] != order[j])
  }

  // -- steps --------------------------------------------------------------------------------------------

  function Current(w: World, n: Name): Option<Svc> {
    if n in w.services then Some(w.services[n]) else None
  }

  /** What the reconciler computes: without a health check only Claimed is kept; with one, any state except
      that nothing becomes Claimed. */
  predicate MayCompute(seen: Option<Svc>, computed: CM.SvcState) {
    seen.Some? ==>
      if seen.value.checked then computed == CM.Claimed ==> seen.value.state == CM.Claimed
      else computed == CM.Settled(seen.value.state)
  }

  /** What a cache can give: an object of some past version. */
  predicate ServiceRead(w: World, n: Name, seen: Option<Svc>) {
    seen.Some? ==>
      && seen.value.version <= w.clock
      && (n in w.services && w.services[n].version == seen.value.version ==> w.services[n] == seen.value)
  }

  predicate CatalogRead(w: World, c: Name, k: Catalog) {
    k.version <= w.clock && (c in w.catalogs && w.catalogs[c].version == k.version ==> w.catalogs[c] == k)
  }

  ghost predicate Enabled(w: World, s: Step) {
    match s
    case ChangeService(n, svc) => svc.version == w.clock + 1
    case DeleteService(n) => n in w.services
    case Begin(n, seen, computed, listed) =>
      && n in w.dirty && n !in w.flights && MayCompute(seen, computed) && ServiceRead(w, n, seen)
      && forall c :: c in listed ==> CatalogRead(w, c, listed[c])
    case Visit(n, c, _, _) => n in w.flights && c in w.flights[n].todo
    case Finish(n, _) => n in w.flights && w.flights[n].todo == map[]
    case Abort(n) => n in w.flights
    case ListServices(c, order) => IsListing(order, w.services)
    case CreateCatalog(c) => c in w.drafts
    case DropDraft(c) => c in w.drafts
    case DeleteCatalog(c) => c in w.catalogs
  }

  predicate Wants(f: Flight, c: Name) {
    f.seen.Some? && Eligible(f.seen.value, f.computed, c)
  }

  function ContentOf(f: Flight): Content {
    if f.seen.Some? then f.seen.value.content else Content([], [])
  }

  /** A visit edits the catalog as it was listed. Nothing is written when there is nothing to change; a write
      needs the current version, and it may be applied without the caller learning it. */
  function AfterVisit(w: World, n: Name, c: Name, applied: bool, answered: bool): World
    requires n in w.flights && c in w.flights[n].todo
  {
    var f := w.flights[n];
    var listed := f.todo[c];
    var rest := f.(todo := f.todo - {c});
    if Wants(f, c) == Lists(listed.entries, n) then w.(flights := w.flights[n := rest])
    else if applied && c in w.catalogs && w.catalogs[c].version == listed.version then
      var k := Catalog(w.clock + 1, Edited(listed.entries, n, Wants(f, c), ContentOf(f)));
      w.(catalogs := w.catalogs[c := k], clock := w.clock + 1,
         flights := w.flights[n := rest.(failed := f.failed || !answered)])
    else w.(flights := w.flights[n := rest.(failed := true)])
  }

  /** A failed visit requeues the service before its status is written; a conflict does so afterwards; and a
      status that really changed is itself an event. */
  function AfterFinish(w: World, n: Name, written: bool): World
    requires n in w.flights
  {
    var f := w.flights[n];
    var landed := w.(flights := w.flights - {n});
    var requeued := landed.(dirty := w.dirty + {n});
    if f.failed then requeued
    else if f.seen.None? then landed
    else if !(written && n in w.services && w.services[n].version == f.seen.value.version) then requeued
    else if f.computed == f.seen.value.state then landed
    else
      var s := f.seen.value.(state := f.computed, version := w.clock + 1);
      requeued.(services := w.services[n := s], clock := w.clock + 1)
  }

  function AfterBegin(w: World, n: Name, seen: Option<Svc>, computed: CM.SvcState, listed: map<Name, Catalog>): World {
    w.(flights := w.flights[n := Flight(seen, computed, listed, false)],
       dirty := if seen == Current(w, n) then w.dirty - {n} else w.dirty)
  }

  function AfterCreate(w: World, c: Name): World
    requires c in w.drafts
  {
    var left := w.(drafts := w.drafts - {c});
    if c in w.catalogs then left
    else
      var es := FromScratch(w.drafts[c].listing, w.drafts[c].order, c);
      left.(catalogs := w.catalogs[c := Catalog(w.clock + 1, es)], clock := w.clock + 1)
  }

  function Apply(w: World, s: Step): World
    requires Enabled(w, s)
  {
    match s
    case ChangeService(n, svc) => w.(services := w.services[n := svc], dirty := w.dirty + {n}, clock := w.clock + 1)
    case DeleteService(n) => w.(services := w.services - {n}, dirty := w.dirty + {n})
    case Begin(n, seen, computed, listed) => AfterBegin(w, n, seen, computed, listed)
    case Visit(n, c, applied, answered) => AfterVisit(w, n, c, applied, answered)
    case Finish(n, written) => AfterFinish(w, n, written)
    case Abort(n) => w.(flights := w.flights - {n}, dirty := w.dirty + {n})
    case ListServices(c, order) => w.(drafts := w.drafts[c := Draft(w.services, order)])
    case CreateCatalog(c) => AfterCreate(w, c)
    case DropDraft(c) => w.(drafts := w.drafts - {c})
    case DeleteCatalog(c) => w.(catalogs := w.catalogs - {c})
  }

  // -- the index ----------------------------------------------------------------------------------------

  /** Nothing about the service is outstanding. */
  predicate AtRest(w: World, n: Name) {
    n !in w.dirty && n !in w.flights
  }

  /** By these services, `n` belongs in the catalog of environment `c`. */
  predicate Belongs(services: map<Name, Svc>, n: Name, c: Name) {
    n in services && Eligible(services[n], services[n].state, c)
  }

  /** The service is listed in exactly the catalogs where it belongs. */
  ghost predicate Indexed(w: World, n: Name) {
    forall c :: c in w.catalogs ==> (Lists(w.catalogs[c].entries, n) <==> Belongs(w.services, n, c))
  }

  ghost predicate Agreement(w: World) {
    && (forall c :: c in w.catalogs ==> DistinctNames(w.catalogs[c].entries))
    && (forall n :: AtRest(w, n) ==> Indexed(w, n))
  }

  /** The reconcile leaves the status as it is. */
  predicate Quiet(f: Flight) {
    f.seen.Some? ==> f.computed == f.seen.value.state
  }

  /** An undisturbed reconcile leaves catalog `c` as it wants it: it already is so, or the listing that the
      reconcile still has to visit agrees with the catalog about the service. */
  predicate Settles(w: World, n: Name, f: Flight, c: Name)
    requires c in w.catalogs
  {
    || (Lists(w.catalogs[c].entries, n) <==> Wants(f, c))
    || (c in f.todo && (Lists(w.catalogs[c].entries, n) <==> Lists(f.todo[c].entries, n)))
  }

  /** The listing of catalogs is not behind in any way that matters to the reconcile. */
  ghost predicate CaughtUp(w: World, n: Name, f: Flight) {
    forall c :: c in w.catalogs ==> Settles(w, n, f, c)
  }

  /** The service will be reconciled again: its event is queued, or its reconcile failed or changes the status. */
  predicate Returns(w: World, n: Name) {
    n in w.dirty || (n in w.flights && (w.flights[n].failed || !Quiet(w.flights[n])))
  }

  /** The draft of catalog `c` is still right about the service, or a reconcile puts it right. */
  predicate DraftFits(w: World, c: Name, n: Name)
    requires c in w.drafts
  {
    var drafted := Belongs(w.drafts[c].listing, n, c);
    || Returns(w, n)
    || (drafted <==> Belongs(w.services, n, c))
    || (n in w.flights && c in w.flights[n].todo && (drafted <==> Lists(w.flights[n].todo[c].entries, n)))
  }

  ghost predicate UpToDate(w: World, c: Name)
    requires c in w.drafts
  {
    forall n :: DraftFits(w, c, n)
  }

  /** Neither of two races is lost: a reconcile that reads the current service and will not come back starts from
      a listing that caught up, and a catalog is created from a draft that is up to date. */
  ghost predicate Timely(w: World, s: Step)
    requires Enabled(w, s)
  {
    match s
    case Begin(n, seen, computed, listed) =>
      var f := Flight(seen, computed, listed, false);
      seen == Current(w, n) && Quiet(f) ==> CaughtUp(w, n, f)
    case CreateCatalog(c) => c !in w.catalogs ==> UpToDate(w, c)
    case _ => true
  }

  ghost predicate Initial(w: World) {
    w.services == map[] && w.catalogs == map[] && w.flights == map[] && w.drafts == map[] && w.dirty == {}
  }

  /** A step of the code as it is, timely or not. */
  ghost predicate AnyNext(w: World, w': World) {
    exists s :: Enabled(w, s) && w' == Apply(w, s)
  }

  ghost predicate Next(w: World, w': World) {
    exists s :: Enabled(w, s) && Timely(w, s) && w' == Apply(w, s)
  }
}
