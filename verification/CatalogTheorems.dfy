/** What the index theorem needs, how the two ways of making a catalog compare, and what entries say. */
module CatalogTheorems {
  import opened Wrappers
  import opened Runs
  import opened CatalogMachine
  import opened CatalogIndex
  import EnvTag
  import CM = ClaimMachine

  // -- the two races ------------------------------------------------------------------------------------

  lemma Extend(tr: seq<World>, s: Step) returns (tr': seq<World>)
    requires IsRun(Initial, AnyNext, tr) && Enabled(tr[|tr| - 1], s)
    ensures IsRun(Initial, AnyNext, tr') && |tr'| > 0 && tr'[|tr'| - 1] == Apply(tr[|tr| - 1], s)
  {
    RunGrows(Initial, AnyNext, tr, Apply(tr[|tr| - 1], s));
    tr' := tr + [Apply(tr[|tr| - 1], s)];
  }

  lemma Start() returns (tr: seq<World>)
    ensures IsRun(Initial, AnyNext, tr) && |tr| == 1 && Initial(tr[0]) && tr[0].clock == 0
  {
    tr := [World(map[], map[], {}, map[], map[], 0)];
  }

  const Db := Svc(1, CM.Available, None, false, Content([], []))

  lemma DbBelongs(w: World)
    requires "db" in w.services && w.services["db"].state == CM.Available && w.services["db"].constraints == None
    ensures Belongs(w.services, "db", "prod")
  {
  }

  ghost predicate NothingOutstanding(w: World) {
    w.dirty == {} && w.flights == map[] && w.drafts == map[]
  }

  ghost predicate IsMissing(w: World, n: Name, c: Name) {
    c in w.catalogs && Belongs(w.services, n, c) && !Lists(w.catalogs[c].entries, n)
  }

  /** Listing the services and creating the catalog are two calls: a service that is reconciled between them is
      missing from the catalog, and no event is queued that would put it there. */
  lemma LateCreationLosesService() returns (tr: seq<World>)
    ensures IsRun(Initial, AnyNext, tr) && |tr| > 0
    ensures NothingOutstanding(tr[|tr| - 1]) && IsMissing(tr[|tr| - 1], "db", "prod")
  {
    tr := Start();
    tr := Extend(tr, ListServices("prod", []));
    tr := Extend(tr, ChangeService("db", Db));
    assert tr[|tr| - 1].services["db"] == Db;
    tr := Extend(tr, Begin("db", Some(Db), CM.Available, map[]));
    tr := Extend(tr, Finish("db", true));
    tr := Extend(tr, CreateCatalog("prod"));
    DbBelongs(tr[|tr| - 1]);
  }

  /** A reconcile that lists the catalogs from a cache which has not seen the newest one ends without an error
      and leaves its service out of that catalog. */
  lemma StaleListingLosesService() returns (tr: seq<World>)
    ensures IsRun(Initial, AnyNext, tr) && |tr| > 0
    ensures NothingOutstanding(tr[|tr| - 1]) && IsMissing(tr[|tr| - 1], "db", "prod")
  {
    tr := Start();
    tr := Extend(tr, ListServices("prod", []));
    tr := Extend(tr, CreateCatalog("prod"));
    tr := Extend(tr, ChangeService("db", Db.(version := 2)));
    tr := Extend(tr, Begin("db", Some(Db.(version := 2)), CM.Available, map[]));
    tr := Extend(tr, Finish("db", true));
    DbBelongs(tr[|tr| - 1]);
  }

  /** Creating a catalog keeps the index if and only if its draft is still right about the services that have
      nothing outstanding. */
  lemma CreationAgreesExactlyWhen(w: World, c: Name)
    requires Inv(w) && c in w.drafts && c !in w.catalogs
    ensures Agreement(AfterCreate(w, c)) <==>
            forall n :: AtRest(w, n) ==> (Belongs(w.drafts[c].listing, n, c) <==> Belongs(w.services, n, c))
  {
    var d := w.drafts[c];
    var w' := AfterCreate(w, c);
    FromScratchDistinct(d.listing, d.order, c);
    forall n ensures Lists(w'.catalogs[c].entries, n) <==> Belongs(d.listing, n, c) {
      FromScratchLists(d.listing, d.order, c, n);
    }
    forall n | AtRest(w, n) ensures Indexed(w', n) <==> (Belongs(d.listing, n, c) <==> Belongs(w.services, n, c)) {
      assert ServiceOk(w, n);
      assert forall x :: Belongs(w'.services, n, x) <==> Belongs(w.services, n, x);
      if Belongs(d.listing, n, c) <==> Belongs(w.services, n, c) {
        forall x | x in w'.catalogs ensures Lists(w'.catalogs[x].entries, n) <==> Belongs(w'.services, n, x) {
        }
      }
    }
    assert forall n :: AtRest(w', n) <==> AtRest(w, n);
  }

  // -- one reconcile ------------------------------------------------------------------------------------

  /** Any step that creates and deletes no catalog. */
  ghost predicate CatalogsStay(w: World, w': World) {
    exists s :: Enabled(w, s) && !s.CreateCatalog? && !s.DeleteCatalog? && w' == Apply(w, s)
  }

  ghost predicate IsSegment(tr: seq<World>) {
    IsRun(w => Sane(w), CatalogsStay, tr)
  }

  lemma {:induction false} SegmentIsSane(tr: seq<World>, i: nat)
    requires IsSegment(tr) && i < |tr|
    ensures Sane(tr[i])
  {
    if i > 0 {
      SegmentIsSane(tr, i - 1);
      assert StepAt(CatalogsStay, tr, i - 1);
      var s :| Enabled(tr[i - 1], s) && !s.CreateCatalog? && !s.DeleteCatalog? && tr[i] == Apply(tr[i - 1], s);
      KeepSane(tr[i - 1], s);
    }
  }

  /** The reconcile of `n` is under way, nothing happened to its service, and no visit failed. */
  ghost predicate Undisturbed(w: World, n: Name) {
    n in w.flights && n !in w.dirty && !w.flights[n].failed
  }

  /** The two worlds have the same catalogs, and what the reconcile of `n` settles in them is the same. */
  ghost predicate SameSettled(w: World, w': World, n: Name)
    requires n in w.flights && n in w'.flights
  {
    && w.catalogs.Keys == w'.catalogs.Keys && Current(w, n) == Current(w', n)
    && w.flights[n].seen == w'.flights[n].seen && w.flights[n].computed == w'.flights[n].computed
    && forall c :: c in w.catalogs ==> (Settles(w, n, w.flights[n], c) <==> Settles(w', n, w'.flights[n], c))
  }

  lemma UndisturbedBefore(w: World, s: Step, n: Name)
    requires Enabled(w, s) && !s.CreateCatalog? && !s.DeleteCatalog?
    requires n in w.flights && Undisturbed(Apply(w, s), n)
    ensures Undisturbed(w, n) && Current(w, n) == Current(Apply(w, s), n)
    ensures w.flights[n].seen == Apply(w, s).flights[n].seen && w.flights[n].computed == Apply(w, s).flights[n].computed
    ensures w.catalogs.Keys == Apply(w, s).catalogs.Keys
    ensures !s.Visit? ==> w.catalogs == Apply(w, s).catalogs && w.flights[n] == Apply(w, s).flights[n]
  {
  }

  lemma VisitKeepsSettled(w: World, s: Step, n: Name, d: Name)
    requires Sane(w) && Enabled(w, s) && s.Visit? && d in w.catalogs
    requires n in w.flights && Undisturbed(Apply(w, s), n)
    ensures d in Apply(w, s).catalogs
    ensures Settles(w, n, w.flights[n], d) <==> Settles(Apply(w, s), n, Apply(w, s).flights[n], d)
  {
    if s.n == n {
      VisitSettles(w, s, d);
    } else {
      VisitLists(w, s.n, s.c, s.applied, s.answered, n, d);
    }
  }

  lemma SameSettledStep(w: World, s: Step, n: Name)
    requires Sane(w) && Enabled(w, s) && !s.CreateCatalog? && !s.DeleteCatalog?
    requires n in w.flights && Undisturbed(Apply(w, s), n)
    ensures Undisturbed(w, n) && SameSettled(w, Apply(w, s), n)
  {
    UndisturbedBefore(w, s, n);
    if s.Visit? {
      forall d | d in w.catalogs
        ensures Settles(w, n, w.flights[n], d) <==> Settles(Apply(w, s), n, Apply(w, s).flights[n], d)
      {
        VisitKeepsSettled(w, s, n, d);
      }
    }
  }

  lemma {:induction false} SameSettledSegment(tr: seq<World>, i: nat, n: Name)
    requires IsSegment(tr) && i < |tr| && (forall k :: 0 <= k < |tr| ==> n in tr[k].flights)
    requires Undisturbed(tr[|tr| - 1], n)
    ensures Undisturbed(tr[i], n) && SameSettled(tr[i], tr[|tr| - 1], n)
    decreases |tr| - i
  {
    if i + 1 < |tr| {
      SameSettledSegment(tr, i + 1, n);
      SegmentIsSane(tr, i);
      assert StepAt(CatalogsStay, tr, i);
      var s :| Enabled(tr[i], s) && !s.CreateCatalog? && !s.DeleteCatalog? && tr[i + 1] == Apply(tr[i], s);
      SameSettledStep(tr[i], s, n);
    }
  }

  lemma FinishIndexes(w: World, n: Name, written: bool)
    requires n in w.flights && w.flights[n].todo == map[] && n !in AfterFinish(w, n, written).dirty
    requires n !in w.dirty ==> w.flights[n].seen == Current(w, n)
    ensures Undisturbed(w, n)
    ensures Indexed(AfterFinish(w, n, written), n) <==> CaughtUp(w, n, w.flights[n])
  {
    var w' := AfterFinish(w, n, written);
    assert w'.services == w.services && w'.catalogs == w.catalogs;
    forall c | c in w.catalogs ensures Settles(w, n, w.flights[n], c) <==>
                                       (Lists(w'.catalogs[c].entries, n) <==> Belongs(w'.services, n, c)) {
    }
  }

  /** A reconcile of the service as it currently is, while no catalog is created or deleted, that ends without an
      error, with nothing queued for its service: it leaves the service listed in exactly the catalogs where it
      belongs if and only if the listing it started from had caught up. `tr` begins right after the listing and
      ends right before the status is written; others may do anything in between. */
  lemma ReconcileIndexesExactlyWhen(
    w: World, n: Name, computed: CM.SvcState, listed: map<Name, Catalog>, tr: seq<World>, written: bool)
    requires Sane(w) && Enabled(w, Begin(n, Current(w, n), computed, listed))
    requires IsSegment(tr) && tr[0] == AfterBegin(w, n, Current(w, n), computed, listed)
    requires forall k :: 0 <= k < |tr| ==> n in tr[k].flights
    requires tr[|tr| - 1].flights[n].todo == map[]
    requires n !in AfterFinish(tr[|tr| - 1], n, written).dirty
    ensures Indexed(AfterFinish(tr[|tr| - 1], n, written), n)
       <==> CaughtUp(w, n, Flight(Current(w, n), computed, listed, false))
  {
    var last := tr[|tr| - 1];
    var f := Flight(Current(w, n), computed, listed, false);
    assert Undisturbed(last, n);
    SameSettledSegment(tr, 0, n);
    FinishIndexes(last, n, written);
    assert forall c :: c in w.catalogs ==> (Settles(w, n, f, c) <==> Settles(tr[0], n, tr[0].flights[n], c));
  }

  // -- one service at a time, or all at once ------------------------------------------------------------

  /** One catalog after the services of `order` were reconciled one after the other. */
  function Incremental(
    listing: map<Name, Svc>, computed: Name -> CM.SvcState, order: seq<Name>, c: Name, es: seq<Entry>): seq<Entry>
    requires forall n :: n in order ==> n in listing
  {
    if order == [] then es
    else
      var n := order[|order| - 1];
      Edited(Incremental(listing, computed, order[..|order| - 1], c, es), n,
             Eligible(listing[n], computed(n), c), listing[n].content)
  }

  lemma {:induction false} IncrementalLists(
    listing: map<Name, Svc>, computed: Name -> CM.SvcState, order: seq<Name>, c: Name, es: seq<Entry>, n: Name)
    requires (forall x :: x in order ==> x in listing) && DistinctNames(es)
    ensures DistinctNames(Incremental(listing, computed, order, c, es))
    ensures Lists(Incremental(listing, computed, order, c, es), n) <==>
            if n in order then Eligible(listing[n], computed(n), c) else Lists(es, n)
  {
    if order != [] {
      var init, last := order[..|order| - 1], order[|order| - 1];
      IncrementalLists(listing, computed, init, c, es, n);
      assert order == init + [last];
      var before := Incremental(listing, computed, init, c, es);
      EditedLists(before, last, Eligible(listing[last], computed(last), c), listing[last].content, n);
      EditedDistinct(before, last, Eligible(listing[last], computed(last), c), listing[last].content);
    }
  }

  /** No service that admits the environment is made available, or unavailable, by reconciling it. */
  ghost predicate SettledFor(listing: map<Name, Svc>, computed: Name -> CM.SvcState, c: Name) {
    forall n :: n in listing && EnvTag.Admits(c, ConstraintsOf(listing[n])) ==>
      (computed(n) == CM.Available <==> listing[n].state == CM.Available)
  }

  /** Reconciling every service once, in any order, from any catalog with distinct names and no absent service,
      gives the names of a catalog made from scratch if and only if reconciling does not change whether a
      service is Available. */
  lemma IncrementalRefinesFromScratch(
    listing: map<Name, Svc>, computed: Name -> CM.SvcState, o1: seq<Name>, o2: seq<Name>, c: Name, es: seq<Entry>)
    requires IsListing(o1, listing) && IsListing(o2, listing)
    requires DistinctNames(es) && forall e :: e in es ==> e.name in listing
    ensures NamesIn(Incremental(listing, computed, o1, c, es)) == NamesIn(FromScratch(listing, o2, c))
       <==> SettledFor(listing, computed, c)
  {
    var one, all := Incremental(listing, computed, o1, c, es), FromScratch(listing, o2, c);
    forall n
      ensures n in NamesIn(one) <==> n in listing && Eligible(listing[n], computed(n), c)
      ensures n in NamesIn(all) <==> n in listing && Eligible(listing[n], listing[n].state, c)
    {
      IncrementalLists(listing, computed, o1, c, es, n);
      FromScratchLists(listing, o2, c, n);
      assert Lists(one, n) <==> n in NamesIn(one);
      assert Lists(all, n) <==> n in NamesIn(all);
      assert Lists(es, n) ==> n in listing;
    }
  }

  /** Starting from an empty catalog, the same services reconciled in the order of the listing give the very
      same list of entries. */
  lemma {:induction false} SameEntriesFromEmpty(
    listing: map<Name, Svc>, computed: Name -> CM.SvcState, order: seq<Name>, c: Name)
    requires forall n :: n in order ==> n in listing
    requires forall i, j :: 0 <= i < j < |order| ==> order[i] != order[j]
    requires SettledFor(listing, computed, c)
    ensures Incremental(listing, computed, order, c, []) == FromScratch(listing, order, c)
  {
    if order != [] {
      var init, last := order[..|order| - 1], order[|order| - 1];
      SameEntriesFromEmpty(listing, computed, init, c);
      FromScratchLists(listing, init, c, last);
      assert last !in init;
    }
  }

  // -- what entries say -----------------------------------------------------------------------------------

  ghost predicate EntriesSay(es: seq<Entry>, known: map<Name, Content>) {
    forall e :: e in es ==> e.name in known && e.content == known[e.name]
  }

  ghost predicate ServicesSay(services: map<Name, Svc>, known: map<Name, Content>) {
    forall n :: n in services ==> n in known && services[n].content == known[n]
  }

  ghost predicate FlightSays(f: Flight, n: Name, known: map<Name, Content>) {
    && (f.seen.Some? ==> n in known && f.seen.value.content == known[n])
    && (forall c :: c in f.todo ==> EntriesSay(f.todo[c].entries, known))
  }

  /** Everything that was read or written so far says of a service what `known` says. */
  ghost predicate Consistent(w: World, known: map<Name, Content>) {
    && ServicesSay(w.services, known)
    && (forall c :: c in w.catalogs ==> EntriesSay(w.catalogs[c].entries, known))
    && (forall c :: c in w.drafts ==> ServicesSay(w.drafts[c].listing, known))
    && (forall n :: n in w.flights ==> FlightSays(w.flights[n], n, known))
  }

  /** No step edits the identity or the endpoint keys of a service, and caches only hold what was written. */
  ghost predicate Unedited(s: Step, known: map<Name, Content>) {
    match s
    case ChangeService(n, svc) => n in known && svc.content == known[n]
    case Begin(n, seen, _, listed) =>
      && (seen.Some? ==> n in known && seen.value.content == known[n])
      && (forall c :: c in listed ==> EntriesSay(listed[c].entries, known))
    case _ => true
  }

  lemma {:induction false} WithoutWithin(es: seq<Entry>, n: Name)
    ensures forall e :: e in Without(es, n) ==> e in es
  {
    if es != [] && es[0].name != n {
      WithoutWithin(es[1..], n);
    }
  }

  lemma {:induction false} FromScratchSays(
    listing: map<Name, Svc>, order: seq<Name>, c: Name, known: map<Name, Content>)
    requires ServicesSay(listing, known)
    ensures EntriesSay(FromScratch(listing, order, c), known)
  {
    if order != [] {
      FromScratchSays(listing, order[..|order| - 1], c, known);
    }
  }

  lemma KeepServicesSay(w: World, s: Step, known: map<Name, Content>)
    requires Consistent(w, known) && Enabled(w, s) && Unedited(s, known)
    ensures ServicesSay(Apply(w, s).services, known)
  {
  }

  lemma KeepDraftsSay(w: World, s: Step, known: map<Name, Content>, c: Name)
    requires Consistent(w, known) && Enabled(w, s) && c in Apply(w, s).drafts
    ensures ServicesSay(Apply(w, s).drafts[c].listing, known)
  {
  }

  lemma KeepEntriesSay(w: World, s: Step, known: map<Name, Content>)
    requires Consistent(w, known) && Enabled(w, s)
    ensures forall c :: c in Apply(w, s).catalogs ==> EntriesSay(Apply(w, s).catalogs[c].entries, known)
  {
    match s
    case Visit(n, c, _, _) => WithoutWithin(w.flights[n].todo[c].entries, n);
    case CreateCatalog(c) => FromScratchSays(w.drafts[c].listing, w.drafts[c].order, c, known);
    case _ =>
  }

  lemma NewFlightSays(w: World, s: Step, known: map<Name, Content>)
    requires Enabled(w, s) && Unedited(s, known) && s.Begin?
    ensures FlightSays(Apply(w, s).flights[s.n], s.n, known)
  {
  }

  lemma KeepFlightSays(w: World, s: Step, known: map<Name, Content>, n: Name)
    requires Enabled(w, s) && Unedited(s, known) && n in Apply(w, s).flights
    requires n in w.flights ==> FlightSays(w.flights[n], n, known)
    ensures FlightSays(Apply(w, s).flights[n], n, known)
  {
    if s.Begin? && s.n == n {
      NewFlightSays(w, s, known);
    } else {
      OldFlight(w, s, n);
    }
  }

  lemma StepKeepsContents(w: World, s: Step, known: map<Name, Content>)
    requires Consistent(w, known) && Enabled(w, s) && Unedited(s, known)
    ensures Consistent(Apply(w, s), known)
  {
    KeepServicesSay(w, s, known);
    KeepEntriesSay(w, s, known);
    forall c | c in Apply(w, s).drafts ensures ServicesSay(Apply(w, s).drafts[c].listing, known) {
      KeepDraftsSay(w, s, known, c);
    }
    forall n | n in Apply(w, s).flights ensures FlightSays(Apply(w, s).flights[n], n, known) {
      KeepFlightSays(w, s, known, n);
    }
  }

  ghost predicate UneditedNext(known: map<Name, Content>, w: World, w': World) {
    exists s :: Enabled(w, s) && Timely(w, s) && Unedited(s, known) && w' == Apply(w, s)
  }

  /** As long as no service is edited, a catalog with nothing outstanding holds exactly the entries of the
      services that belong there, with their contents, once each. */
  lemma QuietCatalogsSayWhatServicesSay(known: map<Name, Content>, tr: seq<World>, i: nat, c: Name)
    requires IsRun(Initial, (w, w') => UneditedNext(known, w, w'), tr) && i < |tr|
    requires tr[i].dirty == {} && tr[i].flights == map[] && c in tr[i].catalogs
    ensures DistinctNames(tr[i].catalogs[c].entries)
    ensures var services := tr[i].services;
      forall e :: e in tr[i].catalogs[c].entries <==>
        && e.name in services && services[e.name].state == CM.Available
        && (services[e.name].constraints.None? || EnvTag.Admits(c, services[e.name].constraints.value))
        && e.content == services[e.name].content
  {
    var next := (w, w') => UneditedNext(known, w, w');
    var inv := w => Inv(w) && Consistent(w, known);
    forall w, w' | inv(w) && next(w, w') ensures inv(w') {
      var s :| Enabled(w, s) && Timely(w, s) && Unedited(s, known) && w' == Apply(w, s);
      StepKeepsInvExactlyWhen(w, s);
      StepKeepsContents(w, s, known);
    }
    RunKeeps(Initial, next, inv, tr, i);
    ListedWithContents(tr[i], known, c);
  }

  lemma ListedWithContents(w: World, known: map<Name, Content>, c: Name)
    requires Inv(w) && Consistent(w, known) && w.dirty == {} && w.flights == map[] && c in w.catalogs
    ensures forall e :: e in w.catalogs[c].entries <==>
              e.name in w.services && Belongs(w.services, e.name, c) && e.content == w.services[e.name].content
  {
    forall e: Entry
      ensures e in w.catalogs[c].entries <==>
              e.name in w.services && Belongs(w.services, e.name, c) && e.content == w.services[e.name].content
    {
      assert ServiceOk(w, e.name);
      assert Lists(w.catalogs[c].entries, e.name) <==> Belongs(w.services, e.name, c);
      if Belongs(w.services, e.name, c) && e.content == w.services[e.name].content {
        var x :| x in w.catalogs[c].entries && x.name == e.name;
        assert x == e;
      }
    }
  }
}
