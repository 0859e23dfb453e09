/** The catalogs stay an index of the services, over every run. */
module CatalogIndex {
  import opened Runs
  import opened CatalogMachine
  import EnvTag
  import CM = ClaimMachine

  // -- entries ------------------------------------------------------------------------------------------

  lemma {:induction false} WithoutLists(es: seq<Entry>, n: Name, m: Name)
    requires DistinctNames(es)
    ensures Lists(Without(es, n), m) <==> m != n && Lists(es, m)
  {
    if es != [] {
      WithoutLists(es[1..], n, m);
      assert es == [es[0]] + es[1..];
      assert Lists(es, m) <==> es[0].name == m || Lists(es[1..], m);
      if es[0].name != n {
        assert Without(es, n)[0] == es[0] && Without(es, n)[1..] == Without(es[1..], n);
        assert Lists(Without(es, n), m) <==> es[0].name == m || Lists(Without(es[1..], n), m);
      }
    }
  }

  lemma {:induction false} WithoutDistinct(es: seq<Entry>, n: Name)
    requires DistinctNames(es)
    ensures DistinctNames(Without(es, n)) && forall e :: e in Without(es, n) ==> e in es
  {
    if es != [] && es[0].name != n {
      WithoutDistinct(es[1..], n);
      var rest := Without(es[1..], n);
      forall k | 0 <= k < |rest| ensures rest[k].name != es[0].name {
        assert rest[k] in es[1..];
      }
    }
  }

  lemma EditedLists(es: seq<Entry>, n: Name, wanted: bool, content: Content, m: Name)
    requires DistinctNames(es)
    ensures Lists(Edited(es, n, wanted, content), m) <==> if m == n then wanted else Lists(es, m)
  {
    WithoutLists(es, n, m);
    var e := Entry(n, content);
    assert Lists(es + [e], m) <==> m == n || Lists(es, m) by {
      assert e in es + [e];
      assert forall x :: x in es + [e] <==> x in es || x == e;
    }
  }

  lemma EditedDistinct(es: seq<Entry>, n: Name, wanted: bool, content: Content)
    requires DistinctNames(es)
    ensures DistinctNames(Edited(es, n, wanted, content))
  {
    WithoutDistinct(es, n);
    assert !Lists(es, n) ==> forall k :: 0 <= k < |es| ==> es[k].name != n by {
      assert forall k :: 0 <= k < |es| ==> es[k] in es;
    }
  }

  /** The test for an absent list of constraints changes nothing: a catalog made from scratch lists exactly the
      services that are eligible by their stored state. */
  lemma {:induction false} FromScratchLists(listing: map<Name, Svc>, order: seq<Name>, c: Name, n: Name)
    ensures Lists(FromScratch(listing, order, c), n) <==> n in order && Belongs(listing, n, c)
  {
    if order != [] {
      var init, last := order[..|order| - 1], order[|order| - 1];
      FromScratchLists(listing, init, c, n);
      assert order == init + [last];
      var before := FromScratch(listing, init, c);
      if Belongs(listing, last, c) {
        var e := Entry(last, listing[last].content);
        assert e in before + [e];
        assert forall x :: x in before + [e] <==> x in before || x == e;
      }
    }
  }

  lemma {:induction false} FromScratchDistinct(listing: map<Name, Svc>, order: seq<Name>, c: Name)
    requires forall i, j :: 0 <= i < j < |order| ==> order[i] != order[j]
    ensures DistinctNames(FromScratch(listing, order, c))
  {
    if order != [] {
      var init, last := order[..|order| - 1], order[|order| - 1];
      FromScratchDistinct(listing, init, c);
      FromScratchLists(listing, init, c, last);
      var before := FromScratch(listing, init, c);
      assert last !in init;
      assert forall k :: 0 <= k < |before| ==> before[k] in before;
    }
  }

  // -- the invariant ------------------------------------------------------------------------------------

  ghost predicate VersionsOk(w: World) {
    && (forall n :: n in w.services ==> w.services[n].version <= w.clock)
    && (forall c :: c in w.catalogs ==> w.catalogs[c].version <= w.clock)
  }

  ghost predicate ReadsOk(w: World) {
    && (forall n :: n in w.flights ==> ServiceRead(w, n, w.flights[n].seen))
    && (forall n, c :: n in w.flights && c in w.flights[n].todo ==> CatalogRead(w, c, w.flights[n].todo[c]))
    && (forall c :: c in w.drafts ==> IsListing(w.drafts[c].order, w.drafts[c].listing))
  }

  ghost predicate NamesOk(w: World) {
    forall c :: c in w.catalogs ==> DistinctNames(w.catalogs[c].entries)
  }

  ghost predicate FlightOk(w: World, n: Name, f: Flight) {
    n !in w.dirty ==> f.seen == Current(w, n) && (!f.failed && Quiet(f) ==> CaughtUp(w, n, f))
  }

  ghost predicate ServiceOk(w: World, n: Name) {
    && (AtRest(w, n) ==> Indexed(w, n))
    && (n in w.flights ==> FlightOk(w, n, w.flights[n]))
  }

  /** What holds in every run, timely or not. */
  ghost predicate Sane(w: World) {
    VersionsOk(w) && ReadsOk(w) && NamesOk(w)
  }

  ghost predicate Inv(w: World) {
    Sane(w) && forall n :: ServiceOk(w, n)
  }

  lemma KeepVersions(w: World, s: Step)
    requires VersionsOk(w) && ReadsOk(w) && Enabled(w, s)
    ensures VersionsOk(Apply(w, s)) && w.clock <= Apply(w, s).clock
  {
  }

  /** A step other than its beginning only takes catalogs off the list of a reconcile. */
  lemma OldFlight(w: World, s: Step, n: Name)
    requires Enabled(w, s) && n in Apply(w, s).flights && !(s.Begin? && s.n == n)
    ensures n in w.flights && Apply(w, s).flights[n].seen == w.flights[n].seen
    ensures forall c :: c in Apply(w, s).flights[n].todo ==>
              c in w.flights[n].todo && Apply(w, s).flights[n].todo[c] == w.flights[n].todo[c]
  {
  }

  /** What changes gets a version that nobody has seen. */
  lemma CatalogMoves(w: World, s: Step, c: Name)
    requires Enabled(w, s)
    ensures w.clock <= Apply(w, s).clock
    ensures c in Apply(w, s).catalogs ==>
              (c in w.catalogs && Apply(w, s).catalogs[c] == w.catalogs[c]) || Apply(w, s).catalogs[c].version > w.clock
  {
  }

  lemma ServiceMoves(w: World, s: Step, n: Name)
    requires Enabled(w, s)
    ensures w.clock <= Apply(w, s).clock
    ensures n in Apply(w, s).services ==>
              (n in w.services && Apply(w, s).services[n] == w.services[n]) || Apply(w, s).services[n].version > w.clock
  {
  }

  lemma KeepServiceRead(w: World, s: Step, n: Name)
    requires ReadsOk(w) && Enabled(w, s) && n in Apply(w, s).flights
    ensures ServiceRead(Apply(w, s), n, Apply(w, s).flights[n].seen)
  {
    ServiceMoves(w, s, n);
    if !(s.Begin? && s.n == n) {
      OldFlight(w, s, n);
    }
  }

  lemma KeepCatalogRead(w: World, s: Step, n: Name, c: Name)
    requires ReadsOk(w) && Enabled(w, s) && n in Apply(w, s).flights && c in Apply(w, s).flights[n].todo
    ensures CatalogRead(Apply(w, s), c, Apply(w, s).flights[n].todo[c])
  {
    CatalogMoves(w, s, c);
    if !(s.Begin? && s.n == n) {
      OldFlight(w, s, n);
    }
  }

  lemma KeepDrafts(w: World, s: Step, c: Name)
    requires ReadsOk(w) && Enabled(w, s) && c in Apply(w, s).drafts
    ensures IsListing(Apply(w, s).drafts[c].order, Apply(w, s).drafts[c].listing)
  {
  }

  lemma KeepReads(w: World, s: Step)
    requires ReadsOk(w) && Enabled(w, s)
    ensures ReadsOk(Apply(w, s))
  {
    var w' := Apply(w, s);
    forall n | n in w'.flights ensures ServiceRead(w', n, w'.flights[n].seen) {
      KeepServiceRead(w, s, n);
    }
    forall n, c | n in w'.flights && c in w'.flights[n].todo ensures CatalogRead(w', c, w'.flights[n].todo[c]) {
      KeepCatalogRead(w, s, n, c);
    }
    forall c | c in w'.drafts ensures IsListing(w'.drafts[c].order, w'.drafts[c].listing) {
      KeepDrafts(w, s, c);
    }
  }

  lemma KeepNames(w: World, s: Step)
    requires ReadsOk(w) && NamesOk(w) && Enabled(w, s)
    ensures NamesOk(Apply(w, s))
  {
    match s
    case Visit(n, c, _, _) =>
      var f := w.flights[n];
      if c in w.catalogs && w.catalogs[c].version == f.todo[c].version {
        assert w.catalogs[c] == f.todo[c];
        EditedDistinct(f.todo[c].entries, n, Wants(f, c), ContentOf(f));
      }
    case CreateCatalog(c) =>
      FromScratchDistinct(w.drafts[c].listing, w.drafts[c].order, c);
    case _ =>
  }

  lemma KeepOnEvent(w: World, s: Step, m: Name)
    requires ServiceOk(w, m) && Enabled(w, s)
    requires s.ChangeService? || s.DeleteService? || s.Abort? || s.ListServices? || s.DropDraft? || s.DeleteCatalog?
    ensures ServiceOk(Apply(w, s), m)
  {
  }

  lemma KeepOnBegin(w: World, s: Step, m: Name)
    requires ServiceOk(w, m) && Enabled(w, s) && s.Begin?
    ensures ServiceOk(Apply(w, s), m) <==> (m == s.n ==> Timely(w, s))
  {
    if m == s.n && s.seen == Current(w, m) {
      var f, w' := Flight(s.seen, s.computed, s.listed, false), Apply(w, s);
      assert forall c :: c in w.catalogs ==> (Settles(w', m, f, c) <==> Settles(w, m, f, c));
    }
  }

  lemma KeepOnFinish(w: World, s: Step, m: Name)
    requires ServiceOk(w, m) && Enabled(w, s) && s.Finish?
    ensures ServiceOk(Apply(w, s), m)
  {
  }

  /** A visit moves one entry of one catalog: afterwards the service is listed there as the reconcile wants,
      and nobody else's entry moved. */
  lemma VisitLists(w: World, n: Name, c: Name, applied: bool, answered: bool, m: Name, d: Name)
    requires ReadsOk(w) && NamesOk(w) && n in w.flights && c in w.flights[n].todo && d in w.catalogs
    ensures var w' := AfterVisit(w, n, c, applied, answered);
      && d in w'.catalogs
      && (m != n || d != c ==> (Lists(w'.catalogs[d].entries, m) <==> Lists(w.catalogs[d].entries, m)))
      && (d == c && w'.catalogs != w.catalogs ==> (Lists(w'.catalogs[c].entries, n) <==> Wants(w.flights[n], c)))
      && (w'.catalogs == w.catalogs && !w'.flights[n].failed ==>
            (Wants(w.flights[n], c) <==> Lists(w.flights[n].todo[c].entries, n)))
  {
    var f := w.flights[n];
    if c in w.catalogs && w.catalogs[c].version == f.todo[c].version {
      assert w.catalogs[c] == f.todo[c];
      EditedLists(f.todo[c].entries, n, Wants(f, c), ContentOf(f), m);
      EditedLists(f.todo[c].entries, n, Wants(f, c), ContentOf(f), n);
    }
  }

  /** Visiting one catalog of a reconcile does not change what the reconcile settles, unless it fails. */
  lemma VisitSettles(w: World, s: Step, d: Name)
    requires ReadsOk(w) && NamesOk(w) && s.Visit? && Enabled(w, s) && d in w.catalogs
    ensures var w' := Apply(w, s); d in w'.catalogs
    ensures !Apply(w, s).flights[s.n].failed ==>
              (Settles(Apply(w, s), s.n, Apply(w, s).flights[s.n], d) <==> Settles(w, s.n, w.flights[s.n], d))
  {
    VisitLists(w, s.n, s.c, s.applied, s.answered, s.n, d);
    if s.c in w.catalogs && w.catalogs[s.c].version == w.flights[s.n].todo[s.c].version {
      assert w.catalogs[s.c] == w.flights[s.n].todo[s.c];
    }
  }

  lemma KeepVisited(w: World, s: Step)
    requires ReadsOk(w) && NamesOk(w) && s.Visit? && Enabled(w, s) && ServiceOk(w, s.n)
    ensures ServiceOk(Apply(w, s), s.n)
  {
    forall d | d in w.catalogs
      ensures d in Apply(w, s).catalogs
      ensures !Apply(w, s).flights[s.n].failed ==>
                (Settles(Apply(w, s), s.n, Apply(w, s).flights[s.n], d) <==> Settles(w, s.n, w.flights[s.n], d))
    {
      VisitSettles(w, s, d);
    }
  }

  lemma KeepOthers(w: World, s: Step, m: Name)
    requires ReadsOk(w) && NamesOk(w) && ServiceOk(w, m) && s.Visit? && Enabled(w, s) && m != s.n
    ensures ServiceOk(Apply(w, s), m)
  {
    var w' := Apply(w, s);
    forall d | d in w'.catalogs
      ensures d in w.catalogs && (Lists(w'.catalogs[d].entries, m) <==> Lists(w.catalogs[d].entries, m))
    {
      VisitLists(w, s.n, s.c, s.applied, s.answered, m, d);
    }
  }

  lemma NewCatalogLists(w: World, c: Name, m: Name)
    requires ReadsOk(w) && c in w.drafts && c !in w.catalogs
    ensures Lists(AfterCreate(w, c).catalogs[c].entries, m) <==> Belongs(w.drafts[c].listing, m, c)
  {
    FromScratchLists(w.drafts[c].listing, w.drafts[c].order, c, m);
  }

  lemma KeepOnCreate(w: World, s: Step, m: Name)
    requires ReadsOk(w) && ServiceOk(w, m) && Enabled(w, s) && s.CreateCatalog?
    ensures ServiceOk(Apply(w, s), m) <==> (s.c in w.catalogs || DraftFits(w, s.c, m))
  {
    if s.c !in w.catalogs {
      var w' := Apply(w, s);
      NewCatalogLists(w, s.c, m);
      assert forall d :: d in w'.catalogs <==> d in w.catalogs || d == s.c;
      if m in w.flights && m !in w.dirty {
        var f := w.flights[m];
        assert forall d :: d in w.catalogs ==> (Settles(w', m, f, d) <==> Settles(w, m, f, d));
      } else if AtRest(w, m) {
        assert forall d :: d in w.catalogs ==> (Lists(w'.catalogs[d].entries, m) <==> Belongs(w'.services, m, d));
      }
    }
  }

  /** For one service a step keeps the invariant, unless it is the service's own reconcile that begins, or the
      creation of a catalog, and is late for it. */
  ghost predicate TimelyFor(w: World, s: Step, m: Name)
    requires Enabled(w, s)
  {
    match s
    case Begin(n, _, _, _) => m == n ==> Timely(w, s)
    case CreateCatalog(c) => c in w.catalogs || DraftFits(w, c, m)
    case _ => true
  }

  lemma ServiceOkExactlyWhen(w: World, s: Step, m: Name)
    requires ReadsOk(w) && NamesOk(w) && ServiceOk(w, m) && Enabled(w, s)
    ensures ServiceOk(Apply(w, s), m) <==> TimelyFor(w, s, m)
  {
    match s
    case Begin(_, _, _, _) => KeepOnBegin(w, s, m);
    case Visit(n, _, _, _) => if m == n { KeepVisited(w, s); } else { KeepOthers(w, s, m); }
    case Finish(_, _) => KeepOnFinish(w, s, m);
    case CreateCatalog(_) => KeepOnCreate(w, s, m);
    case _ => KeepOnEvent(w, s, m);
  }

  lemma TimelyForAll(w: World, s: Step)
    requires Enabled(w, s)
    ensures Timely(w, s) <==> forall m :: TimelyFor(w, s, m)
  {
    if s.Begin? {
      assert TimelyFor(w, s, s.n) <==> Timely(w, s);
    } else if s.CreateCatalog? && s.c !in w.catalogs {
      assert forall m :: TimelyFor(w, s, m) <==> DraftFits(w, s.c, m);
    }
  }

  lemma KeepSane(w: World, s: Step)
    requires Sane(w) && Enabled(w, s)
    ensures Sane(Apply(w, s))
  {
    KeepVersions(w, s);
    KeepReads(w, s);
    KeepNames(w, s);
  }

  /** A step keeps the invariant if and only if it is timely. */
  lemma StepKeepsInvExactlyWhen(w: World, s: Step)
    requires Inv(w) && Enabled(w, s)
    ensures Inv(Apply(w, s)) <==> Timely(w, s)
  {
    KeepSane(w, s);
    TimelyForAll(w, s);
    forall m ensures ServiceOk(Apply(w, s), m) <==> TimelyFor(w, s, m) {
      ServiceOkExactlyWhen(w, s, m);
    }
  }

  lemma InvIsInvariant()
    ensures Invariant(Initial, Next, Inv)
  {
    forall w, w' | Inv(w) && Next(w, w') ensures Inv(w') {
      var s :| Enabled(w, s) && Timely(w, s) && w' == Apply(w, s);
      StepKeepsInvExactlyWhen(w, s);
    }
  }

  /** Over every timely run, whatever fails: the names in a catalog are distinct, and a service with nothing
      outstanding is listed in exactly the catalogs where it belongs. */
  lemma RunKeepsIndex(tr: seq<World>, i: nat)
    requires IsRun(Initial, Next, tr) && i < |tr|
    ensures Agreement(tr[i])
  {
    InvIsInvariant();
    RunKeeps(Initial, Next, Inv, tr, i);
    forall n | AtRest(tr[i], n) ensures Indexed(tr[i], n) {
      assert ServiceOk(tr[i], n);
    }
  }

  ghost function NamesIn(es: seq<Entry>): set<Name> {
    set e | e in es :: e.name
  }

  /** With nothing outstanding, the names in each catalog are exactly those of the services that are Available
      and admit its environment. */
  lemma QuietCatalogsAreExact(tr: seq<World>, i: nat, c: Name)
    requires IsRun(Initial, Next, tr) && i < |tr|
    requires tr[i].dirty == {} && tr[i].flights == map[] && c in tr[i].catalogs
    ensures var services := tr[i].services;
      forall n :: n in NamesIn(tr[i].catalogs[c].entries) <==>
        && n in services && services[n].state == CM.Available
        && (services[n].constraints.None? || EnvTag.Admits(c, services[n].constraints.value))
  {
    RunKeepsIndex(tr, i);
    var w := tr[i];
    forall n ensures n in NamesIn(w.catalogs[c].entries) <==> Belongs(w.services, n, c) {
      assert AtRest(w, n);
      assert Lists(w.catalogs[c].entries, n) <==> n in NamesIn(w.catalogs[c].entries);
    }
  }
}
