/** Admission of service classes (api/v1alpha1/serviceclass_webhook.go). */
module Admission {
  import opened Wrappers
  import opened Runs
  import opened Slices

  datatype Mapping = Mapping(name: string, jsonPath: string, secret: bool)

  /** A service class: the kind of resource that it manages, the mapping of its fields, and the rest. */
  datatype Class = Class(apiVersion: string, kind: string, fields: seq<Mapping>, rest: string)
  datatype Ref = Ref(namespace: string, name: string)

  datatype FieldError =
    | InvalidPath(index: nat)
    | DuplicateName(index: nat)
    | AlreadyManaged(manager: string)
    | Immutable(field: string)

  // -- one list of mappings -------------------------------------------------------------------------------

  predicate NameSeen(fields: seq<Mapping>, name: string) {
    exists m :: m in fields && m.name == name
  }

  /** The errors of one mapping, given the ones before it. */
  function ErrorsAt(parses: string -> bool, fields: seq<Mapping>, i: nat): seq<FieldError>
    requires i < |fields|
  {
    (if parses(fields[i].jsonPath) then [] else [InvalidPath(i)])
    + (if NameSeen(fields[..i], fields[i].name) then [DuplicateName(i)] else [])
  }

  function MappingErrors(parses: string -> bool, fields: seq<Mapping>, n: nat): seq<FieldError>
    requires n <= |fields|
  {
    if n == 0 then [] else MappingErrors(parses, fields, n - 1) + ErrorsAt(parses, fields, n - 1)
  }

  /** `ValidateMapping`. */
  method ValidateMapping(parses: string -> bool, fields: seq<Mapping>) returns (errs: seq<FieldError>)
    ensures errs == MappingErrors(parses, fields, |fields|)
  {
    errs := [];
    var names: set<string> := {};
    for i := 0 to |fields|
      invariant errs == MappingErrors(parses, fields, i)
      invariant forall n :: n in names <==> NameSeen(fields[..i], n)
    {
      assert fields[..i + 1] == fields[..i] + [fields[i]];
      if !parses(fields[i].jsonPath) {
        errs := errs + [InvalidPath(i)];
      }
      if fields[i].name in names {
        errs := errs + [DuplicateName(i)];
      } else {
        names := names + {fields[i].name};
      }
      forall n ensures n in names <==> NameSeen(fields[..i + 1], n) {
        assert fields[i] in fields[..i + 1];
        assert NameSeen(fields[..i + 1], n) <==> NameSeen(fields[..i], n) || n == fields[i].name;
      }
    }
  }

  ghost predicate DistinctFieldNames(fields: seq<Mapping>) {
    forall i, j :: 0 <= i < j < |fields| ==> fields[i].name != fields[j].name
  }

  ghost predicate Sound(parses: string -> bool, fields: seq<Mapping>) {
    DistinctFieldNames(fields) && forall i :: 0 <= i < |fields| ==> parses(fields[i].jsonPath)
  }

  lemma ErrorsOfOne(parses: string -> bool, fields: seq<Mapping>, i: nat, k: nat)
    requires i < |fields|
    ensures InvalidPath(k) in ErrorsAt(parses, fields, i) <==> k == i && !parses(fields[k].jsonPath)
    ensures DuplicateName(k) in ErrorsAt(parses, fields, i) <==>
            k == i && exists j :: 0 <= j < k && fields[j].name == fields[k].name
  {
  }

  /** The errors say exactly which paths do not parse and which names came up before. */
  lemma {:induction false} ErrorsAreExact(parses: string -> bool, fields: seq<Mapping>, n: nat, k: nat)
    requires n <= |fields|
    ensures InvalidPath(k) in MappingErrors(parses, fields, n) <==> k < n && !parses(fields[k].jsonPath)
    ensures DuplicateName(k) in MappingErrors(parses, fields, n) <==>
            k < n && exists j :: 0 <= j < k && fields[j].name == fields[k].name
  {
    if n > 0 {
      ErrorsAreExact(parses, fields, n - 1, k);
      ErrorsOfOne(parses, fields, n - 1, k);
    }
  }

  lemma NoErrorAt(parses: string -> bool, fields: seq<Mapping>, i: nat)
    requires i < |fields|
    ensures ErrorsAt(parses, fields, i) == [] <==>
            parses(fields[i].jsonPath) && forall j :: 0 <= j < i ==> fields[j].name != fields[i].name
  {
  }

  /** A list is accepted if and only if all its paths parse and its names are distinct. */
  lemma {:induction false} AcceptedExactlyWhen(parses: string -> bool, fields: seq<Mapping>, n: nat)
    requires n <= |fields|
    ensures MappingErrors(parses, fields, n) == [] <==> Sound(parses, fields[..n])
  {
    if n > 0 {
      AcceptedExactlyWhen(parses, fields, n - 1);
      NoErrorAt(parses, fields, n - 1);
      SoundGrows(parses, fields[..n - 1], fields[n - 1]);
      assert fields[..n] == fields[..n - 1] + [fields[n - 1]];
    }
  }

  lemma SoundGrows(parses: string -> bool, fields: seq<Mapping>, m: Mapping)
    ensures Sound(parses, fields + [m]) <==>
            Sound(parses, fields) && parses(m.jsonPath) && forall j :: 0 <= j < |fields| ==> fields[j].name != m.name
  {
    var all := fields + [m];
    assert all[|fields|] == m && forall j :: 0 <= j < |fields| ==> all[j] == fields[j];
  }

  // -- classes --------------------------------------------------------------------------------------------

  predicate SameType(c: Class, d: Class) {
    c.kind == d.kind && c.apiVersion == d.apiVersion
  }

  predicate Clashes(r: Ref, c: Class, item: (Ref, Class)) {
    r.name != item.0.name && SameType(c, item.1)
  }

  ghost predicate FirstClash(list: seq<(Ref, Class)>, r: Ref, c: Class, i: int) {
    0 <= i < |list| && Clashes(r, c, list[i]) && forall j :: 0 <= j < i ==> !Clashes(r, c, list[j])
  }

  /** `IsDuplicateClass`: the first listed class of another name that manages the same type. */
  method IsDuplicateClass(list: seq<(Ref, Class)>, r: Ref, c: Class) returns (errs: seq<FieldError>)
    ensures errs == [] <==> forall i :: 0 <= i < |list| ==> !Clashes(r, c, list[i])
    ensures errs != [] ==> exists i :: FirstClash(list, r, c, i) && errs == [AlreadyManaged(list[i].0.name)]
    ensures errs == [] <==> forall i :: 0 <= i < |list| && list[i].0.name != r.name ==>
              list[i].1.kind != c.kind || list[i].1.apiVersion != c.apiVersion
  {
    for i := 0 to |list|
      invariant forall j :: 0 <= j < i ==> !Clashes(r, c, list[j])
    {
      var item := list[i];
      if r.name != item.0.name && c.kind == item.1.kind && c.apiVersion == item.1.apiVersion {
        assert FirstClash(list, r, c, i);
        return [AlreadyManaged(item.0.name)];
      }
    }
    return [];
  }

  type Store = map<Ref, Class>

  ghost predicate Unmanaged(classes: Store, r: Ref, c: Class) {
    forall q :: q in classes && q.name != r.name ==> !SameType(c, classes[q])
  }

  ghost predicate CreateAdmitted(parses: string -> bool, classes: Store, r: Ref, c: Class) {
    Unmanaged(classes, r, c) && Sound(parses, c.fields)
  }

  ghost predicate UpdateAdmitted(parses: string -> bool, classes: Store, r: Ref, before: Class, c: Class) {
    && SameType(before, c) && Elements(before.fields) == Elements(c.fields)
    && Sound(parses, c.fields) && Unmanaged(classes, r, c)
  }

  /** The listing holds the stored classes. */
  ghost predicate ListingOf(list: seq<(Ref, Class)>, classes: Store) {
    && (forall i :: 0 <= i < |list| ==> list[i].0 in classes && classes[list[i].0] == list[i].1)
    && (forall q :: q in classes ==> (q, classes[q]) in list)
  }

  lemma ListingClashes(list: seq<(Ref, Class)>, classes: Store, r: Ref, c: Class)
    requires ListingOf(list, classes)
    ensures (forall i :: 0 <= i < |list| ==> !Clashes(r, c, list[i])) <==> Unmanaged(classes, r, c)
  {
  }

  /** The errors about the class itself: the paths that do not parse, the names that came up before, and the first
      other class that manages the type. */
  ghost predicate Explains(
    errs: seq<FieldError>, parses: string -> bool, list: seq<(Ref, Class)>, r: Ref, c: Class)
  {
    && (forall k: nat :: InvalidPath(k) in errs <==> k < |c.fields| && !parses(c.fields[k].jsonPath))
    && (forall k: nat :: DuplicateName(k) in errs <==>
          k < |c.fields| && exists j :: 0 <= j < k && c.fields[j].name == c.fields[k].name)
    && (forall m :: AlreadyManaged(m) in errs <==> exists i :: FirstClash(list, r, c, i) && m == list[i].0.name)
  }

  lemma {:induction false} OnlyMappingErrors(parses: string -> bool, fields: seq<Mapping>, n: nat)
    requires n <= |fields|
    ensures forall e :: e in MappingErrors(parses, fields, n) ==> e.InvalidPath? || e.DuplicateName?
  {
    if n > 0 {
      OnlyMappingErrors(parses, fields, n - 1);
    }
  }

  lemma ErrorsExplain(
    errs: seq<FieldError>, other: seq<FieldError>, parses: string -> bool, list: seq<(Ref, Class)>, r: Ref, c: Class,
    duplicate: seq<FieldError>)
    requires forall e :: e in errs <==>
      e in other || e in MappingErrors(parses, c.fields, |c.fields|) || e in duplicate
    requires forall e :: e in other ==> e.Immutable?
    requires duplicate == [] <==> forall i :: 0 <= i < |list| ==> !Clashes(r, c, list[i])
    requires duplicate != [] ==> exists i :: FirstClash(list, r, c, i) && duplicate == [AlreadyManaged(list[i].0.name)]
    ensures Explains(errs, parses, list, r, c)
  {
    OnlyMappingErrors(parses, c.fields, |c.fields|);
    forall k: nat {
      ErrorsAreExact(parses, c.fields, |c.fields|, k);
    }
  }

  /** `ValidateCreate`; a failing list call is an error of its own. */
  method ValidateCreate(
    parses: string -> bool, listing: Option<seq<(Ref, Class)>>, ghost classes: Store, r: Ref, c: Class)
    returns (errs: Option<seq<FieldError>>)
    requires listing.Some? ==> ListingOf(listing.value, classes)
    ensures errs == Some([]) <==> listing.Some? && CreateAdmitted(parses, classes, r, c)
    ensures errs.None? <==> listing.None?
    ensures errs.Some? ==> Explains(errs.value, parses, listing.value, r, c)
    ensures errs.Some? ==> forall f :: Immutable(f) !in errs.value
  {
    if listing.None? {
      return None;
    }
    var duplicate := IsDuplicateClass(listing.value, r, c);
    var mapping := ValidateMapping(parses, c.fields);
    ListingClashes(listing.value, classes, r, c);
    AcceptedExactlyWhen(parses, c.fields, |c.fields|);
    assert c.fields[..|c.fields|] == c.fields;
    errs := Some(duplicate + mapping);
    OnlyMappingErrors(parses, c.fields, |c.fields|);
    ErrorsExplain(errs.value, [], parses, listing.value, r, c, duplicate);
  }

  method MappingSet(fields: seq<Mapping>) returns (s: set<Mapping>)
    ensures s == Elements(fields)
  {
    s := {};
    for i := 0 to |fields|
      invariant s == Elements(fields[..i])
    {
      s := s + {fields[i]};
      assert fields[..i + 1] == fields[..i] + [fields[i]];
    }
    assert fields[..|fields|] == fields;
  }

  /** The fields that must not change: the type, and the mappings up to order. */
  method ImmutableErrors(before: Class, c: Class) returns (all: seq<FieldError>)
    ensures all == [] <==> SameType(before, c) && Elements(before.fields) == Elements(c.fields)
    ensures forall e :: e in all ==> e.Immutable?
    ensures forall f :: Immutable(f) in all <==>
      || (f == "apiVersion" && before.apiVersion != c.apiVersion)
      || (f == "kind" && before.kind != c.kind)
      || (f == "serviceEndpointDefinitionMapping" && Elements(before.fields) != Elements(c.fields))
  {
    all := [];
    if before.apiVersion != c.apiVersion {
      all := all + [Immutable("apiVersion")];
    }
    if before.kind != c.kind {
      all := all + [Immutable("kind")];
    }
    var oldMappings := MappingSet(before.fields);
    var newMappings := MappingSet(c.fields);
    if oldMappings != newMappings {
      all := all + [Immutable("serviceEndpointDefinitionMapping")];
    }
  }

  /** `ValidateUpdate`. */
  method ValidateUpdate(
    parses: string -> bool, listing: Option<seq<(Ref, Class)>>, ghost classes: Store, r: Ref, before: Class, c: Class)
    returns (errs: Option<seq<FieldError>>)
    requires listing.Some? ==> ListingOf(listing.value, classes)
    ensures errs == Some([]) <==> listing.Some? && UpdateAdmitted(parses, classes, r, before, c)
    ensures errs.None? <==> listing.None?
    ensures errs.Some? ==> Explains(errs.value, parses, listing.value, r, c)
    ensures errs.Some? ==> forall f :: Immutable(f) in errs.value <==>
      || (f == "apiVersion" && before.apiVersion != c.apiVersion)
      || (f == "kind" && before.kind != c.kind)
      || (f == "serviceEndpointDefinitionMapping" && Elements(before.fields) != Elements(c.fields))
  {
    var all := ImmutableErrors(before, c);
    var mapping := ValidateMapping(parses, c.fields);
    if listing.None? {
      return None;
    }
    var duplicate := IsDuplicateClass(listing.value, r, c);
    ListingClashes(listing.value, classes, r, c);
    AcceptedExactlyWhen(parses, c.fields, |c.fields|);
    assert c.fields[..|c.fields|] == c.fields;
    errs := Some(all + mapping + duplicate);
    OnlyMappingErrors(parses, c.fields, |c.fields|);
    ErrorsExplain(errs.value, all, parses, listing.value, r, c, duplicate);
  }

  // -- runs -----------------------------------------------------------------------------------------------

  /** `born` remembers each class as it was created. */
  datatype World = World(classes: Store, born: Store)

  datatype Step = Create(r: Ref, c: Class) | Update(r: Ref, c: Class) | Delete(r: Ref)

  ghost predicate Enabled(parses: string -> bool, w: World, s: Step) {
    match s
    case Create(r, c) => r !in w.classes && CreateAdmitted(parses, w.classes, r, c)
    case Update(r, c) => r in w.classes && UpdateAdmitted(parses, w.classes, r, w.classes[r], c)
    case Delete(r) => r in w.classes
  }

  function Apply(w: World, s: Step): World {
    match s
    case Create(r, c) => World(w.classes[r := c], w.born[r := c])
    case Update(r, c) => w.(classes := w.classes[r := c])
    case Delete(r) => World(w.classes - {r}, w.born - {r})
  }

  ghost predicate Next(parses: string -> bool, w: World, w': World) {
    exists s :: Enabled(parses, w, s) && w' == Apply(w, s)
  }

  /** Differently named classes manage different types. */
  ghost predicate OneManagerPerType(w: World) {
    forall q, r :: q in w.classes && r in w.classes && q.name != r.name ==> !SameType(w.classes[q], w.classes[r])
  }

  /** The class still manages the type it was created for, and its mappings are the created ones, reordered. */
  ghost predicate TrueToBirth(parses: string -> bool, w: World, r: Ref)
    requires r in w.classes
  {
    && r in w.born && SameType(w.born[r], w.classes[r])
    && multiset(w.classes[r].fields) == multiset(w.born[r].fields) && Sound(parses, w.classes[r].fields)
  }

  ghost predicate Inv(parses: string -> bool, w: World) {
    OneManagerPerType(w) && forall r :: r in w.classes ==> TrueToBirth(parses, w, r)
  }

  lemma {:induction false} CountOfDistinct(fields: seq<Mapping>, m: Mapping)
    requires DistinctFieldNames(fields)
    ensures multiset(fields)[m] == if m in Elements(fields) then 1 else 0
  {
    if fields != [] {
      CountOfDistinct(fields[1..], m);
      assert fields == [fields[0]] + fields[1..];
      assert fields[0] !in fields[1..];
    }
  }

  /** Equal sets of mappings with distinct names are equal up to order. */
  lemma SameSetIsPermutation(a: seq<Mapping>, b: seq<Mapping>)
    requires DistinctFieldNames(a) && DistinctFieldNames(b) && Elements(a) == Elements(b)
    ensures multiset(a) == multiset(b)
  {
    forall m ensures multiset(a)[m] == multiset(b)[m] {
      CountOfDistinct(a, m);
      CountOfDistinct(b, m);
    }
  }

  lemma KeepOneManager(parses: string -> bool, w: World, s: Step)
    requires Inv(parses, w) && Enabled(parses, w, s)
    ensures OneManagerPerType(Apply(w, s))
  {
    assert s.Update? ==> TrueToBirth(parses, w, s.r);
  }

  lemma KeepTrue(parses: string -> bool, w: World, s: Step, r: Ref)
    requires Enabled(parses, w, s) && r in Apply(w, s).classes && (r in w.classes ==> TrueToBirth(parses, w, r))
    ensures TrueToBirth(parses, Apply(w, s), r)
  {
    if s.Update? && s.r == r {
      SameSetIsPermutation(w.classes[r].fields, s.c.fields);
    }
  }

  lemma StepKeepsInv(parses: string -> bool, w: World, s: Step)
    requires Inv(parses, w) && Enabled(parses, w, s)
    ensures Inv(parses, Apply(w, s))
  {
    KeepOneManager(parses, w, s);
    forall r | r in Apply(w, s).classes ensures TrueToBirth(parses, Apply(w, s), r) {
      KeepTrue(parses, w, s, r);
    }
  }

  /** Over every run of admitted creations, updates and deletions, one after the other: no two classes of
      different names manage the same type, and each class keeps, for life, the type it was created for and,
      up to order, the mappings it was created with. */
  lemma RunKeepsAdmission(parses: string -> bool, tr: seq<World>, i: nat)
    requires IsRun(w => w == World(map[], map[]), (w, w') => Next(parses, w, w'), tr) && i < |tr|
    ensures var classes, born := tr[i].classes, tr[i].born;
      && (forall q, r :: q in classes && r in classes && q.name != r.name ==>
            classes[q].kind != classes[r].kind || classes[q].apiVersion != classes[r].apiVersion)
      && (forall r :: r in classes ==>
            && r in born && classes[r].kind == born[r].kind && classes[r].apiVersion == born[r].apiVersion
            && multiset(classes[r].fields) == multiset(born[r].fields) && Sound(parses, classes[r].fields))
  {
    var start := (w: World) => w == World(map[], map[]);
    var next := (w, w') => Next(parses, w, w');
    var inv := w => Inv(parses, w);
    forall w, w' | inv(w) && next(w, w') ensures inv(w') {
      var s :| Enabled(parses, w, s) && w' == Apply(w, s);
      StepKeepsInv(parses, w, s);
    }
    RunKeeps(start, next, inv, tr, i);
    assert OneManagerPerType(tr[i]);
    forall r | r in tr[i].classes ensures TrueToBirth(parses, tr[i], r) {
    }
  }

  /** Names are compared without their namespaces: two classes that share a name and nothing else are both
      admitted for the same type. */
  lemma SameNameIsNotADuplicate(parses: string -> bool, w: World, q: Ref, r: Ref, c: Class)
    requires Inv(parses, w) && q in w.classes && r !in w.classes && q.name == r.name
    requires SameType(c, w.classes[q]) && Sound(parses, c.fields)
    ensures Enabled(parses, w, Create(r, c))
  {
  }
}
