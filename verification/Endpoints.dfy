/** Service endpoint definitions: how the service agent stores the values of a service
    (controllers/agents/svc/serviceclass_controller.go) and how the control plane collects them again for a
    claim (controllers/serviceclaim_controller.go). */
module Endpoints {
  import opened Wrappers
  import opened Slices

  type Data = map<string, string>

  datatype SecretRef = SecretRef(name: string, key: string)
  datatype SedItem = SedItem(name: string, value: string, fromSecret: Option<SecretRef>)
  datatype IdentityItem = IdentityItem(name: string, value: string)

  /** A field mapping of a ServiceClass with the outcome of reading it from the service resource. */
  datatype Mapping = Mapping(key: string, inSecret: bool, read: Option<string>)

  datatype Descriptor = Descriptor(name: string, data: Data)

  class Secret {
    var stringData: Data
    constructor ()
      ensures stringData == map[]
    {
      stringData := map[];
    }
  }

  /** An item with neither a value nor a secret reference makes the extraction dereference nil. */
  predicate Crashes(item: SedItem) {
    item.value == "" && item.fromSecret.None?
  }

  /** What an item adds to the secret of a claim that asks for `keys`, given the outcome of fetching the
      secret it refers to. A key that is absent from a fetched secret reads as the empty string. */
  function Contribution(item: SedItem, fetched: Option<Data>, keys: seq<string>): Option<string> {
    if item.name !in keys then None
    else if item.value != "" then Some(item.value)
    else if item.fromSecret.None? || item.fromSecret.value.key == "" || fetched.None? then None
    else Some(if item.fromSecret.value.key in fetched.value then fetched.value[item.fromSecret.value.key] else "")
  }

  /** The data and the count after the first `n` items. */
  function Extract(items: seq<SedItem>, fetched: seq<Option<Data>>, keys: seq<string>, data: Data, n: nat)
    : (r: (Data, nat))
    requires |items| == |fetched| && n <= |items|
  {
    if n == 0 then (data, 0)
    else
      var (d, count) := Extract(items, fetched, keys, data, n - 1);
      match Contribution(items[n - 1], fetched[n - 1], keys)
      case None => (d, count)
      case Some(v) => (d[items[n - 1].name := v], count + 1)
  }

  /** What the data say under the name of an item, among items of other names: a requested inline value, or what a
      fetched secret has under the key that the item refers to, the empty string if it lacks that key; otherwise
      what they said before. */
  predicate Collected(item: SedItem, fetched: Option<Data>, keys: seq<string>, before: Data, after: Data) {
    if item.name in keys && item.value != "" then
      item.name in after && after[item.name] == item.value
    else if item.name in keys && item.fromSecret.Some? && item.fromSecret.value.key != "" && fetched.Some? then
      var key := item.fromSecret.value.key;
      item.name in after && after[item.name] == if key in fetched.value then fetched.value[key] else ""
    else
      (item.name in after <==> item.name in before) && (item.name in before ==> after[item.name] == before[item.name])
  }

  lemma {:induction false} NotYetCollected(
    items: seq<SedItem>, fetched: seq<Option<Data>>, keys: seq<string>, data: Data, n: nat, name: string)
    requires |items| == |fetched| && n <= |items| && forall j :: 0 <= j < n ==> items[j].name != name
    ensures var after := Extract(items, fetched, keys, data, n).0;
      (name in after <==> name in data) && (name in data ==> after[name] == data[name])
  {
    if n > 0 {
      NotYetCollected(items, fetched, keys, data, n - 1, name);
    }
  }

  lemma {:induction false} CollectedAt(
    items: seq<SedItem>, fetched: seq<Option<Data>>, keys: seq<string>, data: Data, n: nat, i: nat)
    requires |items| == |fetched| && i < n <= |items| && DistinctNames(items)
    ensures Collected(items[i], fetched[i], keys, data, Extract(items, fetched, keys, data, n).0)
  {
    if i == n - 1 {
      NotYetCollected(items, fetched, keys, data, i, items[i].name);
    } else {
      CollectedAt(items, fetched, keys, data, n - 1, i);
    }
  }

  /** Adds to `secret` the values of the requested keys and counts them; `None` when the loop crashes. */
  method ExtractServiceEndpointDefinition(
    items: seq<SedItem>, fetched: seq<Option<Data>>, keys: seq<string>, secret: Secret)
    returns (r: Option<nat>)
    requires |items| == |fetched|
    modifies secret
    ensures r.None? <==> exists i :: 0 <= i < |items| && items[i].value == "" && items[i].fromSecret.None?
    ensures r.Some? ==> (secret.stringData, r.value) == Extract(items, fetched, keys, old(secret.stringData), |items|)
    ensures r.Some? && DistinctNames(items) ==> forall i :: 0 <= i < |items| ==>
              Collected(items[i], fetched[i], keys, old(secret.stringData), secret.stringData)
  {
    var count := 0;
    for i := 0 to |items|
      invariant (secret.stringData, count) == Extract(items, fetched, keys, old(secret.stringData), i)
      invariant forall j :: 0 <= j < i ==> !Crashes(items[j])
    {
      var sed := items[i];
      if sed.value != "" {
        if sed.name in keys {
          secret.stringData := secret.stringData[sed.name := sed.value];
          count := count + 1;
        }
      } else if sed.fromSecret.None? {
        return None;
      } else {
        var k := sed.fromSecret.value.key;
        if k != "" {
          if sed.name in keys && fetched[i].Some? {
            var sec := fetched[i].value;
            secret.stringData := secret.stringData[sed.name := if k in sec then sec[k] else ""];
            count := count + 1;
          }
        }
      }
    }
    forall i | 0 <= i < |items| && DistinctNames(items)
      ensures Collected(items[i], fetched[i], keys, old(secret.stringData), secret.stringData)
    {
      CollectedAt(items, fetched, keys, old(secret.stringData), |items|, i);
    }
    return Some(count);
  }

  /** No later item among the first `n` has the name of item `i`. */
  predicate LastOfName(identity: seq<IdentityItem>, i: nat, n: nat)
    requires i < n <= |identity|
  {
    forall j :: i < j < n ==> identity[j].name != identity[i].name
  }

  /** Identity values override collected ones; on repeated names the last one wins. */
  function Overridden(data: Data, identity: seq<IdentityItem>, n: nat): (d: Data)
    requires n <= |identity|
    ensures d.Keys == data.Keys + set i | 0 <= i < n :: identity[i].name
    ensures forall k :: k in data && (forall i :: 0 <= i < n ==> identity[i].name != k) ==> d[k] == data[k]
  {
    if n == 0 then data
    else Overridden(data, identity, n - 1)[identity[n - 1].name := identity[n - 1].value]
  }

  /** The last value of a name wins. */
  lemma {:induction false} LastWins(data: Data, identity: seq<IdentityItem>, n: nat, i: nat)
    requires i < n <= |identity| && LastOfName(identity, i, n)
    ensures identity[i].name in Overridden(data, identity, n)
    ensures Overridden(data, identity, n)[identity[i].name] == identity[i].value
  {
    if i < n - 1 {
      LastWins(data, identity, n - 1, i);
    }
  }

  method OverrideWithIdentity(identity: seq<IdentityItem>, secret: Secret)
    modifies secret
    ensures secret.stringData == Overridden(old(secret.stringData), identity, |identity|)
    ensures forall i :: 0 <= i < |identity| && LastOfName(identity, i, |identity|) ==>
              identity[i].name in secret.stringData && secret.stringData[identity[i].name] == identity[i].value
  {
    for i := 0 to |identity|
      invariant secret.stringData == Overridden(old(secret.stringData), identity, i)
    {
      secret.stringData := secret.stringData[identity[i].name := identity[i].value];
    }
    forall i | 0 <= i < |identity| && LastOfName(identity, i, |identity|)
      ensures identity[i].name in secret.stringData && secret.stringData[identity[i].name] == identity[i].value
    {
      LastWins(old(secret.stringData), identity, |identity|, i);
    }
  }

  ghost predicate DistinctNames(items: seq<SedItem>) {
    forall i, j :: 0 <= i < j < |items| ==> items[i].name != items[j].name
  }

  /** The names of the first `n` items that contribute. */
  ghost function Contributors(items: seq<SedItem>, fetched: seq<Option<Data>>, keys: seq<string>, n: nat)
    : (r: set<string>)
    requires |items| == |fetched| && n <= |items|
  {
    if n == 0 then {}
    else
      var before := Contributors(items, fetched, keys, n - 1);
      if Contribution(items[n - 1], fetched[n - 1], keys).Some? then before + {items[n - 1].name} else before
  }

  lemma {:induction false} ContributorsAre(
    items: seq<SedItem>, fetched: seq<Option<Data>>, keys: seq<string>, n: nat, k: string)
    requires |items| == |fetched| && n <= |items|
    ensures k in Contributors(items, fetched, keys, n)
       <==> exists i :: 0 <= i < n && items[i].name == k && Contribution(items[i], fetched[i], keys).Some?
  {
    if n > 0 {
      ContributorsAre(items, fetched, keys, n - 1, k);
    }
  }

  lemma {:induction false} CountsContributors(
    items: seq<SedItem>, fetched: seq<Option<Data>>, keys: seq<string>, data: Data, n: nat)
    requires |items| == |fetched| && n <= |items| && DistinctNames(items)
    ensures Extract(items, fetched, keys, data, n).1 == |Contributors(items, fetched, keys, n)|
  {
    if n > 0 {
      CountsContributors(items, fetched, keys, data, n - 1);
      ContributorsAre(items, fetched, keys, n - 1, items[n - 1].name);
    }
  }

  lemma {:induction false} ExtractedKeys(
    items: seq<SedItem>, fetched: seq<Option<Data>>, keys: seq<string>, data: Data, n: nat)
    requires |items| == |fetched| && n <= |items|
    ensures Extract(items, fetched, keys, data, n).0.Keys == data.Keys + Contributors(items, fetched, keys, n)
  {
    if n > 0 {
      ExtractedKeys(items, fetched, keys, data, n - 1);
    }
  }

  lemma ContributorsRequested(items: seq<SedItem>, fetched: seq<Option<Data>>, keys: seq<string>, n: nat)
    requires |items| == |fetched| && n <= |items|
    ensures Contributors(items, fetched, keys, n) <= Elements(keys)
  {
  }

  lemma {:induction false} ElementsBound<T>(s: seq<T>)
    ensures |Elements(s)| <= |s|
    ensures |Elements(s)| == |s| ==> Distinct(s)
  {
    if s != [] {
      var t := s[..|s| - 1];
      ElementsBound(t);
      var x := s[|s| - 1];
      assert s == t + [x];
      assert Elements(s) == Elements(t) + {x};
      if x !in Elements(t) {
        assert forall i :: 0 <= i < |t| ==> t[i] in Elements(t);
      }
    }
  }

  lemma SubsetFills<T>(a: set<T>, b: set<T>)
    requires a <= b && |b| <= |a|
    ensures a == b
  {
    assert |b - a| == |b| - |a|;
  }

  /** A claim that passes the count check is complete: if the endpoint names are distinct and no fewer
      values than keys were counted, the keys are distinct, and each of them is in the secret, also after
      the identity values went in. */
  lemma CountCheckMeansComplete(
    items: seq<SedItem>, fetched: seq<Option<Data>>, keys: seq<string>, identity: seq<IdentityItem>)
    requires |items| == |fetched| && DistinctNames(items)
    requires |keys| <= Extract(items, fetched, keys, map[], |items|).1
    ensures Distinct(keys)
    ensures var d := Extract(items, fetched, keys, map[], |items|).0;
            && d.Keys == Elements(keys)
            && forall k :: k in keys ==> k in Overridden(d, identity, |identity|)
  {
    CountsContributors(items, fetched, keys, map[], |items|);
    ExtractedKeys(items, fetched, keys, map[], |items|);
    ContributorsRequested(items, fetched, keys, |items|);
    ElementsBound(keys);
    SubsetFills(Contributors(items, fetched, keys, |items|), Elements(keys));
  }

  /** How a mapping that was read is stored. */
  function ItemOf(m: Mapping, secretName: string): SedItem {
    if m.read.None? then SedItem(m.key, "", None)
    else if m.inSecret then SedItem(m.key, "", Some(SecretRef(secretName, m.key)))
    else SedItem(m.key, m.read.value, None)
  }

  function SecretData(mappings: seq<Mapping>, n: nat): Data
    requires n <= |mappings|
  {
    if n == 0 then map[]
    else
      var m := mappings[n - 1];
      var d := SecretData(mappings, n - 1);
      if m.read.Some? && m.inSecret then d[m.key := m.read.value] else d
  }

  ghost function Stored(mappings: seq<Mapping>, secretName: string): seq<SedItem> {
    seq(|mappings|, i requires 0 <= i < |mappings| => ItemOf(mappings[i], secretName))
  }

  /** The descriptor that is stored with the items; none when no value goes into it. */
  ghost function DescriptorOf(mappings: seq<Mapping>, secretName: string): Option<Descriptor> {
    if SecretData(mappings, |mappings|) == map[] then None
    else Some(Descriptor(secretName, SecretData(mappings, |mappings|)))
  }

  /** What fetching the secret of an item gives when `stored` is the only one there is. */
  ghost function Fetch(item: SedItem, stored: Option<Descriptor>): Option<Data> {
    if item.fromSecret.Some? && stored.Some? && item.fromSecret.value.name == stored.value.name
    then Some(stored.value.data)
    else None
  }

  ghost function Fetched(items: seq<SedItem>, stored: Option<Descriptor>): seq<Option<Data>> {
    seq(|items|, i requires 0 <= i < |items| => Fetch(items[i], stored))
  }

  /** What the control plane gets to see of the stored values. */
  ghost function FetchedFrom(mappings: seq<Mapping>, secretName: string): seq<Option<Data>> {
    Fetched(Stored(mappings, secretName), DescriptorOf(mappings, secretName))
  }

  /** The item of a value that was read: in place, or by a reference to the descriptor under its own name. */
  predicate Describes(item: SedItem, m: Mapping, secret: Option<Descriptor>) {
    && item.name == m.key && m.read.Some?
    && if m.inSecret then
         secret.Some? && item.value == "" && item.fromSecret == Some(SecretRef(secret.value.name, m.key))
       else item.value == m.read.value && item.fromSecret == None
  }

  lemma {:induction false} SecretDataNotEmpty(mappings: seq<Mapping>, n: nat)
    requires n <= |mappings| && AllRead(mappings)
    ensures SecretData(mappings, n) != map[] <==> exists i :: 0 <= i < n && mappings[i].inSecret
  {
    if n > 0 {
      SecretDataNotEmpty(mappings, n - 1);
      if mappings[n - 1].inSecret {
        assert mappings[n - 1].key in SecretData(mappings, n);
      }
    }
  }

  /** Splits the values of a service into inline items and a descriptor secret; the result is the number of
      failed reads if there was one. There is no secret when no value goes into it. */
  method LookupServiceEndpointDescriptor(mappings: seq<Mapping>, service: string)
    returns (r: Result<(seq<SedItem>, Option<Descriptor>), nat>)
    ensures r.Ok? <==> forall i :: 0 <= i < |mappings| ==> mappings[i].read.Some?
    ensures r.Ok? ==>
      && var (items, secret) := r.value;
      && items == Stored(mappings, service + "-descriptor")
      && secret == DescriptorOf(mappings, service + "-descriptor")
      && |items| == |mappings| && (forall i :: 0 <= i < |items| ==> Describes(items[i], mappings[i], secret))
      && (secret.Some? ==> secret.value.name == service + "-descriptor")
      && (secret.Some? <==> exists i :: 0 <= i < |mappings| && mappings[i].inSecret)
    ensures r.Ok? && DistinctKeys(mappings) ==> forall i :: 0 <= i < |mappings| && mappings[i].inSecret ==>
              && mappings[i].key in r.value.1.value.data
              && r.value.1.value.data[mappings[i].key] == mappings[i].read.value
    ensures r.Err? ==> r.error > 0
  {
    var sedMappings: seq<SedItem> := [];
    var errors := 0;
    var secret := Descriptor(service + "-descriptor", map[]);
    for i := 0 to |mappings|
      invariant errors == 0 <==> forall j :: 0 <= j < i ==> mappings[j].read.Some?
      invariant errors == 0 ==> |sedMappings| == i
      invariant errors == 0 ==> forall j :: 0 <= j < i ==> sedMappings[j] == ItemOf(mappings[j], secret.name)
      invariant secret == Descriptor(service + "-descriptor", SecretData(mappings, i))
    {
      var m := mappings[i];
      if m.read.None? {
        errors := errors + 1;
      } else {
        var item := SedItem(m.key, m.read.value, None);
        if m.inSecret {
          item := SedItem(m.key, "", Some(SecretRef(secret.name, m.key)));
          secret := secret.(data := secret.data[m.key := m.read.value]);
        }
        sedMappings := sedMappings + [item];
      }
    }
    if errors != 0 {
      return Err(errors);
    }
    SecretDataNotEmpty(mappings, |mappings|);
    forall i | 0 <= i < |mappings| && mappings[i].inSecret && DistinctKeys(mappings)
      ensures mappings[i].key in secret.data && secret.data[mappings[i].key] == mappings[i].read.value
    {
      SecretDataHas(mappings, |mappings|, i);
    }
    return Ok((sedMappings, if |secret.data| == 0 then None else Some(secret)));
  }

  ghost predicate DistinctKeys(mappings: seq<Mapping>) {
    forall i, j :: 0 <= i < j < |mappings| ==> mappings[i].key != mappings[j].key
  }

  ghost predicate AllRead(mappings: seq<Mapping>) {
    forall i :: 0 <= i < |mappings| ==> mappings[i].read.Some?
  }

  /** The original name-to-value map, on the requested names. */
  ghost function Requested(mappings: seq<Mapping>, keys: seq<string>): Data
    requires AllRead(mappings) && DistinctKeys(mappings)
  {
    map i | 0 <= i < |mappings| && mappings[i].key in keys :: mappings[i].key := mappings[i].read.value
  }

  lemma {:induction false} SecretDataHas(mappings: seq<Mapping>, n: nat, i: nat)
    requires i < n <= |mappings| && AllRead(mappings) && DistinctKeys(mappings) && mappings[i].inSecret
    ensures mappings[i].key in SecretData(mappings, n)
    ensures SecretData(mappings, n)[mappings[i].key] == mappings[i].read.value
  {
    if i < n - 1 {
      SecretDataHas(mappings, n - 1, i);
    }
  }

  /** No value that is stored inline is empty, and no requested value is stored under the empty key. */
  ghost predicate Storable(mappings: seq<Mapping>, keys: seq<string>)
    requires AllRead(mappings)
  {
    forall i :: 0 <= i < |mappings| ==>
      if mappings[i].inSecret then mappings[i].key in keys ==> mappings[i].key != ""
      else mappings[i].read.value != ""
  }

  lemma ContributionOfStored(mappings: seq<Mapping>, keys: seq<string>, secretName: string, i: nat)
    requires i < |mappings| && AllRead(mappings) && DistinctKeys(mappings)
    ensures var m := mappings[i];
      Contribution(Stored(mappings, secretName)[i], FetchedFrom(mappings, secretName)[i], keys)
      == if m.key !in keys || (if m.inSecret then m.key == "" else m.read.value == "") then None
         else m.read
  {
    if mappings[i].inSecret {
      SecretDataHas(mappings, |mappings|, i);
    }
  }

  lemma {:induction false} ExtractStored(mappings: seq<Mapping>, keys: seq<string>, secretName: string, n: nat)
    requires AllRead(mappings) && DistinctKeys(mappings) && Storable(mappings, keys) && n <= |mappings|
    ensures var r := Extract(Stored(mappings, secretName), FetchedFrom(mappings, secretName), keys, map[], n);
            && (forall i :: 0 <= i < n && mappings[i].key in keys
                            ==> mappings[i].key in r.0 && r.0[mappings[i].key] == mappings[i].read.value)
            && (forall k :: k in r.0 ==> k in keys && exists i :: 0 <= i < n && mappings[i].key == k)
  {
    if n > 0 {
      ExtractStored(mappings, keys, secretName, n - 1);
      ContributionOfStored(mappings, keys, secretName, n - 1);
    }
  }

  lemma StorableRoundTrips(mappings: seq<Mapping>, keys: seq<string>, secretName: string)
    requires AllRead(mappings) && DistinctKeys(mappings) && Storable(mappings, keys)
    ensures Extract(Stored(mappings, secretName), FetchedFrom(mappings, secretName), keys, map[], |mappings|).0
         == Requested(mappings, keys)
  {
    ExtractStored(mappings, keys, secretName, |mappings|);
  }

  /** A value that cannot be stored makes the extraction crash or leaves its name out. */
  lemma UnstorableIsLost(mappings: seq<Mapping>, keys: seq<string>, secretName: string)
    requires AllRead(mappings) && DistinctKeys(mappings) && !Storable(mappings, keys)
    ensures var items := Stored(mappings, secretName);
      || (exists i :: 0 <= i < |items| && Crashes(items[i]))
      || (exists k :: k in keys && k !in Contributors(items, FetchedFrom(mappings, secretName), keys, |items|))
  {
    var items := Stored(mappings, secretName);
    var i :| 0 <= i < |mappings| &&
             !(if mappings[i].inSecret then mappings[i].key in keys ==> mappings[i].key != ""
               else mappings[i].read.value != "");
    if mappings[i].inSecret {
      ContributionOfStored(mappings, keys, secretName, i);
      ContributorsAre(items, FetchedFrom(mappings, secretName), keys, |items|, mappings[i].key);
    } else {
      assert Crashes(items[i]);
    }
  }

  /** The round trip: storing the values of a service and extracting a duplicate-free choice of their names
      gives back exactly the values of those names, and counts them, if and only if no inline value is empty
      and the empty name is not requested from the secret. */
  lemma RoundTrip(mappings: seq<Mapping>, keys: seq<string>, secretName: string)
    requires AllRead(mappings) && DistinctKeys(mappings)
    requires Distinct(keys) && forall k :: k in keys ==> exists i :: 0 <= i < |mappings| && mappings[i].key == k
    ensures
      var items := Stored(mappings, secretName);
      (&& (forall i :: 0 <= i < |items| ==> !Crashes(items[i]))
       && Extract(items, FetchedFrom(mappings, secretName), keys, map[], |items|)
          == (Requested(mappings, keys), |keys|))
      <==> Storable(mappings, keys)
  {
    var items := Stored(mappings, secretName);
    if Storable(mappings, keys) {
      StorableRoundTrips(mappings, keys, secretName);
      StorableCounts(mappings, keys, secretName);
    } else {
      UnstorableIsLost(mappings, keys, secretName);
      CountsContributors(items, FetchedFrom(mappings, secretName), keys, map[], |items|);
      ContributorsRequested(items, FetchedFrom(mappings, secretName), keys, |items|);
      DistinctElements(keys);
      if |Contributors(items, FetchedFrom(mappings, secretName), keys, |items|)| == |keys| {
        SubsetFills(Contributors(items, FetchedFrom(mappings, secretName), keys, |items|), Elements(keys));
      }
    }
  }

  lemma StorableCounts(mappings: seq<Mapping>, keys: seq<string>, secretName: string)
    requires AllRead(mappings) && DistinctKeys(mappings) && Storable(mappings, keys)
    requires Distinct(keys) && forall k :: k in keys ==> exists i :: 0 <= i < |mappings| && mappings[i].key == k
    ensures Extract(Stored(mappings, secretName), FetchedFrom(mappings, secretName), keys, map[], |mappings|).1
         == |keys|
  {
    var items := Stored(mappings, secretName);
    CountsContributors(items, FetchedFrom(mappings, secretName), keys, map[], |items|);
    ExtractedKeys(items, FetchedFrom(mappings, secretName), keys, map[], |items|);
    ExtractStored(mappings, keys, secretName, |items|);
    ContributorsRequested(items, FetchedFrom(mappings, secretName), keys, |items|);
    assert Contributors(items, FetchedFrom(mappings, secretName), keys, |items|) == Elements(keys);
    DistinctElements(keys);
  }

  lemma {:induction false} DistinctElements<T>(s: seq<T>)
    requires Distinct(s)
    ensures |Elements(s)| == |s|
  {
    if s != [] {
      var t := s[..|s| - 1];
      DistinctElements(t);
      assert s == t + [s[|s| - 1]];
      assert Elements(s) == Elements(t) + {s[|s| - 1]};
    }
  }

  /** The count check is exact: it passes if and only if the keys are distinct and each of them was collected.
      The path of a Resolved claim does not look at the count, so there this is what can go missing. */
  lemma CompleteExactlyWhenCounted(items: seq<SedItem>, fetched: seq<Option<Data>>, keys: seq<string>)
    requires |items| == |fetched| && DistinctNames(items)
    ensures |keys| <= Extract(items, fetched, keys, map[], |items|).1
       <==> Distinct(keys) && forall k :: k in keys ==> k in Extract(items, fetched, keys, map[], |items|).0
  {
    if |keys| <= Extract(items, fetched, keys, map[], |items|).1 {
      CountCheckMeansComplete(items, fetched, keys, []);
    }
    var collected := Contributors(items, fetched, keys, |items|);
    CountsContributors(items, fetched, keys, map[], |items|);
    ExtractedKeys(items, fetched, keys, map[], |items|);
    ContributorsRequested(items, fetched, keys, |items|);
    if Distinct(keys) && forall k :: k in keys ==> k in collected {
      assert collected == Elements(keys);
      DistinctElements(keys);
    }
  }
}
