/** The report of permissions that an agent has beyond those it should have (pkg/authz/permissions.go). */
module Permissions {
  import opened Wrappers

  /** A rule, granted or wanted: everything that can be combined from its lists. */
  datatype Rule = Rule(groups: seq<string>, resources: seq<string>, names: seq<string>, verbs: seq<string>)
  datatype Tuple = Tuple(group: string, resource: string, name: string, verb: string)
  datatype Report = Report(namespace: string, of: Tuple)

  /** No group means the core group, no name means any name. */
  function OrBlank(s: seq<string>): seq<string> {
    if |s| == 0 then [""] else s
  }

  /** The rule can be combined to this: a rule without groups is for the core group, and one without names for
      the blank name. */
  predicate InProduct(r: Rule, t: Tuple) {
    && (if r.groups == [] then t.group == "" else t.group in r.groups) && t.resource in r.resources
    && (if r.names == [] then t.name == "" else t.name in r.names) && t.verb in r.verbs
  }

  predicate Wildcard(t: Tuple) {
    t.group == "*" || t.resource == "*"
  }

  // -- the combinations of rules, in the order of the loops -----------------------------------------------

  function OfVerbs(g: string, r: string, n: string, verbs: seq<string>): seq<Tuple> {
    seq(|verbs|, i requires 0 <= i < |verbs| => Tuple(g, r, n, verbs[i]))
  }

  function OfNames(g: string, r: string, names: seq<string>, verbs: seq<string>): seq<Tuple> {
    if names == [] then []
    else OfNames(g, r, names[..|names| - 1], verbs) + OfVerbs(g, r, names[|names| - 1], verbs)
  }

  function OfResources(g: string, resources: seq<string>, names: seq<string>, verbs: seq<string>): seq<Tuple> {
    if resources == [] then []
    else
      OfResources(g, resources[..|resources| - 1], names, verbs)
      + OfNames(g, resources[|resources| - 1], names, verbs)
  }

  function OfGroups(groups: seq<string>, resources: seq<string>, names: seq<string>, verbs: seq<string>): seq<Tuple> {
    if groups == [] then []
    else
      OfGroups(groups[..|groups| - 1], resources, names, verbs)
      + OfResources(groups[|groups| - 1], resources, names, verbs)
  }

  function OfRule(r: Rule): seq<Tuple> {
    OfGroups(OrBlank(r.groups), r.resources, OrBlank(r.names), r.verbs)
  }

  function OfRules(rules: seq<Rule>): seq<Tuple> {
    if rules == [] then [] else OfRules(rules[..|rules| - 1]) + OfRule(rules[|rules| - 1])
  }

  lemma {:induction false} NamesMembers(g: string, r: string, names: seq<string>, verbs: seq<string>, t: Tuple)
    ensures t in OfNames(g, r, names, verbs) <==> t.group == g && t.resource == r && t.name in names && t.verb in verbs
  {
    if names != [] {
      var init, last := names[..|names| - 1], names[|names| - 1];
      NamesMembers(g, r, init, verbs, t);
      assert names == init + [last];
      VerbsMembers(g, r, last, verbs, t);
    }
  }

  lemma VerbsMembers(g: string, r: string, n: string, verbs: seq<string>, t: Tuple)
    ensures t in OfVerbs(g, r, n, verbs) <==> t.group == g && t.resource == r && t.name == n && t.verb in verbs
  {
    if t.group == g && t.resource == r && t.name == n && t.verb in verbs {
      var i :| 0 <= i < |verbs| && verbs[i] == t.verb;
      assert OfVerbs(g, r, n, verbs)[i] == t;
    }
  }

  lemma {:induction false} ResourcesMembers(
    g: string, resources: seq<string>, names: seq<string>, verbs: seq<string>, t: Tuple)
    ensures t in OfResources(g, resources, names, verbs) <==>
            t.group == g && t.resource in resources && t.name in names && t.verb in verbs
  {
    if resources != [] {
      var init, last := resources[..|resources| - 1], resources[|resources| - 1];
      ResourcesMembers(g, init, names, verbs, t);
      assert resources == init + [last];
      NamesMembers(g, last, names, verbs, t);
    }
  }

  lemma {:induction false} GroupsMembers(
    groups: seq<string>, resources: seq<string>, names: seq<string>, verbs: seq<string>, t: Tuple)
    ensures t in OfGroups(groups, resources, names, verbs) <==>
            t.group in groups && t.resource in resources && t.name in names && t.verb in verbs
  {
    if groups != [] {
      var init, last := groups[..|groups| - 1], groups[|groups| - 1];
      GroupsMembers(init, resources, names, verbs, t);
      assert groups == init + [last];
      ResourcesMembers(last, resources, names, verbs, t);
    }
  }

  ghost predicate Granted(rules: seq<Rule>, t: Tuple) {
    exists r :: r in rules && InProduct(r, t)
  }

  lemma {:induction false} OfRulesGranted(rules: seq<Rule>, t: Tuple)
    ensures t in OfRules(rules) <==> Granted(rules, t)
  {
    if rules != [] {
      var init, last := rules[..|rules| - 1], rules[|rules| - 1];
      OfRulesGranted(init, t);
      assert rules == init + [last];
      GroupsMembers(OrBlank(last.groups), last.resources, OrBlank(last.names), last.verbs, t);
      assert Granted(rules, t) <==> Granted(init, t) || InProduct(last, t);
    }
  }

  /** The loops visit exactly what the rules can be combined to. */
  lemma RulesMembers(rules: seq<Rule>, t: Tuple)
    ensures t in OfRules(rules) <==> Granted(rules, t)
    ensures t in OfRules(rules) <==> exists r ::
      && r in rules && (if r.groups == [] then t.group == "" else t.group in r.groups) && t.resource in r.resources
      && (if r.names == [] then t.name == "" else t.name in r.names) && t.verb in r.verbs
  {
    OfRulesGranted(rules, t);
  }

  // -- reports --------------------------------------------------------------------------------------------

  /** A wildcard is reported, and so is what is not wanted; a tuple can be reported for both reasons. */
  function ReportsOf(ns: string, wanted: set<Tuple>, t: Tuple): seq<Report> {
    (if Wildcard(t) then [Report(ns, t)] else []) + (if t !in wanted then [Report(ns, t)] else [])
  }

  function Reports(ns: string, wanted: set<Tuple>, ts: seq<Tuple>): seq<Report> {
    if ts == [] then [] else Reports(ns, wanted, ts[..|ts| - 1]) + ReportsOf(ns, wanted, ts[|ts| - 1])
  }

  function Count(ts: seq<Tuple>, p: Tuple -> bool): nat {
    if ts == [] then 0 else Count(ts[..|ts| - 1], p) + if p(ts[|ts| - 1]) then 1 else 0
  }

  function NotIn(wanted: set<Tuple>): Tuple -> bool { t => t !in wanted }

  /** The report has one line per wildcard and one per unwanted combination. */
  lemma {:induction false} ReportLength(ns: string, wanted: set<Tuple>, ts: seq<Tuple>)
    ensures |Reports(ns, wanted, ts)| == Count(ts, Wildcard) + Count(ts, NotIn(wanted))
  {
    if ts != [] {
      ReportLength(ns, wanted, ts[..|ts| - 1]);
    }
  }

  /** It names exactly the combinations that have a wildcard or are not wanted. */
  lemma {:induction false} ReportMembers(ns: string, wanted: set<Tuple>, ts: seq<Tuple>, x: Report)
    ensures x in Reports(ns, wanted, ts) <==> x.namespace == ns && x.of in ts && (Wildcard(x.of) || x.of !in wanted)
  {
    if ts != [] {
      var init, last := ts[..|ts| - 1], ts[|ts| - 1];
      ReportMembers(ns, wanted, init, x);
      assert ts == init + [last];
    }
  }

  lemma {:induction false} ReportsAppend(ns: string, wanted: set<Tuple>, a: seq<Tuple>, b: seq<Tuple>)
    ensures Reports(ns, wanted, a + b) == Reports(ns, wanted, a) + Reports(ns, wanted, b)
  {
    if b == [] {
      assert a + b == a;
    } else {
      assert (a + b)[..|a + b| - 1] == a + b[..|b| - 1];
      ReportsAppend(ns, wanted, a, b[..|b| - 1]);
    }
  }

  // `createUnwantedPermissions`, one method per loop.

  method ForVerbs(
    ns: string, definedRules: set<Tuple>, group: string, resource: string, name: string, verbs: seq<string>)
    returns (unwanted: seq<Report>)
    ensures unwanted == Reports(ns, definedRules, OfVerbs(group, resource, name, verbs))
  {
    unwanted := [];
    ghost var all := OfVerbs(group, resource, name, verbs);
    for v := 0 to |verbs|
      invariant unwanted == Reports(ns, definedRules, all[..v])
    {
      var t := Tuple(group, resource, name, verbs[v]);
      if t.group == "*" || t.resource == "*" {
        unwanted := unwanted + [Report(ns, t)];
      }
      if t !in definedRules {
        unwanted := unwanted + [Report(ns, t)];
      }
      assert all[..v + 1][..v] == all[..v] && all[v] == t;
    }
    assert all[..|verbs|] == all;
  }

  /** The loop over resource names. */
  method ForNames(
    ns: string, definedRules: set<Tuple>, group: string, resource: string, names: seq<string>, verbs: seq<string>)
    returns (unwanted: seq<Report>)
    ensures unwanted == Reports(ns, definedRules, OfNames(group, resource, names, verbs))
  {
    unwanted := [];
    for i := 0 to |names|
      invariant unwanted == Reports(ns, definedRules, OfNames(group, resource, names[..i], verbs))
    {
      var more := ForVerbs(ns, definedRules, group, resource, names[i], verbs);
      ReportsAppend(ns, definedRules,
                    OfNames(group, resource, names[..i], verbs), OfVerbs(group, resource, names[i], verbs));
      assert names[..i + 1][..i] == names[..i];
      unwanted := unwanted + more;
    }
    assert names[..|names|] == names;
  }

  /** The loop over resources. */
  method ForResources(
    ns: string, definedRules: set<Tuple>, group: string, resources: seq<string>, names: seq<string>,
    verbs: seq<string>)
    returns (unwanted: seq<Report>)
    ensures unwanted == Reports(ns, definedRules, OfResources(group, resources, names, verbs))
  {
    unwanted := [];
    for i := 0 to |resources|
      invariant unwanted == Reports(ns, definedRules, OfResources(group, resources[..i], names, verbs))
    {
      var more := ForNames(ns, definedRules, group, resources[i], names, verbs);
      ReportsAppend(ns, definedRules,
                    OfResources(group, resources[..i], names, verbs), OfNames(group, resources[i], names, verbs));
      assert resources[..i + 1][..i] == resources[..i];
      unwanted := unwanted + more;
    }
    assert resources[..|resources|] == resources;
  }

  /** The loop over groups. */
  method ForGroups(
    ns: string, definedRules: set<Tuple>, groups: seq<string>, resources: seq<string>, names: seq<string>,
    verbs: seq<string>)
    returns (unwanted: seq<Report>)
    ensures unwanted == Reports(ns, definedRules, OfGroups(groups, resources, names, verbs))
  {
    unwanted := [];
    for i := 0 to |groups|
      invariant unwanted == Reports(ns, definedRules, OfGroups(groups[..i], resources, names, verbs))
    {
      var more := ForResources(ns, definedRules, groups[i], resources, names, verbs);
      ReportsAppend(ns, definedRules,
                    OfGroups(groups[..i], resources, names, verbs), OfResources(groups[i], resources, names, verbs));
      assert groups[..i + 1][..i] == groups[..i];
      unwanted := unwanted + more;
    }
    assert groups[..|groups|] == groups;
  }

  /** The loop over rules. */
  method CreateUnwantedPermissions(ns: string, definedRules: set<Tuple>, rules: seq<Rule>)
    returns (unwanted: seq<Report>)
    ensures unwanted == Reports(ns, definedRules, OfRules(rules))
    ensures forall x :: x in unwanted <==>
      && x.namespace == ns && Granted(rules, x.of)
      && (x.of.group == "*" || x.of.resource == "*" || x.of !in definedRules)
  {
    forall x ensures x in Reports(ns, definedRules, OfRules(rules)) <==>
                       && x.namespace == ns && Granted(rules, x.of) && (Wildcard(x.of) || x.of !in definedRules)
    {
      ReportMembers(ns, definedRules, OfRules(rules), x);
      RulesMembers(rules, x.of);
    }
    unwanted := [];
    for i := 0 to |rules|
      invariant unwanted == Reports(ns, definedRules, OfRules(rules[..i]))
    {
      var rr := rules[i];
      var more := ForGroups(ns, definedRules, OrBlank(rr.groups), rr.resources, OrBlank(rr.names), rr.verbs);
      ReportsAppend(ns, definedRules, OfRules(rules[..i]), OfRule(rules[i]));
      assert rules[..i + 1][..i] == rules[..i];
      unwanted := unwanted + more;
    }
    assert rules[..|rules|] == rules;
  }

  /** The loops of `AccessList` that fill the map of wanted combinations. */
  method DefinedRules(pl: seq<Rule>) returns (defined: set<Tuple>)
    ensures defined == WantedBy(pl)
    ensures forall t :: t in defined <==> Granted(pl, t)
    ensures forall t :: t in defined <==> exists w ::
      && w in pl && (if w.groups == [] then t.group == "" else t.group in w.groups) && t.resource in w.resources
      && (if w.names == [] then t.name == "" else t.name in w.names) && t.verb in w.verbs
  {
    defined := {};
    for i := 0 to |pl|
      invariant forall t :: t in defined <==> Granted(pl[..i], t)
    {
      var groups, names := OrBlank(pl[i].groups), OrBlank(pl[i].names);
      ghost var d0 := defined;
      for g := 0 to |groups|
        invariant forall t ::
          t in defined <==> t in d0 || t in OfGroups(groups[..g], pl[i].resources, names, pl[i].verbs)
      {
        var more := WithGroup(defined, groups[g], pl[i].resources, names, pl[i].verbs);
        assert groups[..g + 1][..g] == groups[..g];
        defined := more;
      }
      assert groups[..|groups|] == groups && pl[..i + 1] == pl[..i] + [pl[i]];
      forall t ensures t in defined <==> Granted(pl[..i + 1], t) {
        GroupsMembers(groups, pl[i].resources, names, pl[i].verbs, t);
        assert Granted(pl[..i + 1], t) <==> Granted(pl[..i], t) || InProduct(pl[i], t);
      }
    }
    assert pl[..|pl|] == pl;
    forall t ensures t in defined <==> t in WantedBy(pl) {
      WantedMembers(pl, t);
    }
  }

  /** The inner three loops, for one group. */
  method WithGroup(before: set<Tuple>, group: string, resources: seq<string>, names: seq<string>, verbs: seq<string>)
    returns (defined: set<Tuple>)
    ensures forall t :: t in defined <==> t in before || t in OfResources(group, resources, names, verbs)
  {
    defined := before;
    for r := 0 to |resources|
      invariant forall t :: t in defined <==> t in before || t in OfResources(group, resources[..r], names, verbs)
    {
      ghost var d1 := defined;
      for n := 0 to |names|
        invariant forall t :: t in defined <==> t in d1 || t in OfNames(group, resources[r], names[..n], verbs)
      {
        ghost var d2 := defined;
        for v := 0 to |verbs|
          invariant forall t :: t in defined <==> t in d2 || t in OfVerbs(group, resources[r], names[n], verbs)[..v]
        {
          defined := defined + {Tuple(group, resources[r], names[n], verbs[v])};
          ghost var all := OfVerbs(group, resources[r], names[n], verbs);
          assert all[..v + 1] == all[..v] + [all[v]];
        }
        ghost var every := OfVerbs(group, resources[r], names[n], verbs);
        assert every[..|verbs|] == every;
        assert names[..n + 1][..n] == names[..n];
      }
      assert names[..|names|] == names && resources[..r + 1][..r] == resources[..r];
    }
    assert resources[..|resources|] == resources;
  }

  /** Nothing is granted beyond what is wanted. */
  ghost predicate NoExcess(granted: seq<Rule>, pl: seq<Rule>) {
    forall t :: Granted(granted, t) ==> Granted(pl, t) && !Wildcard(t)
  }

  /** The line is due for a namespace: granted there, and a wildcard or not wanted. */
  ghost predicate Due(ns: string, review: Option<seq<Rule>>, pl: seq<Rule>, x: Report) {
    x.namespace == ns && review.Some? && Granted(review.value, x.of) && (Wildcard(x.of) || !Granted(pl, x.of))
  }

  ghost predicate Reported(namespaces: seq<string>, reviews: seq<Option<seq<Rule>>>, pl: seq<Rule>, n: nat, x: Report)
    requires n <= |namespaces| && |reviews| == |namespaces|
  {
    exists i :: 0 <= i < n && Due(namespaces[i], reviews[i], pl, x)
  }

  function WantedBy(pl: seq<Rule>): set<Tuple> {
    SetOf(OfRules(pl))
  }

  function SetOf(ts: seq<Tuple>): set<Tuple> {
    if ts == [] then {} else SetOf(ts[..|ts| - 1]) + {ts[|ts| - 1]}
  }

  lemma {:induction false} SetOfMembers(ts: seq<Tuple>, t: Tuple)
    ensures t in SetOf(ts) <==> t in ts
  {
    if ts != [] {
      SetOfMembers(ts[..|ts| - 1], t);
      assert ts == ts[..|ts| - 1] + [ts[|ts| - 1]];
    }
  }

  lemma WantedMembers(pl: seq<Rule>, t: Tuple)
    ensures t in WantedBy(pl) <==> Granted(pl, t)
  {
    SetOfMembers(OfRules(pl), t);
    RulesMembers(pl, t);
  }

  /** The report of one namespace. */
  function Part(ns: string, review: Option<seq<Rule>>, wanted: set<Tuple>): seq<Report> {
    if review.None? then [] else Reports(ns, wanted, OfRules(review.value))
  }

  function Parts(namespaces: seq<string>, reviews: seq<Option<seq<Rule>>>, wanted: set<Tuple>): seq<seq<Report>>
    requires |namespaces| == |reviews|
  {
    seq(|namespaces|, i requires 0 <= i < |namespaces| => Part(namespaces[i], reviews[i], wanted))
  }

  /** One after the other. */
  function Flatten(parts: seq<seq<Report>>): seq<Report> {
    if parts == [] then [] else Flatten(parts[..|parts| - 1]) + parts[|parts| - 1]
  }

  /** How many combinations are granted in the first `n` namespaces with a wildcard, and how many unwanted. */
  function Total(reviews: seq<Option<seq<Rule>>>, wanted: set<Tuple>, n: nat): nat
    requires n <= |reviews| && forall i :: 0 <= i < n ==> reviews[i].Some?
    decreases n
  {
    if n == 0 then 0
    else
      var granted := OfRules(reviews[n - 1].value);
      Total(reviews, wanted, n - 1) + Count(granted, Wildcard) + Count(granted, NotIn(wanted))
  }

  lemma {:induction false} FlattenLength(
    namespaces: seq<string>, reviews: seq<Option<seq<Rule>>>, wanted: set<Tuple>, n: nat)
    requires n <= |namespaces| == |reviews| && forall i :: 0 <= i < |reviews| ==> reviews[i].Some?
    ensures |Flatten(Parts(namespaces, reviews, wanted)[..n])| == Total(reviews, wanted, n)
    decreases n
  {
    var parts := Parts(namespaces, reviews, wanted);
    if n > 0 {
      FlattenLength(namespaces, reviews, wanted, n - 1);
      assert parts[..n][..n - 1] == parts[..n - 1];
      ReportLength(namespaces[n - 1], wanted, OfRules(reviews[n - 1].value));
    }
  }

  lemma FlattenOneMore(parts: seq<seq<Report>>, i: nat, before: seq<Report>, part: seq<Report>)
    requires i < |parts| && before == Flatten(parts[..i]) && part == parts[i]
    ensures before + part == Flatten(parts[..i + 1])
  {
    assert parts[..i + 1][..i] == parts[..i];
  }

  lemma {:induction false} FlattenMembers(parts: seq<seq<Report>>, x: Report)
    ensures x in Flatten(parts) <==> exists i :: 0 <= i < |parts| && x in parts[i]
  {
    if parts != [] {
      FlattenMembers(parts[..|parts| - 1], x);
      assert parts[..|parts| - 1] + [parts[|parts| - 1]] == parts;
    }
  }

  lemma DueExactly(ns: string, rules: seq<Rule>, pl: seq<Rule>, wanted: set<Tuple>, x: Report)
    requires forall t :: t in wanted <==> Granted(pl, t)
    ensures x in Reports(ns, wanted, OfRules(rules)) <==> Due(ns, Some(rules), pl, x)
  {
    ReportMembers(ns, wanted, OfRules(rules), x);
    RulesMembers(rules, x.of);
  }

  lemma PartsMembers(namespaces: seq<string>, reviews: seq<Option<seq<Rule>>>, pl: seq<Rule>, x: Report)
    requires |namespaces| == |reviews| && forall i :: 0 <= i < |reviews| ==> reviews[i].Some?
    ensures x in Flatten(Parts(namespaces, reviews, WantedBy(pl)))
       <==> Reported(namespaces, reviews, pl, |namespaces|, x)
  {
    var wanted := WantedBy(pl);
    var parts := Parts(namespaces, reviews, wanted);
    FlattenMembers(parts, x);
    forall t ensures t in wanted <==> Granted(pl, t) {
      WantedMembers(pl, t);
    }
    forall i | 0 <= i < |parts| ensures x in parts[i] <==> Due(namespaces[i], reviews[i], pl, x) {
      DueExactly(namespaces[i], reviews[i].value, pl, wanted, x);
    }
  }

  lemma ReportIsExact(namespaces: seq<string>, reviews: seq<Option<seq<Rule>>>, pl: seq<Rule>)
    requires |namespaces| == |reviews| && forall i :: 0 <= i < |reviews| ==> reviews[i].Some?
    ensures var all := Flatten(Parts(namespaces, reviews, WantedBy(pl)));
      && |all| == Total(reviews, WantedBy(pl), |reviews|)
      && (forall x :: x in all <==> Reported(namespaces, reviews, pl, |namespaces|, x))
      && (all == [] <==> forall i :: 0 <= i < |reviews| ==> NoExcess(reviews[i].value, pl))
  {
    var parts := Parts(namespaces, reviews, WantedBy(pl));
    forall x ensures x in Flatten(parts) <==> Reported(namespaces, reviews, pl, |namespaces|, x) {
      PartsMembers(namespaces, reviews, pl, x);
    }
    NoLinesExactlyWhen(namespaces, reviews, pl, Flatten(parts));
    FlattenLength(namespaces, reviews, WantedBy(pl), |reviews|);
    assert parts[..|reviews|] == parts;
  }

  ghost predicate IsWanted(pl: seq<Rule>, wanted: set<Tuple>) {
    forall t :: t in wanted <==> Granted(pl, t)
  }

  ghost predicate PartAt(
    parts: seq<seq<Report>>, namespaces: seq<string>, reviews: seq<Option<seq<Rule>>>, wanted: set<Tuple>, i: nat)
    requires i < |parts| == |namespaces| == |reviews|
  {
    parts[i] == Part(namespaces[i], reviews[i], wanted)
  }

  /** The i-th list is the report of the i-th namespace. */
  ghost predicate ArePartsOf(
    parts: seq<seq<Report>>, namespaces: seq<string>, reviews: seq<Option<seq<Rule>>>, wanted: set<Tuple>)
  {
    && |parts| == |namespaces| == |reviews|
    && forall i: nat :: i < |parts| ==> PartAt(parts, namespaces, reviews, wanted, i)
  }

  /** The body of the loop of `AccessList`. */
  method ReportNamespace(
    namespaces: seq<string>, pl: seq<Rule>, reviews: seq<Option<seq<Rule>>>, i: nat,
    ghost wanted: set<Tuple>, ghost parts: seq<seq<Report>>)
    returns (up: seq<Report>)
    requires IsWanted(pl, wanted) && ArePartsOf(parts, namespaces, reviews, wanted)
    requires i < |reviews| && reviews[i].Some?
    ensures up == parts[i]
  {
    var defined := DefinedRules(pl);
    assert defined == wanted;
    up := CreateUnwantedPermissions(namespaces[i], defined, reviews[i].value);
    assert PartAt(parts, namespaces, reviews, wanted, i);
  }

  /** The loop of `AccessList`. */
  method CollectReports(
    namespaces: seq<string>, pl: seq<Rule>, reviews: seq<Option<seq<Rule>>>,
    ghost wanted: set<Tuple>, ghost parts: seq<seq<Report>>)
    returns (r: Option<seq<Report>>)
    requires IsWanted(pl, wanted) && ArePartsOf(parts, namespaces, reviews, wanted)
    ensures r.None? <==> exists i :: 0 <= i < |reviews| && reviews[i].None?
    ensures r.Some? ==> r.value == Flatten(parts)
  {
    var unwanted: seq<Report> := [];
    for i := 0 to |namespaces|
      invariant forall j :: 0 <= j < i ==> reviews[j].Some?
      invariant unwanted == Flatten(parts[..i])
    {
      if reviews[i].None? {
        return None;
      }
      var up := ReportNamespace(namespaces, pl, reviews, i, wanted, parts);
      FlattenOneMore(parts, i, unwanted, up);
      unwanted := unwanted + up;
    }
    assert parts[..|namespaces|] == parts;
    return Some(unwanted);
  }

  lemma ReportedMeans(namespaces: seq<string>, reviews: seq<Option<seq<Rule>>>, pl: seq<Rule>, x: Report)
    requires |reviews| == |namespaces| && forall i :: 0 <= i < |reviews| ==> reviews[i].Some?
    ensures Reported(namespaces, reviews, pl, |namespaces|, x) <==> exists i, rule ::
      && 0 <= i < |namespaces| && x.namespace == namespaces[i] && rule in reviews[i].value
      && (if rule.groups == [] then x.of.group == "" else x.of.group in rule.groups) && x.of.resource in rule.resources
      && (if rule.names == [] then x.of.name == "" else x.of.name in rule.names) && x.of.verb in rule.verbs
      && (x.of.group == "*" || x.of.resource == "*" || !exists w ::
            && w in pl && (if w.groups == [] then x.of.group == "" else x.of.group in w.groups)
            && x.of.resource in w.resources
            && (if w.names == [] then x.of.name == "" else x.of.name in w.names) && x.of.verb in w.verbs)
  {
  }

  /** `AccessList`. `reviews[i]` is what the review of the rules in the i-th namespace gives, or a failure, which
      ends the report. Without a failure the report has the lines of all namespaces in order, as many as there are
      granted combinations with a wildcard and unwanted ones; every line is about a combination that is granted
      in its namespace and has a wildcard or is not wanted, every such combination has a line, and so there is
      no line if and only if there is no excess anywhere. */
  method AccessList(namespaces: seq<string>, pl: seq<Rule>, reviews: seq<Option<seq<Rule>>>)
    returns (r: Option<seq<Report>>)
    requires |reviews| == |namespaces|
    ensures r.None? <==> exists i :: 0 <= i < |reviews| && reviews[i].None?
    ensures r.Some? ==>
      && r.value == Flatten(Parts(namespaces, reviews, WantedBy(pl)))
      && |r.value| == Total(reviews, WantedBy(pl), |reviews|)
    ensures r.Some? ==> forall x :: x in r.value <==> Reported(namespaces, reviews, pl, |namespaces|, x)
    ensures r.Some? ==> forall x :: x in r.value <==> exists i, rule ::
      && 0 <= i < |namespaces| && x.namespace == namespaces[i] && rule in reviews[i].value
      && (if rule.groups == [] then x.of.group == "" else x.of.group in rule.groups) && x.of.resource in rule.resources
      && (if rule.names == [] then x.of.name == "" else x.of.name in rule.names) && x.of.verb in rule.verbs
      && (x.of.group == "*" || x.of.resource == "*" || !exists w ::
            && w in pl && (if w.groups == [] then x.of.group == "" else x.of.group in w.groups)
            && x.of.resource in w.resources
            && (if w.names == [] then x.of.name == "" else x.of.name in w.names) && x.of.verb in w.verbs)
    ensures r.Some? ==> (r.value == [] <==> forall i :: 0 <= i < |reviews| ==> NoExcess(reviews[i].value, pl))
  {
    forall t ensures t in WantedBy(pl) <==> Granted(pl, t) {
      WantedMembers(pl, t);
    }
    ghost var parts := Parts(namespaces, reviews, WantedBy(pl));
    assert ArePartsOf(parts, namespaces, reviews, WantedBy(pl));
    r := CollectReports(namespaces, pl, reviews, WantedBy(pl), parts);
    if r.Some? {
      ReportIsExact(namespaces, reviews, pl);
      forall x {
        ReportedMeans(namespaces, reviews, pl, x);
      }
    }
  }

  lemma NoLinesExactlyWhen(
    namespaces: seq<string>, reviews: seq<Option<seq<Rule>>>, pl: seq<Rule>, unwanted: seq<Report>)
    requires |reviews| == |namespaces| && forall i :: 0 <= i < |reviews| ==> reviews[i].Some?
    requires forall x :: x in unwanted <==> Reported(namespaces, reviews, pl, |namespaces|, x)
    ensures unwanted == [] <==> forall i :: 0 <= i < |reviews| ==> NoExcess(reviews[i].value, pl)
  {
    if |unwanted| > 0 {
      assert Reported(namespaces, reviews, pl, |namespaces|, unwanted[0]);
    } else {
      forall i, t | 0 <= i < |reviews| && Granted(reviews[i].value, t) ensures Granted(pl, t) && !Wildcard(t) {
        assert Report(namespaces[i], t) !in unwanted;
        assert !Due(namespaces[i], reviews[i], pl, Report(namespaces[i], t));
      }
    }
  }
}
