/** The informers of cluster environments: a map from names to running informers and the contexts that stop
    them. RunSvcInformers and RunAppInformers keep two maps in the same way
    (controllers/clusterenvironment_controller_svcinformers.go, clusterenvironment_controller_appinformers.go). */
module Informers {
  import opened Slices

  /** The name of an informer. */
  function Key(ce: string, ns: string): string {
    ce + "/" + ns
  }

  function Keys(ce: string, nss: set<string>): set<string> {
    set ns | ns in nss :: Key(ce, ns)
  }

  lemma KeysGrow(ce: string, wanted: set<string>, left: set<string>, n: string)
    requires n in left && left <= wanted
    ensures Keys(ce, wanted - (left - {n})) == Keys(ce, wanted - left) + {Key(ce, n)}
  {
  }

  /** Namespace names have no slash. */
  ghost predicate Plain(nss: seq<string>) {
    forall ns :: ns in nss ==> '/' !in ns
  }

  /** Names of informers of plain namespaces tell which environment and namespace they are for. */
  lemma KeyTells(ce1: string, ns1: string, ce2: string, ns2: string)
    requires '/' !in ns1 && '/' !in ns2 && Key(ce1, ns1) == Key(ce2, ns2)
    ensures ce1 == ce2 && ns1 == ns2
  {
    var k := Key(ce1, ns1);
    assert k[|ce1|] == '/' && k[|ce2|] == '/';
    assert k[..|ce1|] == ce1 && k[..|ce2|] == ce2 && k[|ce1| + 1..] == ns1 && k[|ce2| + 1..] == ns2;
  }

  class InformerTable {
    /** Informers by name; an informer is told by the context that it runs under. */
    var informers: map<string, nat>
    /** The contexts that were made and not cancelled. */
    var live: set<nat>
    var next: nat

    /** How many informers could not be set up or synchronized. */
    ghost var failures: nat

    /** No informer is lost or leaked: what runs is exactly what is in the map, each under its own context. */
    ghost predicate Valid()
      reads this`informers, this`live, this`next
    {
      && (forall k :: k in informers ==> informers[k] in live)
      && (forall x :: x in live ==> x < next && exists k :: k in informers && informers[k] == x)
      && (forall k, l :: k in informers && l in informers && k != l ==> informers[k] != informers[l])
    }

    constructor ()
      ensures Valid() && informers == map[] && live == {} && failures == 0
    {
      informers, live, next, failures := map[], {}, 0, 0;
    }

    method StopInformer(n: string)
      requires Valid() && n in informers
      modifies this
      ensures Valid() && informers == old(informers) - {n} && live == old(live) - {old(informers)[n]}
      ensures next == old(next) && failures == old(failures)
    {
      live := live - {informers[n]};
      informers := informers - {n};
      forall x | x in live ensures exists k :: k in informers && informers[k] == x {
        var k :| k in old(informers) && old(informers)[k] == x;
        assert k in informers;
      }
    }

    method StartInformer(n: string)
      requires Valid() && n !in informers
      modifies this
      ensures Valid() && informers == old(informers)[n := old(next)] && live == old(live) + {old(next)}
      ensures failures == old(failures)
    {
      informers, live, next := informers[n := next], live + {next}, next + 1;
      forall x | x in live ensures exists k :: k in informers && informers[k] == x {
        if x == old(next) {
          assert n in informers;
        } else {
          var k :| k in old(informers) && old(informers)[k] == x;
          assert k in informers && informers[k] == x;
        }
      }
    }

    /** `RunSvcInformer`: setting up a client or the handlers may fail, and so may the first synchronization,
        after the informer was entered and started. */
    method RunInformer(ce: string, ns: string) returns (ok: bool)
      requires Valid()
      modifies this
      ensures Valid()
      ensures old(failures) <= failures && (ok <==> failures == old(failures))
      ensures ok ==> informers.Keys == old(informers).Keys + {Key(ce, ns)}
      ensures !ok ==> informers == old(informers) && live == old(live) && Key(ce, ns) !in informers
      ensures forall k :: k in old(informers) ==> k in informers && informers[k] == old(informers)[k]
    {
      var n := Key(ce, ns);
      if n in informers {
        return true;
      }
      var prepared: bool := *;
      if !prepared {
        failures := failures + 1;
        return false;
      }
      StartInformer(n);
      var synced: bool := *;
      if !synced {
        failures := failures + 1;
        StopInformer(n);
        return false;
      }
      return true;
    }

    method StopInformers(stopped: set<string>)
      requires Valid() && stopped <= informers.Keys
      modifies this
      ensures Valid() && informers.Keys == old(informers).Keys - stopped && failures == old(failures)
    {
      var left := stopped;
      while left != {}
        invariant Valid() && left <= stopped && failures == old(failures)
        invariant informers.Keys == old(informers).Keys - (stopped - left)
        decreases left
      {
        var n :| n in left;
        StopInformer(n);
        left := left - {n};
      }
    }

    method StartInformers(ce: string, wanted: set<string>) returns (ok: bool)
      requires Valid()
      modifies this
      ensures Valid()
      ensures old(failures) <= failures && (ok <==> failures == old(failures))
      ensures informers.Keys <= old(informers).Keys + Keys(ce, wanted)
      ensures ok ==> informers.Keys == old(informers).Keys + Keys(ce, wanted)
    {
      ok := true;
      var left := wanted;
      while left != {}
        invariant Valid() && left <= wanted
        invariant informers.Keys <= old(informers).Keys + Keys(ce, wanted - left)
        invariant ok ==> informers.Keys == old(informers).Keys + Keys(ce, wanted - left)
        invariant old(failures) <= failures && (ok <==> failures == old(failures))
        decreases left
      {
        var n :| n in left;
        KeysGrow(ce, wanted, left, n);
        var running := RunInformer(ce, n);
        ok := ok && running;
        left := left - {n};
      }
      assert wanted - left == wanted;
    }

    /** `RunSvcInformers`. The set of informers to stop is the names in the map without the wanted namespaces,
        but names are not namespaces: whatever runs is stopped unless its name happens to be that of a wanted
        namespace, and then the wanted ones are started. */
    method RunInformers(ce: string, declared: seq<string>, failed: seq<string>) returns (ok: bool)
      requires Valid()
      modifies this
      ensures Valid()
      ensures old(failures) <= failures && (ok <==> failures == old(failures))
      ensures var wanted := Elements(declared) - Elements(failed);
        && informers.Keys <= Keys(ce, wanted) + old(informers).Keys * wanted
        && (ok ==> informers.Keys == Keys(ce, wanted) + old(informers).Keys * wanted)
    {
      var wanted := Wanted(declared, failed);
      StopInformers(informers.Keys - wanted);
      assert informers.Keys == old(informers).Keys * wanted;
      ok := StartInformers(ce, wanted);
    }

    /** With plain namespaces an error-free run leaves exactly the informers of the namespaces that were
        declared and did not fail, and any run stops every informer of every other environment. */
    method RunPlainInformers(ce: string, declared: seq<string>, failed: seq<string>) returns (ok: bool)
      requires Valid() && Plain(declared) && KeysHaveSlash()
      modifies this
      ensures Valid() && KeysHaveSlash()
      ensures old(failures) <= failures && (ok <==> failures == old(failures))
      ensures ok ==> informers.Keys == Keys(ce, Elements(declared) - Elements(failed))
      ensures informers.Keys <= Keys(ce, Elements(declared) - Elements(failed))
    {
      forall k | k in informers ensures k !in Elements(declared) {
        assert '/' in k;
      }
      assert informers.Keys * (Elements(declared) - Elements(failed)) == {};
      ok := RunInformers(ce, declared, failed);
      forall k | k in informers ensures '/' in k {
        var ns :| ns in Elements(declared) - Elements(failed) && k == Key(ce, ns);
        assert k[|ce|] == '/';
      }
    }

    ghost predicate KeysHaveSlash()
      reads this
    {
      forall k :: k in informers ==> '/' in k
    }

    /** Any sequence of runs, for any environments, failing in any way: nothing is leaked or lost, and only the
        environment of the last run has informers, for none but the namespaces it wanted. */
    method Serve(runs: seq<(string, seq<string>, seq<string>)>) returns (oks: seq<bool>)
      requires Valid() && informers == map[] && forall r :: r in runs ==> Plain(r.1)
      modifies this
      ensures Valid() && |oks| == |runs|
      ensures old(failures) <= failures && (failures == old(failures) ==> forall i :: 0 <= i < |oks| ==> oks[i])
      ensures |runs| > 0 ==> var r := runs[|runs| - 1];
        && informers.Keys <= Keys(r.0, Elements(r.1) - Elements(r.2))
        && (oks[|runs| - 1] ==> informers.Keys == Keys(r.0, Elements(r.1) - Elements(r.2)))
    {
      oks := [];
      for i := 0 to |runs|
        invariant Valid() && KeysHaveSlash() && |oks| == i
        invariant old(failures) <= failures && (failures == old(failures) ==> forall j :: 0 <= j < i ==> oks[j])
        invariant i > 0 ==> informers.Keys <= Keys(runs[i - 1].0, Elements(runs[i - 1].1) - Elements(runs[i - 1].2))
        invariant i > 0 && oks[i - 1] ==>
                    informers.Keys == Keys(runs[i - 1].0, Elements(runs[i - 1].1) - Elements(runs[i - 1].2))
      {
        assert runs[i] in runs;
        var ok := RunPlainInformers(runs[i].0, runs[i].1, runs[i].2);
        oks := oks + [ok];
      }
    }
  }

  /** The namespaces to watch: the declared ones without the failed ones. */
  method Wanted(declared: seq<string>, failed: seq<string>) returns (snn: set<string>)
    ensures snn == Elements(declared) - Elements(failed)
  {
    snn := {};
    for i := 0 to |declared|
      invariant snn == Elements(declared[..i])
    {
      snn := snn + {declared[i]};
      assert declared[..i + 1] == declared[..i] + [declared[i]];
    }
    assert declared[..|declared|] == declared;
    for i := 0 to |failed|
      invariant snn == Elements(declared) - Elements(failed[..i])
    {
      snn := snn - {failed[i]};
      assert failed[..i + 1] == failed[..i] + [failed[i]];
    }
    assert failed[..|failed|] == failed;
  }
}
