/** When agents stay authorized, and what happens to those that do not. */
module NamespaceTheorems {
  import opened Runs
  import opened NamespaceMachine

  /** In every run over these environments, every agent has a role binding with its labels. */
  ghost predicate AlwaysAuthorized(ces: set<string>) {
    forall tr: seq<World>, i: nat :: IsRun(Initial, NextFor(ces), tr) && i < |tr| ==> AgentsAuthorized(tr[i])
  }

  lemma ClearIsEnough(ces: set<string>)
    requires Clear(ces)
    ensures AlwaysAuthorized(ces)
  {
    forall tr: seq<World>, i: nat | IsRun(Initial, NextFor(ces), tr) && i < |tr| ensures AgentsAuthorized(tr[i]) {
      InvIsInvariant(ces);
      RunKeeps(Initial, NextFor(ces), w => Inv(ces, w), tr, i);
      forall p | p in tr[i].pieces ensures Authorized(tr[i], p.slot) {
        BoundIsAuthorized(ces, tr[i], p.slot);
      }
    }
  }

  lemma Extend(ces: set<string>, tr: seq<World>, s: Step) returns (tr': seq<World>)
    requires IsRun(Initial, NextFor(ces), tr) && Enabled(ces, tr[|tr| - 1], s)
    ensures IsRun(Initial, NextFor(ces), tr') && |tr'| > 0 && tr'[|tr'| - 1] == Apply(tr[|tr| - 1], s)
  {
    RunGrows(Initial, NextFor(ces), tr, Apply(tr[|tr| - 1], s));
    tr' := tr + [Apply(tr[|tr| - 1], s)];
  }

  lemma Start(ces: set<string>) returns (tr: seq<World>)
    ensures IsRun(Initial, NextFor(ces), tr) && |tr| > 0 && tr[|tr| - 1] == World(map[], {}, {})
  {
    tr := [World(map[], {}, {})];
  }

  /** Two slots that share a name share the role binding of the one that came first. */
  lemma SharedNameRun(ces: set<string>, s: Slot, t: Slot) returns (tr: seq<World>)
    requires Real(ces, s) && Real(ces, t) && s != t && BindingName(s) == BindingName(t)
    ensures IsRun(Initial, NextFor(ces), tr) && |tr| > 0 && !AgentsAuthorized(tr[|tr| - 1])
  {
    tr := Start(ces);
    tr := Extend(ces, tr, CreateBinding(s));
    tr := Extend(ces, tr, CreateBinding(t));
    tr := Extend(ces, tr, CreatePiece(Piece(Deployment, t)));
    assert Piece(Deployment, t) in tr[|tr| - 1].pieces;
  }

  /** Unbinding one slot deletes the role binding of another. */
  lemma DeletedNameRun(ces: set<string>, s: Slot, t: Slot) returns (tr: seq<World>)
    requires Real(ces, s) && Real(ces, t) && BindingName(s) != BindingName(t) && UnbindName(t) == BindingName(s)
    ensures IsRun(Initial, NextFor(ces), tr) && |tr| > 0 && !AgentsAuthorized(tr[|tr| - 1])
  {
    tr := Start(ces);
    tr := Extend(ces, tr, CreateBinding(s));
    tr := Extend(ces, tr, CreatePiece(Piece(Deployment, s)));
    tr := Extend(ces, tr, CreateBinding(t));
    var w := tr[|tr| - 1];
    assert w.bindings[BindingName(t)] == t;
    tr := Extend(ces, tr, ListBindings(t.ce, t.kind));
    tr := Extend(ces, tr, DeleteBinding(t));
    assert Piece(Deployment, s) in tr[|tr| - 1].pieces;
    assert s != t;
  }

  lemma SharedNames(a: string, b: string) returns (s: Slot, t: Slot)
    requires a != b && Clash(a + "-", b + "-")
    ensures Real({a, b}, s) && Real({a, b}, t) && s.ce == a && t.ce == b && BindingName(s) == BindingName(t)
  {
    var m, n := Complete(a + "-", b + "-");
    s, t := Slot(a, App, m), Slot(b, App, n);
    assert BindingName(s) == "primaza-claimer-" + ((a + "-") + m);
    assert BindingName(t) == "primaza-claimer-" + ((b + "-") + n);
  }

  lemma DeletedNames(a: string, b: string, k: Kind) returns (s: Slot, t: Slot)
    requires Clash(b + "-", RoleTail(k) + a + "-")
    ensures Real({a, b}, s) && Real({a, b}, t)
    ensures UnbindName(t) == BindingName(s) && BindingName(s) != BindingName(t)
  {
    var m, n := Complete(b + "-", RoleTail(k) + a + "-");
    s, t := Slot(a, k, n), Slot(b, k, m);
    NameParts(s);
    NameParts(t);
    assert RoleTail(k) + a + "-" + n == (RoleTail(k) + a + "-") + n;
    assert |BindingName(t)| == |UnbindName(t)| + |RoleTail(k)|;
  }

  lemma SharedPrefixRun(ces: set<string>, a: string, b: string) returns (tr: seq<World>)
    requires a in ces && b in ces && a != b && Clash(a + "-", b + "-")
    ensures IsRun(Initial, NextFor(ces), tr) && |tr| > 0 && !AgentsAuthorized(tr[|tr| - 1])
  {
    var s, t := SharedNames(a, b);
    tr := SharedNameRun(ces, s, t);
  }

  lemma DeletedPrefixRun(ces: set<string>, a: string, b: string, k: Kind) returns (tr: seq<World>)
    requires a in ces && b in ces && Clash(b + "-", RoleTail(k) + a + "-")
    ensures IsRun(Initial, NextFor(ces), tr) && |tr| > 0 && !AgentsAuthorized(tr[|tr| - 1])
  {
    var s, t := DeletedNames(a, b, k);
    tr := DeletedNameRun(ces, s, t);
  }

  lemma UnclearBreaks(ces: set<string>) returns (tr: seq<World>)
    requires !Clear(ces)
    ensures IsRun(Initial, NextFor(ces), tr) && |tr| > 0 && !AgentsAuthorized(tr[|tr| - 1])
  {
    if a, b :| a in ces && b in ces && a != b && Clash(a + "-", b + "-") {
      tr := SharedPrefixRun(ces, a, b);
    } else {
      var a, b, k: Kind :| a in ces && b in ces && Clash(b + "-", RoleTail(k) + a + "-");
      tr := DeletedPrefixRun(ces, a, b, k);
    }
  }

  /** Agents stay authorized over every history, whatever fails, if and only if the names of the environments
      do not clash. */
  lemma AuthorizedExactlyWhen(ces: set<string>)
    ensures AlwaysAuthorized(ces) <==> Clear(ces)
  {
    if Clear(ces) {
      ClearIsEnough(ces);
    } else {
      var tr := UnclearBreaks(ces);
    }
  }

  // -- one environment ------------------------------------------------------------------------------------

  function Repeat(x: string, k: nat): string {
    if k == 0 then "" else x + Repeat(x, k - 1)
  }

  lemma {:induction false} RepeatCommutes(r: string, k: nat)
    ensures r + Repeat(r, k) == Repeat(r, k) + r
  {
    if k > 0 {
      RepeatCommutes(r, k - 1);
      assert r + (r + Repeat(r, k - 1)) == r + (Repeat(r, k - 1) + r) == (r + Repeat(r, k - 1)) + r;
    }
  }

  /** A string that ends in a dash, put behind a role's name and dash, has itself as a prefix if and only if
      it is that role's name and dash over and over. */
  lemma {:induction false} PeriodicIsRepeat(r: string, x: string) returns (k: nat)
    requires |r| > 0 && (forall i :: 0 <= i < |r| - 1 ==> r[i] != '-')
    requires x <= r + x && (x != "" ==> x[|x| - 1] == '-')
    ensures x == Repeat(r, k)
    decreases |x|
  {
    if x == "" {
      k := 0;
    } else {
      assert x == (r + x)[..|x|];
      assert x[|x| - 1] == (r + x)[|x| - 1];
      assert |r| <= |x|;
      var y := x[|r|..];
      assert x == r + y by { assert x[..|r|] == (r + x)[..|r|] == r; }
      assert y == (r + x)[|r|..|x|] == x[..|y|];
      assert y <= r + y;
      k := PeriodicIsRepeat(r, y);
      k := k + 1;
    }
  }

  lemma RoleTailShape(k: Kind)
    ensures |RoleTail(k)| > 0 && forall i :: 0 <= i < |RoleTail(k)| - 1 ==> RoleTail(k)[i] != '-'
  {
  }

  ghost predicate IsRepeat(x: string, r: string) {
    exists k: nat :: x == Repeat(r, k)
  }

  lemma TailFits(kind: Kind)
    ensures Fits(RoleTail(kind))
  {
  }

  lemma RepeatClashes(x: string, kind: Kind)
    requires IsRepeat(x, RoleTail(kind))
    ensures Clash(x, RoleTail(kind) + x)
  {
    var r := RoleTail(kind);
    var k: nat :| x == Repeat(r, k);
    RepeatCommutes(r, k);
    TailFits(kind);
    assert (x + r)[..|x|] == x && (x + r)[|x|..] == r;
  }

  lemma ClashRepeats(x: string, kind: Kind)
    requires x != "" && x[|x| - 1] == '-' && Clash(x, RoleTail(kind) + x)
    ensures IsRepeat(x, RoleTail(kind))
  {
    RoleTailShape(kind);
    var k := PeriodicIsRepeat(RoleTail(kind), x);
  }

  /** For one environment the names clash if and only if its name is `claimer`, `claimer-claimer`, and so on, or
      the same with `reporter`. */
  lemma OneEnvironmentClear(ce: string)
    ensures Clear({ce}) <==> !IsRepeat(ce + "-", "claimer-") && !IsRepeat(ce + "-", "reporter-")
  {
    var x := ce + "-";
    forall kind ensures Clash(x, RoleTail(kind) + ce + "-") <==> IsRepeat(x, RoleTail(kind)) {
      assert RoleTail(kind) + ce + "-" == RoleTail(kind) + x;
      if IsRepeat(x, RoleTail(kind)) {
        RepeatClashes(x, kind);
      }
      if Clash(x, RoleTail(kind) + x) {
        ClashRepeats(x, kind);
      }
    }
    assert Clear({ce}) <==> forall kind :: !IsRepeat(x, RoleTail(kind));
    assert RoleTail(App) == "claimer-" && RoleTail(Svc) == "reporter-";
  }

  // -- leaks ----------------------------------------------------------------------------------------------

  /** An agent without a role binding stays, whatever is unbound, as long as its namespace is not bound again. */
  lemma StepKeepsLeak(ces: set<string>, w: World, s: Step, p: Piece)
    requires Enabled(ces, w, s) && p in w.pieces && !Authorized(w, p.slot) && p.slot !in w.listed
    requires s != CreateBinding(p.slot)
    ensures var w' := Apply(w, s); p in w'.pieces && !Authorized(w', p.slot) && p.slot !in w'.listed
  {
  }

  ghost predicate StepWithout(ces: set<string>, slot: Slot, w: World, w': World) {
    exists s :: Enabled(ces, w, s) && s != CreateBinding(slot) && w' == Apply(w, s)
  }

  ghost function NextWithout(ces: set<string>, slot: Slot): (World, World) -> bool {
    (w, w') => StepWithout(ces, slot, w, w')
  }

  lemma {:induction false} LeakStays(ces: set<string>, tr: seq<World>, i: nat, j: nat, p: Piece)
    requires IsRun(w => true, NextWithout(ces, p.slot), tr) && i <= j < |tr|
    requires p in tr[i].pieces && !Authorized(tr[i], p.slot) && p.slot !in tr[i].listed
    ensures p in tr[j].pieces && !Authorized(tr[j], p.slot) && p.slot !in tr[j].listed
  {
    if i < j {
      LeakStays(ces, tr, i, j - 1, p);
      assert StepAt(NextWithout(ces, p.slot), tr, j - 1);
      var s :| Enabled(ces, tr[j - 1], s) && s != CreateBinding(p.slot) && tr[j] == Apply(tr[j - 1], s);
      StepKeepsLeak(ces, tr[j - 1], s, p);
    }
  }
}
