/** Agents in the namespaces of cluster environments, and the role bindings that authorize them
    (pkg/primaza/controlplane: namespaces_binder.go, namespaces_unbinder.go, namespaces_reconciler.go,
    agents.go). A role binding is created under one name and deleted under another; its labels are how
    primaza remembers where agents are. */
module NamespaceMachine {
  import opened Runs

  datatype Kind = App | Svc
  datatype Part = Deployment | ConfigMap

  /** A namespace of a cluster environment in one of its two roles; also the labels of a role binding. */
  datatype Slot = Slot(ce: string, kind: Kind, ns: string)
  datatype Piece = Piece(part: Part, slot: Slot)

  /** `listed` is what the latest listing of role bindings by label gave. */
  datatype World = World(bindings: map<string, Slot>, pieces: set<Piece>, listed: set<Slot>)

  function RoleTail(k: Kind): string {
    if k.App? then "claimer-" else "reporter-"
  }

  /** The name under which the role binding is created. */
  function BindingName(s: Slot): string {
    "primaza-" + RoleTail(s.kind) + s.ce + "-" + s.ns
  }

  /** The name under which it is deleted. */
  function UnbindName(s: Slot): string {
    "primaza-" + s.ce + "-" + s.ns
  }

  datatype Step =
    | CreateBinding(s: Slot)
    | CreatePiece(p: Piece)
    | ListBindings(ce: string, kind: Kind)
    | DeleteBinding(s: Slot)
    | DeletePiece(p: Piece)

  /** A role binding carries the labels of the slot. */
  predicate Authorized(w: World, s: Slot) {
    exists n :: n in w.bindings && w.bindings[n] == s
  }

  function AuthorizedSlots(w: World, ce: string, kind: Kind): set<Slot> {
    set n | n in w.bindings && w.bindings[n].ce == ce && w.bindings[n].kind == kind :: w.bindings[n]
  }

  /** A letter, digit or dash, as in the names of namespaces. */
  predicate LabelChar(c: char) {
    'a' <= c <= 'z' || '0' <= c <= '9' || c == '-'
  }

  /** A name that the API server admits for a namespace: a DNS label (section 3.5 of RFC 1035, as relaxed by
      section 2.1 of RFC 1123), up to its length. */
  predicate Admissible(ns: string) {
    |ns| > 0 && ns[0] != '-' && ns[|ns| - 1] != '-' && forall i :: 0 <= i < |ns| ==> LabelChar(ns[i])
  }

  /** Agents are pushed once the role binding was created or existed; only what was listed is unbound. */
  predicate Enabled(ces: set<string>, w: World, s: Step) {
    match s
    case CreateBinding(s) => s.ce in ces && Admissible(s.ns)
    case CreatePiece(p) => p.slot.ce in ces && Admissible(p.slot.ns) && BindingName(p.slot) in w.bindings
    case ListBindings(ce, kind) => ce in ces
    case DeleteBinding(s) => s in w.listed
    case DeletePiece(p) => p.slot in w.listed
  }

  function Apply(w: World, s: Step): World {
    match s
    case CreateBinding(s) =>
      if BindingName(s) in w.bindings then w else w.(bindings := w.bindings[BindingName(s) := s])
    case CreatePiece(p) => w.(pieces := w.pieces + {p})
    case ListBindings(ce, kind) => w.(listed := AuthorizedSlots(w, ce, kind))
    case DeleteBinding(s) => w.(bindings := w.bindings - {UnbindName(s)})
    case DeletePiece(p) => w.(pieces := w.pieces - {p})
  }

  predicate Initial(w: World) {
    w == World(map[], {}, {})
  }

  ghost predicate Next(ces: set<string>, w: World, w': World) {
    exists s :: Enabled(ces, w, s) && w' == Apply(w, s)
  }

  ghost function NextFor(ces: set<string>): (World, World) -> bool {
    (w, w') => Next(ces, w, w')
  }

  /** Every agent, whole or in part, is in a namespace that has a role binding with its labels. */
  ghost predicate AgentsAuthorized(w: World) {
    forall p :: p in w.pieces ==> Authorized(w, p.slot)
  }

  // -- names --------------------------------------------------------------------------------------------

  /** The string can stand in front of an admissible name. */
  predicate Fits(z: string) {
    (z != "" ==> z[0] != '-') && forall i :: 0 <= i < |z| ==> LabelChar(z[i])
  }

  /** One string is a prefix of the other, and what is left over fits. */
  predicate Clash(x: string, y: string) {
    (x <= y && Fits(y[|x|..])) || (y <= x && Fits(x[|y|..]))
  }

  /** No name under which something is deleted is one under which something is created, and no two
      environments create the same name, whatever their namespaces are called. */
  ghost predicate Clear(ces: set<string>) {
    && (forall a, b, k: Kind :: a in ces && b in ces ==> !Clash(b + "-", RoleTail(k) + a + "-"))
    && (forall a, b :: a in ces && b in ces && a != b ==> !Clash(a + "-", b + "-"))
  }

  lemma SameTail(head: string, x: string, y: string)
    requires head + x == head + y
    ensures x == y
  {
    assert (head + x)[|head|..] == x && (head + y)[|head|..] == y;
  }

  lemma LongerCompletes(x: string, y: string, m: string, n: string)
    requires x + m == y + n && |x| <= |y| && Admissible(m) && Admissible(n)
    ensures x <= y && Fits(y[|x|..])
  {
    var whole := x + m;
    assert whole[..|x|] == x && whole[..|y|] == y && x == y[..|x|];
    var z := y[|x|..];
    assert m == whole[|x|..] && m == z + n;
    assert forall i :: 0 <= i < |z| ==> z[i] == m[i];
  }

  /** Two strings can be completed to the same one by admissible names if and only if they clash. */
  lemma CompletableExactlyWhen(x: string, y: string)
    ensures (exists m, n :: Admissible(m) && Admissible(n) && x + m == y + n) <==> Clash(x, y)
  {
    if m, n :| Admissible(m) && Admissible(n) && x + m == y + n {
      if |x| <= |y| {
        LongerCompletes(x, y, m, n);
      } else {
        LongerCompletes(y, x, n, m);
      }
    }
    if Clash(x, y) {
      var m, n := Complete(x, y);
    }
  }

  lemma Complete(x: string, y: string) returns (m: string, n: string)
    requires Clash(x, y)
    ensures Admissible(m) && Admissible(n) && x + m == y + n && |m| + |x| == |n| + |y|
  {
    if x <= y && Fits(y[|x|..]) {
      m, n := y[|x|..] + "a", "a";
      assert y == x + y[|x|..];
    } else {
      m, n := "a", x[|y|..] + "a";
      assert x == y + x[|y|..];
    }
  }

  lemma NameParts(s: Slot)
    ensures BindingName(s) == "primaza-" + (RoleTail(s.kind) + s.ce + "-" + s.ns)
    ensures UnbindName(s) == "primaza-" + (s.ce + "-" + s.ns)
  {
  }

  lemma DeletionMisses(ces: set<string>, s: Slot, t: Slot)
    requires Clear(ces) && s.ce in ces && t.ce in ces && Admissible(s.ns) && Admissible(t.ns)
    ensures UnbindName(s) != BindingName(t)
  {
    if UnbindName(s) == BindingName(t) {
      NameParts(s);
      NameParts(t);
      SameTail("primaza-", s.ce + "-" + s.ns, RoleTail(t.kind) + t.ce + "-" + t.ns);
      CompletableExactlyWhen(s.ce + "-", RoleTail(t.kind) + t.ce + "-");
    }
  }

  lemma KindsDiffer(s: Slot, t: Slot)
    requires BindingName(s) == BindingName(t)
    ensures s.kind == t.kind
  {
    NameParts(s);
    NameParts(t);
    SameTail("primaza-", RoleTail(s.kind) + s.ce + "-" + s.ns, RoleTail(t.kind) + t.ce + "-" + t.ns);
    var x := RoleTail(s.kind) + s.ce + "-" + s.ns;
    assert x[0] == RoleTail(s.kind)[0] && x[0] == RoleTail(t.kind)[0];
  }

  lemma SameName(s: Slot, t: Slot)
    requires BindingName(s) == BindingName(t)
    ensures s.kind == t.kind && s.ce + "-" + s.ns == t.ce + "-" + t.ns
  {
    KindsDiffer(s, t);
    NameParts(s);
    NameParts(t);
    var tail := RoleTail(s.kind);
    SameTail("primaza-", tail + s.ce + "-" + s.ns, tail + t.ce + "-" + t.ns);
    assert tail + s.ce + "-" + s.ns == tail + (s.ce + "-" + s.ns);
    assert tail + t.ce + "-" + t.ns == tail + (t.ce + "-" + t.ns);
    SameTail(tail, s.ce + "-" + s.ns, t.ce + "-" + t.ns);
  }

  lemma NamesDiffer(ces: set<string>, s: Slot, t: Slot)
    requires Clear(ces) && s.ce in ces && t.ce in ces && Admissible(s.ns) && Admissible(t.ns)
    requires BindingName(s) == BindingName(t)
    ensures s == t
  {
    SameName(s, t);
    CompletableExactlyWhen(s.ce + "-", t.ce + "-");
    SameTail(s.ce + "-", s.ns, t.ns);
  }

  // -- the invariant ------------------------------------------------------------------------------------

  ghost predicate Inv(ces: set<string>, w: World) {
    && (forall n :: n in w.bindings ==> Real(ces, w.bindings[n]) && n == BindingName(w.bindings[n]))
    && (forall s :: s in w.listed ==> Real(ces, s))
    && (forall p :: p in w.pieces ==> Real(ces, p.slot) && Bound(w, p.slot))
  }

  predicate Real(ces: set<string>, s: Slot) {
    s.ce in ces && Admissible(s.ns)
  }

  /** The slot has its role binding under its name. */
  predicate Bound(w: World, s: Slot) {
    BindingName(s) in w.bindings && w.bindings[BindingName(s)] == s
  }

  lemma BoundIsAuthorized(ces: set<string>, w: World, s: Slot)
    requires Inv(ces, w)
    ensures Bound(w, s) <==> Authorized(w, s)
  {
  }

  lemma KeepBound(ces: set<string>, w: World, s: Step, t: Slot)
    requires Clear(ces) && Inv(ces, w) && Enabled(ces, w, s) && Bound(w, t) && Real(ces, t)
    ensures Bound(Apply(w, s), t)
  {
    if s.DeleteBinding? {
      DeletionMisses(ces, s.s, t);
    }
  }

  lemma StepKeepsInv(ces: set<string>, w: World, s: Step)
    requires Clear(ces) && Inv(ces, w) && Enabled(ces, w, s)
    ensures Inv(ces, Apply(w, s))
  {
    var w' := Apply(w, s);
    forall p | p in w'.pieces ensures Real(ces, p.slot) && Bound(w', p.slot) {
      if s == CreatePiece(p) {
        NamesDiffer(ces, p.slot, w.bindings[BindingName(p.slot)]);
      } else {
        KeepBound(ces, w, s, p.slot);
      }
    }
  }

  lemma InvIsInvariant(ces: set<string>)
    requires Clear(ces)
    ensures Invariant(Initial, NextFor(ces), w => Inv(ces, w))
  {
    forall w, w' | Inv(ces, w) && NextFor(ces)(w, w') ensures Inv(ces, w') {
      var s :| Enabled(ces, w, s) && w' == Apply(w, s);
      StepKeepsInv(ces, w, s);
    }
  }
}
