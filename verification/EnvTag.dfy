/** Environment constraints (pkg/envtag/envtag.go). A constraint is either the name of an environment
    or a name preceded by `!`, which forbids that environment. */
module EnvTag {

  datatype MatchResult = Matched | Unmatched | Forbidden

  predicate IsNegative(constraint: string) {
    |constraint| > 0 && constraint[0] == '!'
  }

  /** The verdict of one constraint. */
  function MatchOne(environment: string, constraint: string): MatchResult {
    if IsNegative(constraint) then
      if environment == constraint[1..] then Forbidden else Matched
    else if environment == constraint then Matched
    else Unmatched
  }

  /** What a list of constraints means, whatever the order it is written in: no constraint at all, or
      nobody forbids the environment and somebody names it or excludes another one. */
  predicate Admits(environment: string, constraints: seq<string>) {
    || constraints == []
    || ("!" + environment !in constraints && SomeoneAccepts(environment, constraints))
  }

  predicate SomeoneAccepts(environment: string, constraints: seq<string>) {
    exists c :: c in constraints && (c == environment || IsNegative(c))
  }

  /** The loop with its early return decides exactly the order-independent condition. */
  method Match(environment: string, constraints: seq<string>) returns (v: bool)
    ensures v == Admits(environment, constraints)
    ensures v <==>
      || |constraints| == 0
      || (&& (forall c :: c in constraints ==> c != "!" + environment)
          && exists c :: c in constraints && (c == environment || (|c| > 0 && c[0] == '!')))
  {
    if |constraints| == 0 {
      return true;
    }
    v := false;
    for i := 0 to |constraints|
      invariant "!" + environment !in constraints[..i]
      invariant v == SomeoneAccepts(environment, constraints[..i])
    {
      var m := constraints[i];
      assert constraints[..i + 1] == constraints[..i] + [m];
      assert SomeoneAccepts(environment, constraints[..i + 1])
          == (SomeoneAccepts(environment, constraints[..i]) || m == environment || IsNegative(m)) by {
        assert m in constraints[..i + 1];
        assert forall c :: c in constraints[..i + 1] <==> c in constraints[..i] || c == m;
      }
      assert IsNegative(m) ==> m == "!" + m[1..];
      match MatchOne(environment, m) {
        case Matched => v := true;
        case Forbidden => return false;
        case Unmatched =>
      }
    }
    assert constraints[..|constraints|] == constraints;
  }

  /** Reordering or repeating constraints never changes the verdict. */
  lemma AdmitsIgnoresOrder(environment: string, xs: seq<string>, ys: seq<string>)
    requires forall c :: c in xs <==> c in ys
    ensures Admits(environment, xs) == Admits(environment, ys)
  {
    assert |xs| > 0 ==> xs[0] in ys;
    assert |ys| > 0 ==> ys[0] in xs;
  }
}
