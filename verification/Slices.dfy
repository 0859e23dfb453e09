/** pkg/slices/slices.go. */
module Slices {

  ghost predicate Distinct<T>(s: seq<T>) {
    forall i, j :: 0 <= i < j < |s| ==> s[i] != s[j]
  }

  ghost function Elements<T>(s: seq<T>): (r: set<T>) {
    set x | x in s
  }

  /** Set difference as a list: every element of `o` that is not in `s`, once each, in no particular
      order (the order in which the keys of the intermediate map are visited). */
  method Subtract<T(==)>(o: seq<T>, s: seq<T>) returns (rs: seq<T>)
    ensures Elements(rs) == Elements(o) - Elements(s)
    ensures Distinct(rs)
  {
    var m: set<T> := {};
    for i := 0 to |o|
      invariant m == Elements(o[..i])
    {
      m := m + {o[i]};
      assert o[..i + 1] == o[..i] + [o[i]];
    }
    assert o[..|o|] == o;
    for i := 0 to |s|
      invariant m == Elements(o) - Elements(s[..i])
    {
      m := m - {s[i]};
      assert s[..i + 1] == s[..i] + [s[i]];
    }
    assert s[..|s|] == s;
    rs := [];
    ghost var all := m;
    while m != {}
      invariant Elements(rs) + m == all && Elements(rs) !! m
      invariant Distinct(rs)
      decreases m
    {
      var k :| k in m;
      rs := rs + [k];
      m := m - {k};
    }
  }

  /** One more thing was tried, and it is missed only if that failed. */
  lemma OneMoreTried<T>(before: set<T>, now: set<T>, x: T, done: bool)
    requires now <= before + {x} && (done ==> x !in now)
    ensures |now| <= |before| + if done then 0 else 1
  {
    SubsetIsSmaller(now, before + {x});
    if done {
      SubsetIsSmaller(now, before);
    }
  }

  lemma SubsetIsSmaller<T>(a: set<T>, b: set<T>)
    requires a <= b
    ensures |a| <= |b|
  {
    assert b == a + (b - a);
  }
}
