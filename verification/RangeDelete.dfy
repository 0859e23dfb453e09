/** The loop `for i, x := range s { if p(x) { s = append(s[:i], s[i+1:]...) } }`, which deletes from the
    slice it ranges over (controllers/agents/app/servicebinding_controller.go, three times). The range visits
    the positions of the original slice, but the elements behind a deleted one have moved in the shared
    backing array by then. */
module RangeDelete {
  import opened Wrappers

  /** What stays: after a deletion, the next element is never looked at. */
  function Survivors<T>(s: seq<T>, p: T -> bool): seq<T> {
    if s == [] then []
    else if !p(s[0]) then [s[0]] + Survivors(s[1..], p)
    else if |s| == 1 then []
    else [s[1]] + Survivors(s[2..], p)
  }

  /** The last element matches and another one does too: the copies of the last element that deletions leave
      behind the end of the slice make the loop slice out of bounds. */
  ghost predicate OutOfBounds<T>(s: seq<T>, p: T -> bool) {
    |s| > 0 && p(s[|s| - 1]) && exists j :: 0 <= j < |s| - 1 && p(s[j])
  }

  /** The backing array `cur` before position `i`, with `len` elements left of the original `s`: the elements
      not yet visited are where deletions moved them, and behind the end are copies of the last element. */
  ghost predicate Visited<T>(cur: seq<T>, s: seq<T>, p: T -> bool, i: nat, len: nat) {
    && len <= |s| == |cur| && i <= |s|
    && (i <= len ==> cur[i..len] == s[i + |s| - len..])
    && (i <= len ==> cur[..i] + Survivors(s[i + |s| - len..], p) == Survivors(s, p))
    && (i > len ==> cur[..len] == Survivors(s, p))
    && (forall j :: len <= j < |s| ==> cur[j] == s[|s| - 1])
  }

  /** Which elements are known to match at that point. */
  ghost predicate Matched<T>(s: seq<T>, p: T -> bool, i: nat, len: nat) {
    && len <= |s| && i <= |s|
    && (len == |s| ==> forall j :: 0 <= j < i ==> !p(s[j]))
    && (len < |s| ==> (exists j :: 0 <= j < |s| - 1 && p(s[j])) || (i == |s| && len == |s| - 1))
    && (i == len + 1 == |s| ==> !p(s[|s| - 1]) || forall j :: 0 <= j < |s| - 1 ==> !p(s[j]))
    && (i > len + 1 ==> !p(s[|s| - 1]))
  }

  lemma VisitKeeps<T>(cur: seq<T>, s: seq<T>, p: T -> bool, i: nat, len: nat)
    requires Visited(cur, s, p, i, len) && i < |s| && !p(cur[i])
    ensures Visited(cur, s, p, i + 1, len)
  {
  }

  lemma VisitDeletes<T>(cur: seq<T>, s: seq<T>, p: T -> bool, i: nat, len: nat, next: seq<T>)
    requires Visited(cur, s, p, i, len) && i < len && p(cur[i])
    requires next == cur[..i] + cur[i + 1..len] + cur[len - 1..]
    ensures Visited(next, s, p, i + 1, len - 1)
  {
  }

  /** The element seen at position `i`: not yet moved out of the slice, or a copy of the last one. */
  lemma SeenAt<T>(cur: seq<T>, s: seq<T>, p: T -> bool, i: nat, len: nat)
    requires Visited(cur, s, p, i, len) && i < |s|
    ensures cur[i] == if i < len then s[i + |s| - len] else s[|s| - 1]
  {
  }

  lemma MatchKeeps<T>(s: seq<T>, p: T -> bool, i: nat, len: nat)
    requires Matched(s, p, i, len) && i < |s|
    requires !p(if i < len then s[i + |s| - len] else s[|s| - 1])
    ensures Matched(s, p, i + 1, len)
  {
  }

  lemma MatchDeletes<T>(s: seq<T>, p: T -> bool, i: nat, len: nat)
    requires Matched(s, p, i, len) && i < len && p(s[i + |s| - len])
    ensures Matched(s, p, i + 1, len - 1)
  {
  }

  lemma PanicOnlyOutOfBounds<T>(s: seq<T>, p: T -> bool, i: nat, len: nat)
    requires Matched(s, p, i, len) && len <= i < |s| && p(s[|s| - 1])
    ensures OutOfBounds(s, p)
  {
  }

  lemma EndsInBounds<T>(s: seq<T>, p: T -> bool, len: nat)
    requires Matched(s, p, |s|, len)
    ensures !OutOfBounds(s, p)
  {
  }

  lemma EndOfRange<T>(cur: seq<T>, s: seq<T>, p: T -> bool, len: nat)
    requires Visited(cur, s, p, |s|, len)
    ensures cur[..len] == Survivors(s, p)
  {
  }

  /** `append(s[:i], s[i+1:]...)` in the backing array of a slice of `len` elements. */
  function Removed<T>(cur: seq<T>, i: nat, len: nat): seq<T>
    requires i < len <= |cur|
  {
    cur[..i] + cur[i + 1..len] + cur[len - 1..]
  }

  /** The loop from position `i` on: the remaining slice, or `None` for a slice bounds panic. */
  function Loop<T>(cur: seq<T>, p: T -> bool, i: nat, len: nat): Option<seq<T>>
    requires i <= |cur| && len <= |cur|
    decreases |cur| - i
  {
    if i == |cur| then Some(cur[..len])
    else if !p(cur[i]) then Loop(cur, p, i + 1, len)
    else if i + 1 > len then None
    else Loop(Removed(cur, i, len), p, i + 1, len - 1)
  }

  ghost predicate Known<T>(cur: seq<T>, s: seq<T>, p: T -> bool, i: nat, len: nat) {
    Visited(cur, s, p, i, len) && Matched(s, p, i, len)
  }

  lemma LoopStep<T>(cur: seq<T>, s: seq<T>, p: T -> bool, i: nat, len: nat) returns (next: seq<T>, len': nat)
    requires Known(cur, s, p, i, len) && i < |s| && !(p(cur[i]) && i + 1 > len)
    ensures Known(next, s, p, i + 1, len') && Loop(cur, p, i, len) == Loop(next, p, i + 1, len')
  {
    SeenAt(cur, s, p, i, len);
    if p(cur[i]) {
      next, len' := Removed(cur, i, len), len - 1;
      MatchDeletes(s, p, i, len);
      VisitDeletes(cur, s, p, i, len, next);
    } else {
      next, len' := cur, len;
      MatchKeeps(s, p, i, len);
      VisitKeeps(cur, s, p, i, len);
    }
  }

  lemma LoopEnd<T>(cur: seq<T>, s: seq<T>, p: T -> bool, i: nat, len: nat)
    requires Known(cur, s, p, i, len) && (i == |s| || (p(cur[i]) && i + 1 > len))
    ensures Loop(cur, p, i, len) == if OutOfBounds(s, p) then None else Some(Survivors(s, p))
  {
    if i == |s| {
      EndsInBounds(s, p, len);
      EndOfRange(cur, s, p, len);
    } else {
      SeenAt(cur, s, p, i, len);
      PanicOnlyOutOfBounds(s, p, i, len);
    }
  }

  lemma {:induction false} LoopFrom<T>(cur: seq<T>, s: seq<T>, p: T -> bool, i: nat, len: nat)
    requires Known(cur, s, p, i, len)
    ensures Loop(cur, p, i, len) == if OutOfBounds(s, p) then None else Some(Survivors(s, p))
    decreases |s| - i
  {
    if i == |s| || (p(cur[i]) && i + 1 > len) {
      LoopEnd(cur, s, p, i, len);
    } else {
      var next, len' := LoopStep(cur, s, p, i, len);
      LoopFrom(next, s, p, i + 1, len');
    }
  }

  lemma LoopIs<T>(s: seq<T>, p: T -> bool)
    ensures Loop(s, p, 0, |s|) == if OutOfBounds(s, p) then None else Some(Survivors(s, p))
  {
    assert s[0 + |s| - |s|..] == s;
    LoopFrom(s, s, p, 0, |s|);
  }

  method RemoveAt<T>(a: array<T>, i: nat, len: nat)
    requires i < len <= a.Length
    modifies a
    ensures a[..] == Removed(old(a[..]), i, len)
  {
    forall j | i <= j < len - 1 {
      a[j] := a[j + 1];
    }
  }

  /** The loop on the backing array `a`. The result is the length of the remaining slice, or `None` for a
      slice bounds panic. */
  method DeleteWhileRanging<T>(a: array<T>, p: T -> bool) returns (r: Option<nat>)
    modifies a
    ensures r.None? <==> OutOfBounds(old(a[..]), p)
    ensures r.Some? ==> r.value <= a.Length && a[..r.value] == Survivors(old(a[..]), p)
  {
    var len: nat := a.Length;
    LoopIs(a[..], p);
    for i := 0 to a.Length
      invariant len <= a.Length
      invariant Loop(a[..], p, i, len) == Loop(old(a[..]), p, 0, a.Length)
    {
      if p(a[i]) {
        if i + 1 > len {
          return None;
        }
        RemoveAt(a, i, len);
        len := len - 1;
      }
    }
    return Some(len);
  }

  function Filter<T>(s: seq<T>, p: T -> bool): seq<T> {
    if s == [] then []
    else if p(s[0]) then Filter(s[1..], p)
    else [s[0]] + Filter(s[1..], p)
  }

  lemma {:induction false} FilterSnoc<T>(s: seq<T>, x: T, p: T -> bool)
    ensures Filter(s + [x], p) == Filter(s, p) + if p(x) then [] else [x]
  {
    if s != [] {
      FilterSnoc(s[1..], x, p);
      assert (s + [x])[1..] == s[1..] + [x];
    }
  }

  /** No two neighbours match. */
  ghost predicate Spaced<T>(s: seq<T>, p: T -> bool) {
    forall i {:trigger s[i]} :: 0 <= i < |s| - 1 && p(s[i]) ==> !p(s[i + 1])
  }

  ghost predicate AtMostOne<T>(s: seq<T>, p: T -> bool) {
    forall i, j :: 0 <= i < j < |s| && p(s[i]) ==> !p(s[j])
  }

  lemma {:induction false} FilterKeepsNone<T>(s: seq<T>, p: T -> bool)
    ensures forall x :: x in Filter(s, p) <==> x in s && !p(x)
  {
    if s != [] {
      FilterKeepsNone(s[1..], p);
      assert s == [s[0]] + s[1..];
    }
  }

  lemma {:induction false} SurvivorsIsFilter<T>(s: seq<T>, p: T -> bool)
    ensures Survivors(s, p) == Filter(s, p) <==> Spaced(s, p)
  {
    if s == [] {
    } else if !p(s[0]) {
      SurvivorsIsFilter(s[1..], p);
      SpacedTail(s, p);
      SameHead(s[0], Survivors(s[1..], p), Filter(s[1..], p));
    } else if |s| > 1 {
      SurvivorsIsFilter(s[2..], p);
      assert s[1..][1..] == s[2..];
      if p(s[1]) {
        FilterKeepsNone(s, p);
        assert s[1] in Survivors(s, p);
      } else {
        SpacedTail(s, p);
        SpacedTail(s[1..], p);
        SameHead(s[1], Survivors(s[2..], p), Filter(s[2..], p));
      }
    }
  }

  lemma SameHead<T>(x: T, a: seq<T>, b: seq<T>)
    ensures [x] + a == [x] + b <==> a == b
  {
    assert ([x] + a)[1..] == a && ([x] + b)[1..] == b;
  }

  lemma SpacedTail<T>(s: seq<T>, p: T -> bool)
    requires |s| > 0
    ensures Spaced(s, p) <==> Spaced(s[1..], p) && (|s| > 1 && p(s[0]) ==> !p(s[1]))
  {
  }

  /** The loop deletes exactly the matching elements, without a panic, if and only if at most one element
      matches, or no two neighbours match and the last element does not. */
  lemma DeletesExactlyMatching<T>(s: seq<T>, p: T -> bool)
    ensures !OutOfBounds(s, p) && Survivors(s, p) == Filter(s, p)
       <==> AtMostOne(s, p) || (Spaced(s, p) && (|s| > 0 ==> !p(s[|s| - 1])))
  {
    SurvivorsIsFilter(s, p);
  }
}
