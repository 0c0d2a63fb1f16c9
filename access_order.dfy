/** The access-order sequence of a strict LRU policy: the head is the least
    recently used entry, the tail the most recently used one. */
module AccessOrder {

  /** Entries are referred to by their handle in the node arena. */
  type Id = nat

  /** No element occurs twice. */
  predicate Distinct(s: seq<Id>)
  {
    forall i, j :: 0 <= i < j < |s| ==> s[i] != s[j]
  }

  lemma DistinctPrepend(x: Id, t: seq<Id>)
    requires x !in t && Distinct(t)
    ensures Distinct([x] + t)
  {
    forall i, j | 0 <= i < j < |[x] + t| ensures ([x] + t)[i] != ([x] + t)[j] {
      if i > 0 {
        assert ([x] + t)[i] == t[i - 1] && ([x] + t)[j] == t[j - 1];
      }
    }
  }

  lemma DistinctTail(s: seq<Id>)
    requires Distinct(s) && s != []
    ensures Distinct(s[1..]) && s[0] !in s[1..]
  {
  }

  /** The elements of `s` that are not in `xs`, in their order in `s`. */
  function Minus(s: seq<Id>, xs: seq<Id>): (r: seq<Id>)
    ensures forall y :: y in r <==> y in s && y !in xs
    ensures |r| <= |s|
    ensures Distinct(s) ==> Distinct(r)
  {
    if s == [] then []
    else
      var t := Minus(s[1..], xs);
      if s[0] in xs then t
      else if Distinct(s) then DistinctTail(s); DistinctPrepend(s[0], t); [s[0]] + t
      else [s[0]] + t
  }

  /** `s` with `x` unlinked; every other element keeps its place in the order. */
  function Without(s: seq<Id>, x: Id): (r: seq<Id>)
    ensures forall y :: y in r <==> y in s && y != x
    ensures Distinct(s) ==> Distinct(r)
    ensures x !in s ==> r == s
    ensures Distinct(s) && x in s ==> |r| == |s| - 1
  {
    if s == [] then []
    else if s[0] == x then Without(s[1..], x)
    else
      var t := Without(s[1..], x);
      if Distinct(s) then DistinctTail(s); DistinctPrepend(s[0], t); [s[0]] + t
      else [s[0]] + t
  }

  /** An access moves `x` to the tail; an element that is not linked is ignored. */
  function MoveToTail(s: seq<Id>, x: Id): (r: seq<Id>)
    ensures forall y :: y in r <==> y in s
    ensures Distinct(s) ==> Distinct(r) && |r| == |s|
    ensures x in s ==> r[|r| - 1] == x
    ensures x !in s ==> r == s
  {
    if x in s then Without(s, x) + [x] else s
  }

  /** Replays the access events `xs`, oldest first. */
  function ApplyAccesses(s: seq<Id>, xs: seq<Id>): (r: seq<Id>)
    ensures forall y :: y in r <==> y in s
    ensures Distinct(s) ==> Distinct(r) && |r| == |s|
    decreases |xs|
  {
    if xs == [] then s else ApplyAccesses(MoveToTail(s, xs[0]), xs[1..])
  }

  /** Replaying one more event after `xs` is one more access. */
  lemma {:induction false} ApplyAccessesAppend(s: seq<Id>, xs: seq<Id>, x: Id)
    ensures ApplyAccesses(s, xs + [x]) == MoveToTail(ApplyAccesses(s, xs), x)
    decreases |xs|
  {
    if xs == [] {
      assert ([] + [x])[1..] == [];
    } else {
      assert (xs + [x])[1..] == xs[1..] + [x];
      ApplyAccessesAppend(MoveToTail(s, xs[0]), xs[1..], x);
    }
  }

  lemma {:induction false} WithoutIsMinus(s: seq<Id>, x: Id)
    ensures Without(s, x) == Minus(s, [x])
  {
    if s != [] {
      WithoutIsMinus(s[1..], x);
    }
  }

  lemma {:induction false} MinusConcat(a: seq<Id>, b: seq<Id>, xs: seq<Id>)
    ensures Minus(a + b, xs) == Minus(a, xs) + Minus(b, xs)
  {
    if a == [] {
      assert a + b == b;
    } else {
      assert (a + b)[1..] == a[1..] + b;
      MinusConcat(a[1..], b, xs);
    }
  }

  lemma {:induction false} MinusMinus(s: seq<Id>, a: seq<Id>, b: seq<Id>)
    ensures Minus(Minus(s, a), b) == Minus(s, a + b)
  {
    if s != [] {
      MinusMinus(s[1..], a, b);
      var h := if s[0] in a then [] else [s[0]];
      MinusConcat(h, Minus(s[1..], a), b);
    }
  }

  lemma {:induction false} MinusNothing(s: seq<Id>)
    ensures Minus(s, []) == s
  {
    if s != [] {
      MinusNothing(s[1..]);
    }
  }

  lemma MinusAppendAbsent(front: seq<Id>, x: Id, rest: seq<Id>)
    requires x !in rest
    ensures Minus(front + [x], rest) == Minus(front, rest) + [x]
  {
    MinusConcat(front, [x], rest);
    assert Minus([x], rest) == [x] by {
      assert Minus([x][1..], rest) == [];
    }
  }

  lemma ReorderStep(s: seq<Id>, x: Id, rest: seq<Id>)
    requires x !in rest
    ensures Minus(Without(s, x) + [x], rest) + rest == Minus(s, [x] + rest) + ([x] + rest)
  {
    var front := Without(s, x);
    var m := Minus(s, [x] + rest);
    assert (m + [x]) + rest == m + ([x] + rest);
    MinusAppendAbsent(front, x, rest);
    WithoutIsMinus(s, x);
    MinusMinus(s, [x], rest);
    assert Minus(front, rest) == m;
  }

  /** Touching a set of distinct linked entries moves exactly those entries to
      the tail, in the order they were touched; the untouched ones keep their
      relative order at the head. */
  lemma {:induction false} AccessesReorder(s: seq<Id>, xs: seq<Id>)
    requires Distinct(xs)
    requires forall x :: x in xs ==> x in s
    ensures ApplyAccesses(s, xs) == Minus(s, xs) + xs
    decreases |xs|
  {
    if xs == [] {
      MinusNothing(s);
    } else {
      var x, rest := xs[0], xs[1..];
      var s1 := MoveToTail(s, x);
      FirstAccess(s, xs);
      AccessesReorder(s1, rest);
      ReorderStep(s, x, rest);
      assert [x] + rest == xs;
    }
  }

  /** Replaying distinct linked accesses is the first access, then the rest,
      whose entries are still linked and distinct. */
  lemma FirstAccess(s: seq<Id>, xs: seq<Id>)
    requires Distinct(xs) && xs != []
    requires forall x :: x in xs ==> x in s
    ensures MoveToTail(s, xs[0]) == Without(s, xs[0]) + [xs[0]]
    ensures ApplyAccesses(s, xs) == ApplyAccesses(MoveToTail(s, xs[0]), xs[1..])
    ensures Distinct(xs[1..]) && xs[0] !in xs[1..]
    ensures forall y :: y in xs[1..] ==> y in MoveToTail(s, xs[0])
  {
    var x, rest := xs[0], xs[1..];
    var s1 := MoveToTail(s, x);
    assert s1 == Without(s, x) + [x];
    forall y | y in rest ensures y in s1 {
      assert y in s && y != x;
    }
    DistinctTail(xs);
  }

  /** One access to the head of an order of two or more entries: the head
      becomes the tail and the second entry becomes the head. */
  lemma MoveHeadToTail(s: seq<Id>)
    requires Distinct(s) && |s| >= 2
    ensures MoveToTail(s, s[0]) == s[1..] + [s[0]]
    ensures MoveToTail(s, s[0])[0] == s[1] != s[0]
  {
    assert s[0] !in s[1..];
    assert Without(s[1..], s[0]) == s[1..];
  }

  lemma {:induction false} MinusDisjoint(s: seq<Id>, xs: seq<Id>)
    requires forall y :: y in s ==> y !in xs
    ensures Minus(s, xs) == s
  {
    if s != [] {
      MinusDisjoint(s[1..], xs);
    }
  }

  /** A prefix and the rest of a sequence without repetitions share nothing. */
  lemma PrefixDisjoint(s: seq<Id>, k: nat)
    requires Distinct(s) && k <= |s|
    ensures Distinct(s[..k]) && forall y :: y in s[k..] ==> y !in s[..k]
  {
  }

  /** Touching the first entries of the order, in order, moves exactly that
      prefix to the tail. */
  lemma AccessPrefix(s: seq<Id>, xs: seq<Id>)
    requires Distinct(s) && |xs| <= |s| && s[..|xs|] == xs
    ensures ApplyAccesses(s, xs) == s[|xs|..] + xs
  {
    var rest := s[|xs|..];
    PrefixDisjoint(s, |xs|);
    assert s == xs + rest;
    AccessesReorder(s, xs);
    MinusConcat(xs, rest, xs);
    MinusDisjoint(rest, xs);
    var m := Minus(xs, xs);
    assert Minus(s, xs) == m + rest == rest;
  }
}
