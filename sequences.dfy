/** Reference definitions on plain sequences, written in the most direct
    recursive form. The trampolined operations are proved equal to these. */
module Sequences {

  /** f(...f(f(z, s[0]), s[1])..., s[|s| - 1]): recursion on the last element. */
  function LeftFold<T, U>(s: seq<T>, z: U, f: (U, T) -> U): U
  {
    if s == [] then z else f(LeftFold(s[..|s| - 1], z, f), s[|s| - 1])
  }

  /** f(s[0], f(s[1], ... f(s[|s| - 1], z))): recursion on the first element. */
  function RightFold<T, U>(s: seq<T>, z: U, f: (T, U) -> U): U
  {
    if s == [] then z else f(s[0], RightFold(s[1..], z, f))
  }

  function Reversed<T>(s: seq<T>): seq<T>
  {
    if s == [] then [] else Reversed(s[1..]) + [s[0]]
  }

  /** The value reached after k applications of f to x. */
  function Iterate<T>(f: T -> T, x: T, k: nat): T
  {
    if k == 0 then x else Iterate(f, f(x), k - 1)
  }

  lemma {:induction false} ReversedAt<T>(s: seq<T>, k: nat)
    requires k < |s|
    ensures |Reversed(s)| == |s| && Reversed(s)[k] == s[|s| - 1 - k]
  {
    ReversedLength(s[1..]);
    if k < |s| - 1 {
      ReversedAt(s[1..], k);
    }
  }

  lemma {:induction false} ReversedLength<T>(s: seq<T>)
    ensures |Reversed(s)| == |s|
  {
    if s != [] {
      ReversedLength(s[1..]);
    }
  }

  /** Reversing a sequence twice gives the sequence back. */
  lemma ReversedInvolutive<T>(s: seq<T>)
    ensures Reversed(Reversed(s)) == s
  {
    ReversedLength(s);
    ReversedLength(Reversed(s));
    forall k | 0 <= k < |s|
      ensures Reversed(Reversed(s))[k] == s[k]
    {
      ReversedAt(Reversed(s), k);
      ReversedAt(s, |s| - 1 - k);
    }
  }

  /** Reversing s + [x] puts x first. */
  lemma {:induction false} ReversedSnoc<T>(s: seq<T>, x: T)
    ensures Reversed(s + [x]) == [x] + Reversed(s)
  {
    if s == [] {
      assert [x][1..] == [];
    } else {
      assert (s + [x])[1..] == s[1..] + [x];
      ReversedSnoc(s[1..], x);
    }
  }

  /** Taking the first element into the accumulator: the step a
      tail-recursive left fold performs. */
  lemma {:induction false} LeftFoldCons<T, U>(x: T, s: seq<T>, z: U, f: (U, T) -> U)
    ensures LeftFold([x] + s, z, f) == LeftFold(s, f(z, x), f)
    decreases |s|
  {
    if s != [] {
      var init := s[..|s| - 1];
      assert ([x] + s)[..|s|] == [x] + init;
      assert ([x] + s)[|s|] == s[|s| - 1];
      LeftFoldCons(x, init, z, f);
    } else {
      assert ([x] + s)[..0] == [];
    }
  }

  /** Taking the last element into the seed: the step a tail-recursive
      fold over a reversed sequence performs. */
  lemma {:induction false} RightFoldSnoc<T, U>(s: seq<T>, x: T, z: U, f: (T, U) -> U)
    ensures RightFold(s + [x], z, f) == RightFold(s, f(x, z), f)
  {
    if s == [] {
      assert [x][1..] == [];
    } else {
      assert (s + [x])[1..] == s[1..] + [x];
      RightFoldSnoc(s[1..], x, z, f);
    }
  }

  /** A left fold whose step prepends the element rebuilds the sequence
      reversed in front of the seed. */
  lemma {:induction false} LeftFoldPrepending<T>(s: seq<T>, z: seq<T>, g: (seq<T>, T) -> seq<T>)
    requires forall acc, y :: g(acc, y) == [y] + acc
    ensures LeftFold(s, z, g) == Reversed(s) + z
    decreases |s|
  {
    if s != [] {
      var init, last := s[..|s| - 1], s[|s| - 1];
      assert s == init + [last];
      LeftFoldPrepending(init, z, g);
      ReversedSnoc(init, last);
      PrependingAt(g, LeftFold(init, z, g), last);
    }
  }

  /** One instance of a prepending step; the solver does not always find
      this instance of the quantifier by itself. */
  lemma PrependingAt<T>(g: (seq<T>, T) -> seq<T>, acc: seq<T>, y: T)
    requires forall acc, y :: g(acc, y) == [y] + acc
    ensures g(acc, y) == [y] + acc
  {
  }

  /** A left fold whose step appends the element rebuilds the sequence
      behind the seed. */
  lemma {:induction false} LeftFoldAppending<T>(s: seq<T>, z: seq<T>, g: (seq<T>, T) -> seq<T>)
    requires forall acc, y :: g(acc, y) == acc + [y]
    ensures LeftFold(s, z, g) == z + s
    decreases |s|
  {
    if s != [] {
      var init := s[..|s| - 1];
      assert s == init + [s[|s| - 1]];
      LeftFoldAppending(init, z, g);
    }
  }

  /** A left fold whose step ignores the element and adds one counts. */
  lemma {:induction false} LeftFoldCounting<T>(s: seq<T>, z: int, g: (int, T) -> int)
    requires forall acc, y :: g(acc, y) == acc + 1
    ensures LeftFold(s, z, g) == z + |s|
    decreases |s|
  {
    if s != [] {
      LeftFoldCounting(s[..|s| - 1], z, g);
    }
  }

  /** With integer addition the left fold from z is z plus the right fold from 0. */
  lemma {:induction false} LeftFoldRightFoldSum(s: seq<int>, z: int, plus: (int, int) -> int)
    requires forall a, b :: plus(a, b) == a + b
    ensures LeftFold(s, z, plus) == z + RightFold(s, 0, plus)
    decreases |s|
  {
    if s != [] {
      var init, last := s[..|s| - 1], s[|s| - 1];
      assert s == init + [last];
      LeftFoldRightFoldSum(init, z, plus);
      RightFoldSnoc(init, last, 0, plus);
      RightFoldShift(init, last, plus);
    }
  }

  /** With integer addition the seed of a right fold can be pulled out. */
  lemma {:induction false} RightFoldShift(s: seq<int>, z: int, plus: (int, int) -> int)
    requires forall a, b :: plus(a, b) == a + b
    ensures RightFold(s, z, plus) == RightFold(s, 0, plus) + z
  {
    if s != [] {
      RightFoldShift(s[1..], z, plus);
    }
  }

  /** Dropping the first element of the reversal and reversing back drops
      the last element. */
  lemma ReversedInit<T>(s: seq<T>)
    requires s != []
    ensures Reversed(Reversed(s)[1..]) == s[..|s| - 1]
  {
    var init, last := s[..|s| - 1], s[|s| - 1];
    assert s == init + [last];
    ReversedSnoc(init, last);
    assert Reversed(s)[1..] == Reversed(init);
    ReversedInvolutive(init);
  }
}
