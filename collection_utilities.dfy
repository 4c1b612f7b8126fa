/** The free functions of CollectionUtilities.java over unmodifiable
    java.util.List snapshots, modelled as Dafny sequences. */
module CollectionUtilities {
  import opened Results
  import opened TailCalls
  import opened Sequences

  /** list(): the empty list. */
  function Empty<T>(): (r: seq<T>)
    ensures |r| == 0
  {
    []
  }

  /** list(t): the one-element list. */
  function Singleton<T>(t: T): (r: seq<T>)
    ensures |r| == 1 && r[0] == t
  {
    [t]
  }

  /** list(ts): a defensive copy with the same elements. */
  function Copy<T>(ts: seq<T>): (r: seq<T>)
    ensures |r| == |ts| && forall i :: 0 <= i < |r| ==> r[i] == ts[i]
  {
    ts
  }

  /** list(t...): a snapshot of the argument array. */
  method ListOf<T>(t: array<T>) returns (r: seq<T>)
    ensures |r| == t.Length && forall i :: 0 <= i < |r| ==> r[i] == t[i]
  {
    r := t[..];
  }

  function Head<T>(list: seq<T>): (r: Result<T>)
    ensures r.Success? <==> list != []
    ensures r.Success? ==> r.value == list[0]
    ensures r.Failure? ==> r.fault == IllegalState("Head of Empty list")
  {
    if list == [] then Failure(IllegalState("Head of Empty list")) else Success(list[0])
  }

  /** A copy of the list without its first element; the argument is a value
      and so stays as it was. */
  function Tail<T>(list: seq<T>): (r: Result<seq<T>>)
    ensures r.Success? <==> list != []
    ensures r.Success? ==> |r.value| == |list| - 1
    ensures r.Success? ==> forall i :: 0 <= i < |r.value| ==> r.value[i] == list[i + 1]
    ensures r.Failure? ==> r.fault == IllegalState("Tail of Empty list")
  {
    if list == [] then Failure(IllegalState("Tail of Empty list")) else Success(list[1..])
  }

  /** A copy of the list with t added at the end. */
  function Append<T>(list: seq<T>, t: T): (r: seq<T>)
    ensures |r| == |list| + 1 && r[|list|] == t
    ensures forall i :: 0 <= i < |list| ==> r[i] == list[i]
  {
    list + [t]
  }

  /** prepend(t, list) = foldLeft(list, list(t), append): rebuilds the whole
      list behind t by repeated appends. */
  function Prepend<T>(t: T, list: seq<T>): (r: seq<T>)
    ensures r == [t] + list
  {
    LeftFoldAppending(list, Singleton(t), Append);
    FoldLeft(list, Singleton(t), Append)
  }

  /** reverse(list) = foldLeft(list, list(), (x, y) -> prepend(y, x)). */
  function Reverse<T>(list: seq<T>): (r: seq<T>)
    ensures r == Reversed(list)
  {
    var prependTo := (x: seq<T>, y: T) => Prepend(y, x);
    LeftFoldPrepending(list, Empty(), prependTo);
    FoldLeft(list, Empty(), prependTo)
  }

  function FoldLeft<T, U>(ts: seq<T>, identity: U, f: (U, T) -> U): (r: U)
    ensures r == LeftFold(ts, identity, f)
  {
    FoldLeftTailRecRuns(ts, identity, f);
    FoldLeftTailRec(ts, identity, f).Run(|ts|)
  }

  /** foldRight as a left-to-right accumulation over reverse(ts). */
  function FoldRight<T, U>(ts: seq<T>, identity: U, f: (T, U) -> U): (r: U)
    ensures r == RightFold(ts, identity, f)
  {
    var reversed := Reverse(ts);
    ReversedLength(ts);
    FoldRightTailRecRuns(identity, reversed, f);
    ReversedInvolutive(ts);
    FoldRightTailRec(identity, reversed, f).Run(|reversed|)
  }

  /** unfold(seed, f, p): seed, f(seed), f(f(seed)), ... up to, and without,
      the first value for which p fails. The ghost k names a number of steps
      after which p fails; the Java code loops forever when there is none. */
  function Unfold<T>(seed: T, f: T -> T, p: T -> bool, ghost k: nat): (r: seq<T>)
    requires !p(Iterate(f, seed, k))
    ensures |r| <= k
    ensures forall i :: 0 <= i < |r| ==> r[i] == Iterate(f, seed, i) && p(r[i])
    ensures !p(Iterate(f, seed, |r|))
  {
    UnfoldTailRecRuns(Empty(), seed, f, p, k);
    UnfoldTailRec(Empty(), seed, f, p, k).Run(k)
  }

  /** range(start, end) = unfold(start, x -> x + 1, x -> x < end). */
  function Range(start: int, end: int): (r: seq<int>)
    ensures |r| == if start < end then end - start else 0
    ensures forall i :: 0 <= i < |r| ==> r[i] == start + i
  {
    var next := (x: int) => x + 1;
    var below := (x: int) => x < end;
    var steps := if start < end then end - start else 0;
    IterateSuccessor(next, start, steps);
    var r := Unfold(start, next, below, steps);
    forall i | 0 <= i <= |r|
      ensures Iterate(next, start, i) == start + i
    {
      IterateSuccessor(next, start, i);
    }
    r
  }

  // The trampolined helpers, one TailCall step per element.

  function FoldLeftTailRec<T, U>(ts: seq<T>, identity: U, f: (U, T) -> U): TailCall<U>
    decreases |ts|
  {
    if ts == [] then Return(identity)
    else Suspend(() => FoldLeftTailRec(Tail(ts).value, f(identity, Head(ts).value), f))
  }

  function FoldRightTailRec<T, U>(acc: U, ts: seq<T>, f: (T, U) -> U): TailCall<U>
    decreases |ts|
  {
    if ts == [] then Return(acc)
    else Suspend(() => FoldRightTailRec(f(Head(ts).value, acc), Tail(ts).value, f))
  }

  function UnfoldTailRec<T>(acc: seq<T>, seed: T, f: T -> T, p: T -> bool, ghost k: nat): TailCall<seq<T>>
    requires !p(Iterate(f, seed, k))
    decreases k
  {
    if p(seed) then Suspend(() => UnfoldTailRec(Append(acc, seed), f(seed), f, p, k - 1))
    else Return(acc)
  }

  lemma {:induction false} FoldLeftTailRecRuns<T, U>(ts: seq<T>, acc: U, f: (U, T) -> U)
    ensures FoldLeftTailRec(ts, acc, f).HaltsWithin(|ts|)
    ensures FoldLeftTailRec(ts, acc, f).Run(|ts|) == LeftFold(ts, acc, f)
    decreases |ts|
  {
    if ts != [] {
      FoldLeftTailRecRuns(ts[1..], f(acc, ts[0]), f);
      assert ts == [ts[0]] + ts[1..];
      LeftFoldCons(ts[0], ts[1..], acc, f);
    }
  }

  /** Accumulating f over ts from the front is the right fold of ts reversed. */
  lemma {:induction false} FoldRightTailRecRuns<T, U>(acc: U, ts: seq<T>, f: (T, U) -> U)
    ensures FoldRightTailRec(acc, ts, f).HaltsWithin(|ts|)
    ensures FoldRightTailRec(acc, ts, f).Run(|ts|) == RightFold(Reversed(ts), acc, f)
    decreases |ts|
  {
    if ts != [] {
      FoldRightTailRecRuns(f(ts[0], acc), ts[1..], f);
      RightFoldSnoc(Reversed(ts[1..]), ts[0], acc, f);
    }
  }

  lemma {:induction false} UnfoldTailRecRuns<T>(acc: seq<T>, seed: T, f: T -> T, p: T -> bool, k: nat)
    requires !p(Iterate(f, seed, k))
    ensures UnfoldTailRec(acc, seed, f, p, k).HaltsWithin(k)
    ensures var r := UnfoldTailRec(acc, seed, f, p, k).Run(k);
      && |acc| <= |r| <= |acc| + k
      && r[..|acc|] == acc
      && (forall i :: |acc| <= i < |r| ==> r[i] == Iterate(f, seed, i - |acc|) && p(r[i]))
      && !p(Iterate(f, seed, |r| - |acc|))
    decreases k
  {
    if p(seed) {
      var acc' := Append(acc, seed);
      UnfoldTailRecRuns(acc', f(seed), f, p, k - 1);
      var r := UnfoldTailRec(acc', f(seed), f, p, k - 1).Run(k - 1);
      assert UnfoldTailRec(acc, seed, f, p, k).Run(k) == r;
      assert r[..|acc|] == r[..|acc'|][..|acc|];
      forall i | |acc| <= i < |r|
        ensures r[i] == Iterate(f, seed, i - |acc|)
      {
        if i == |acc| {
          assert r[i] == r[..|acc'|][i];
        } else {
          assert Iterate(f, seed, i - |acc|) == Iterate(f, f(seed), i - |acc'|);
        }
      }
      assert Iterate(f, seed, |r| - |acc|) == Iterate(f, f(seed), |r| - |acc'|);
    }
  }

  /** Counting up by one from start for k steps reaches start + k. */
  lemma {:induction false} IterateSuccessor(next: int -> int, start: int, k: nat)
    requires forall x :: next(x) == x + 1
    ensures Iterate(next, start, k) == start + k
    decreases k
  {
    if k > 0 {
      IterateSuccessor(next, start + 1, k - 1);
    }
  }

  /** reverse is its own inverse. */
  lemma ReverseInvolutive<T>(xs: seq<T>)
    ensures Reverse(Reverse(xs)) == xs
  {
    ReversedInvolutive(xs);
  }
}
