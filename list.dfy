/** The persistent singly-linked list of List.java. Every operation returns
    a new list (or the same one) and never changes an existing node; the
    operations the Java code trampolines are written the same way here: a
    helper builds a TailCall chain and the public operation runs it. */
module Lists {
  import opened Results
  import opened TailCalls
  import opened Sequences

  datatype List<A> = Nil | Cons(head: A, tail: List<A>)
  {
    /** The elements, from the first to the last. */
    function Elements(): seq<A>
    {
      match this
      case Nil => []
      case Cons(h, t) => [h] + t.Elements()
    }

    predicate IsEmpty()
      ensures IsEmpty() <==> Elements() == []
    {
      Nil?
    }

    function Head(): (r: Result<A>)
      ensures r.Success? <==> Elements() != []
      ensures r.Success? ==> r.value == Elements()[0]
      ensures r.Failure? ==> r.fault == IllegalState("head called on empty list")
    {
      match this
      case Nil => Failure(IllegalState("head called on empty list"))
      case Cons(h, _) => Success(h)
    }

    function Tail(): (r: Result<List<A>>)
      ensures r.Success? <==> Elements() != []
      ensures r.Success? ==> r.value.Elements() == Elements()[1..]
      ensures r.Failure? ==> r.fault == IllegalState("tail called on empty list")
    {
      match this
      case Nil => Failure(IllegalState("tail called on empty list"))
      case Cons(_, t) => Success(t)
    }

    /** cons(elem): a new first node in front of this same list, which is shared. */
    function ConsOnto(elem: A): (r: List<A>)
      ensures r.Elements() == [elem] + Elements()
      ensures r.Head() == Success(elem)
      ensures r.Tail() == Success(this)
    {
      Cons(elem, this)
    }

    /** A new first node in front of the same tail. */
    function SetHead(h: A): (r: Result<List<A>>)
      ensures r.Success? <==> Elements() != []
      ensures r.Success? ==> r.value.Elements() == [h] + Elements()[1..]
      ensures r.Success? ==> r.value.Head() == Success(h) && r.value.Tail() == Tail()
      ensures r.Failure? ==> r.fault == IllegalState("setHead called on empty list")
    {
      match this
      case Nil => Failure(IllegalState("setHead called on empty list"))
      case Cons(_, t) => Success(Cons(h, t))
    }

    /** The list without its first n elements; nothing is dropped for
        n <= 0 and everything for n at least the length. */
    function Drop(n: int): (r: List<A>)
      ensures n <= 0 ==> r == this
      ensures n >= |Elements()| ==> r == Nil
      ensures r.Elements() == Elements()[Clamp(n, |Elements()|)..]
    {
      match this
      case Nil => this
      case Cons(_, _) =>
        if n <= 0 then this
        else
          DropTailRecRuns(this, n);
          DropTailRec(this, n).Run(n)
    }

    /** The list without its longest prefix whose elements all satisfy f. */
    function DropWhile(f: A -> bool): (r: List<A>)
      ensures |r.Elements()| <= |Elements()|
      ensures r.Elements() == Elements()[|Elements()| - |r.Elements()|..]
      ensures forall i :: 0 <= i < |Elements()| - |r.Elements()| ==> f(Elements()[i])
      ensures r.IsEmpty() || !f(r.head)
    {
      match this
      case Nil => this
      case Cons(_, _) =>
        DropWhileTailRecRuns(this, f);
        DropWhileTailRec(this, f).Run(|Elements()|)
    }

    /** f(...f(f(identity, e1), e2)..., en). */
    function FoldLeft<B>(identity: B, f: (B, A) -> B): (r: B)
      ensures r == LeftFold(Elements(), identity, f)
    {
      match this
      case Nil => identity
      case Cons(_, _) =>
        FoldLeftTailRecRuns(this, identity, f);
        FoldLeftTailRec(this, identity, f).Run(|Elements()|)
    }

    function Reverse(): (r: List<A>)
      ensures r.Elements() == Reversed(Elements())
    {
      match this
      case Nil => this
      case Cons(_, _) =>
        ReverseTailRecRuns(Empty(), this);
        ReverseTailRec(Empty(), this).Run(|Elements()|)
    }

    /** All elements but the last, as reverse().tail().reverse(). */
    function Init(): (r: Result<List<A>>)
      ensures r.Success? <==> Elements() != []
      ensures r.Success? ==> r.value.Elements() == Elements()[..|Elements()| - 1]
      ensures |Elements()| == 1 ==> r == Success(Nil)
      ensures r.Failure? ==> r.fault == IllegalState("init called on an empty list")
    {
      match this
      case Nil => Failure(IllegalState("init called on an empty list"))
      case Cons(_, _) =>
        ReversedInit(Elements());
        match Reverse().Tail()
        case Success(t) => Success(t.Reverse())
        case Failure(e) => Failure(e)
    }

    /** The number of elements, counted by a left fold that adds one per element. */
    function Length(): (r: int)
      ensures r == |Elements()|
    {
      match this
      case Nil => 0
      case Cons(_, _) =>
        var count := (x: int, ignore: A) => x + 1;
        LeftFoldCounting(Elements(), 0, count);
        FoldLeft(0, count)
    }

    /** toString: "[e1, e2, ..., en, NIL]". Cons runs the trampolined
        ToStringTailRec from an empty buffer with the eval loop; Nil has
        its own "[NIL]". show renders one element. */
    method ToString(show: A -> string) returns (s: string)
      ensures s == "[" + Rendered(Elements(), show) + "NIL]"
    {
      if IsEmpty() {
        return "[NIL]";
      }
      var tc := ToStringTailRec("", this, show);
      ToStringTailRecRuns("", this, show);
      assert tc.HaltsWithin(|Elements()|);
      var rendered := tc.Eval();
      assert rendered == tc.Run(|Elements()|);
      s := "[" + rendered + "NIL]";
    }
  }

  /** How many leading elements drop(n) removes from a list of length len. */
  function Clamp(n: int, len: nat): nat
  {
    if n <= 0 then 0 else if n < len then n else len
  }

  /** Each element rendered and followed by ", ". */
  function Rendered<A>(s: seq<A>, show: A -> string): string
  {
    if s == [] then "" else show(s[0]) + ", " + Rendered(s[1..], show)
  }

  /** list(): the empty list. */
  function Empty<A>(): (r: List<A>)
    ensures r.IsEmpty() && r.Elements() == []
  {
    Nil
  }

  /** list(a...): cons the arguments from the last to the first, so the list
      holds them in argument order. */
  method ListOf<A>(a: array<A>) returns (r: List<A>)
    ensures r.Elements() == a[..]
  {
    var n := Empty();
    var i := a.Length - 1;
    while i >= 0
      invariant -1 <= i < a.Length
      invariant n.Elements() == a[i + 1..]
      decreases i + 1
    {
      n := Cons(a[i], n);
      i := i - 1;
    }
    r := n;
  }

  /** foldRight by plain, non-trampolined recursion: f(e1, f(e2, ... f(en, n))). */
  function FoldRight<A, B>(list: List<A>, n: B, f: (A, B) -> B): (r: B)
    ensures r == RightFold(list.Elements(), n, f)
    decreases list
  {
    if list.IsEmpty() then n else f(list.head, FoldRight(list.tail, n, f))
  }

  // The trampolined helpers of Cons, each one TailCall step per node.

  function DropTailRec<A>(list: List<A>, acc: nat): TailCall<List<A>>
    decreases acc
  {
    if acc == 0 || list.IsEmpty() then Return(list)
    else Suspend(() => DropTailRec(list.tail, acc - 1))
  }

  function DropWhileTailRec<A>(list: List<A>, f: A -> bool): TailCall<List<A>>
    decreases list
  {
    if !list.IsEmpty() && f(list.head) then Suspend(() => DropWhileTailRec(list.tail, f))
    else Return(list)
  }

  function FoldLeftTailRec<A, B>(list: List<A>, acc: B, f: (B, A) -> B): TailCall<B>
    decreases list
  {
    if list.IsEmpty() then Return(acc)
    else Suspend(() => FoldLeftTailRec(list.tail, f(acc, list.head), f))
  }

  function ReverseTailRec<A>(acc: List<A>, list: List<A>): TailCall<List<A>>
    decreases list
  {
    if list.IsEmpty() then Return(acc)
    else Suspend(() => ReverseTailRec(Cons(list.head, acc), list.tail))
  }

  function ToStringTailRec<A>(acc: string, list: List<A>, show: A -> string): TailCall<string>
    decreases list
  {
    if list.IsEmpty() then Return(acc)
    else Suspend(() => ToStringTailRec(acc + show(list.head) + ", ", list.tail, show))
  }

  /** A list is determined by its elements. */
  lemma {:induction false} ElementsInjective<A>(xs: List<A>, ys: List<A>)
    requires xs.Elements() == ys.Elements()
    ensures xs == ys
  {
    match xs
    case Nil =>
    case Cons(h, t) =>
      assert ys.Cons?;
      assert t.Elements() == xs.Elements()[1..];
      ElementsInjective(t, ys.tail);
  }

  lemma {:induction false} DropTailRecRuns<A>(list: List<A>, acc: nat)
    ensures DropTailRec(list, acc).HaltsWithin(acc)
    ensures DropTailRec(list, acc).Run(acc).Elements() == list.Elements()[Clamp(acc, |list.Elements()|)..]
    ensures acc >= |list.Elements()| ==> DropTailRec(list, acc).Run(acc) == Nil
    decreases acc
  {
    if acc != 0 && !list.IsEmpty() {
      DropTailRecRuns(list.tail, acc - 1);
    }
  }

  lemma {:induction false} DropWhileTailRecRuns<A>(list: List<A>, f: A -> bool)
    ensures DropWhileTailRec(list, f).HaltsWithin(|list.Elements()|)
    ensures var r := DropWhileTailRec(list, f).Run(|list.Elements()|);
      && |r.Elements()| <= |list.Elements()|
      && r.Elements() == list.Elements()[|list.Elements()| - |r.Elements()|..]
      && (forall i :: 0 <= i < |list.Elements()| - |r.Elements()| ==> f(list.Elements()[i]))
      && (r.IsEmpty() || !f(r.head))
    decreases list
  {
    if !list.IsEmpty() && f(list.head) {
      var t := list.tail;
      DropWhileTailRecRuns(t, f);
      var r := DropWhileTailRec(t, f).Run(|t.Elements()|);
      assert DropWhileTailRec(list, f).Run(|list.Elements()|) == r;
      assert list.Elements() == [list.head] + t.Elements();
    }
  }

  lemma {:induction false} FoldLeftTailRecRuns<A, B>(list: List<A>, acc: B, f: (B, A) -> B)
    ensures FoldLeftTailRec(list, acc, f).HaltsWithin(|list.Elements()|)
    ensures FoldLeftTailRec(list, acc, f).Run(|list.Elements()|) == LeftFold(list.Elements(), acc, f)
    decreases list
  {
    if !list.IsEmpty() {
      FoldLeftTailRecRuns(list.tail, f(acc, list.head), f);
      LeftFoldCons(list.head, list.tail.Elements(), acc, f);
    }
  }

  lemma {:induction false} ReverseTailRecRuns<A>(acc: List<A>, list: List<A>)
    ensures ReverseTailRec(acc, list).HaltsWithin(|list.Elements()|)
    ensures ReverseTailRec(acc, list).Run(|list.Elements()|).Elements()
         == Reversed(list.Elements()) + acc.Elements()
    decreases list
  {
    if !list.IsEmpty() {
      ReverseTailRecRuns(Cons(list.head, acc), list.tail);
      assert list.Elements()[1..] == list.tail.Elements();
    }
  }

  lemma {:induction false} ToStringTailRecRuns<A>(acc: string, list: List<A>, show: A -> string)
    ensures ToStringTailRec(acc, list, show).HaltsWithin(|list.Elements()|)
    ensures ToStringTailRec(acc, list, show).Run(|list.Elements()|) == acc + Rendered(list.Elements(), show)
    decreases list
  {
    if !list.IsEmpty() {
      ToStringTailRecRuns(acc + show(list.head) + ", ", list.tail, show);
      assert list.Elements()[1..] == list.tail.Elements();
    }
  }

  /** Reversing a list twice gives the same list back. */
  lemma ReverseInvolutive<A>(xs: List<A>)
    ensures xs.Reverse().Reverse() == xs
  {
    ReversedInvolutive(xs.Elements());
    ElementsInjective(xs.Reverse().Reverse(), xs);
  }

  /** With integer addition, foldLeft from 0 and foldRight from 0 agree. */
  lemma FoldsAgreeOnSum(xs: List<int>, plus: (int, int) -> int)
    requires forall a, b :: plus(a, b) == a + b
    ensures xs.FoldLeft(0, plus) == FoldRight(xs, 0, plus)
  {
    LeftFoldRightFoldSum(xs.Elements(), 0, plus);
  }
}
