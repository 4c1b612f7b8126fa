/** The expected values of the repository's unit tests, proved from the
    contracts of the model. */
module Examples {
  import opened Results
  import opened TailCalls
  import opened Sequences
  import Lists
  import CollectionUtilities

  /** add(x, y) of TailCallTest: y suspended steps of (x + 1, y - 1). */
  function Add(x: int, y: nat): TailCall<int>
    decreases y
  {
    if y == 0 then Return(x) else Suspend(() => Add(x + 1, y - 1))
  }

  /** The trampoline reaches x + y after exactly y resumes. */
  lemma {:induction false} AddRuns(x: int, y: nat)
    ensures Add(x, y).HaltsWithin(y)
    ensures Add(x, y).Run(y) == x + y
    decreases y
  {
    if y > 0 {
      AddRuns(x + 1, y - 1);
    }
  }

  /** testAdd: add(3, 100000).eval() is 100003, without deep recursion. */
  method EvalAdd() returns (res: int)
    ensures res == 100003
  {
    AddRuns(3, 100000);
    res := Add(3, 100000).Eval();
  }

  function Plus(x: int, y: int): int { x + y }

  function Times(x: int, y: int): int { x * y }

  /** Decimal rendering of an integer, as Java's string concatenation gives it. */
  function DecimalString(i: int): string
    decreases if i < 0 then 1 - i else i
  {
    if i < 0 then "-" + DecimalString(-i)
    else if i < 10 then [Digit(i)]
    else DecimalString(i / 10) + [Digit(i % 10)]
  }

  function Digit(d: int): char
    requires 0 <= d < 10
  {
    "0123456789"[d]
  }

  /** addIS of CollectionUtilitiesTest. */
  function AddIS(i: int, s: string): string
  {
    "(" + DecimalString(i) + " + " + s + ")"
  }

  /** ListTest: list(1, 2, 3, 4, 5) sums to 15, multiplies to 120 and has length 5. */
  method ListFolds() returns (sum: int, product: int, length: int)
    ensures sum == 15 && product == 120 && length == 5
  {
    var a := new int[5][1, 2, 3, 4, 5];
    var xs := Lists.ListOf(a);
    assert xs.Elements() == [1, 2, 3, 4, 5];
    FoldSamples();
    sum := xs.FoldLeft(0, Plus);
    product := xs.FoldLeft(1, Times);
    length := xs.Length();
  }

  lemma FoldSamples()
    ensures LeftFold([1, 2, 3, 4, 5], 0, Plus) == 15
    ensures LeftFold([1, 2, 3, 4, 5], 1, Times) == 120
  {
    var s1, s2, s3, s4, s5 := [1], [1, 2], [1, 2, 3], [1, 2, 3, 4], [1, 2, 3, 4, 5];
    assert s1[..0] == [] && s2[..1] == s1 && s3[..2] == s2 && s4[..3] == s3 && s5[..4] == s4;
    assert LeftFold(s1, 0, Plus) == 1 && LeftFold(s1, 1, Times) == 1;
    assert LeftFold(s2, 0, Plus) == 3 && LeftFold(s2, 1, Times) == 2;
    assert LeftFold(s3, 0, Plus) == 6 && LeftFold(s3, 1, Times) == 6;
    assert LeftFold(s4, 0, Plus) == 10 && LeftFold(s4, 1, Times) == 24;
  }

  /** CollectionUtilitiesTest.foldLeft: the sum of [1..5] from 0 is 15. */
  lemma SeqFoldLeftSum()
    ensures CollectionUtilities.FoldLeft([1, 2, 3, 4, 5], 0, Plus) == 15
  {
    FoldSamples();
  }

  /** CollectionUtilitiesTest.foldRight: the bracketed right fold. */
  lemma SeqFoldRightBrackets()
    ensures CollectionUtilities.FoldRight([1, 2, 3, 4, 5], "0", AddIS)
         == "(1 + (2 + (3 + (4 + (5 + 0)))))"
  {
    BracketsFromOne();
  }

  // The bracketed right fold, one suffix of [1, 2, 3, 4, 5] at a time.

  lemma BracketsFromOne()
    ensures RightFold([1, 2, 3, 4, 5], "0", AddIS) == "(1 + (2 + (3 + (4 + (5 + 0)))))"
  {
    BracketsFromTwo();
    RightFoldStep([1, 2, 3, 4, 5], "(2 + (3 + (4 + (5 + 0))))", "(1 + (2 + (3 + (4 + (5 + 0)))))");
  }

  lemma BracketsFromTwo()
    ensures RightFold([2, 3, 4, 5], "0", AddIS) == "(2 + (3 + (4 + (5 + 0))))"
  {
    BracketsFromThree();
    RightFoldStep([2, 3, 4, 5], "(3 + (4 + (5 + 0)))", "(2 + (3 + (4 + (5 + 0))))");
  }

  lemma BracketsFromThree()
    ensures RightFold([3, 4, 5], "0", AddIS) == "(3 + (4 + (5 + 0)))"
  {
    assert [5][1..] == [];
    RightFoldStep([5], "0", "(5 + 0)");
    RightFoldStep([4, 5], "(5 + 0)", "(4 + (5 + 0))");
    RightFoldStep([3, 4, 5], "(4 + (5 + 0))", "(3 + (4 + (5 + 0)))");
  }

  /** One step of the bracketed right fold over one-digit numbers. */
  lemma RightFoldStep(s: seq<int>, rest: string, t: string)
    requires s != [] && 0 <= s[0] < 10
    requires RightFold(s[1..], "0", AddIS) == rest
    requires t == "(" + [Digit(s[0])] + " + " + rest + ")"
    ensures RightFold(s, "0", AddIS) == t
  {
    AddISDigit(s[0], rest);
  }

  /** addIS of a one-digit number. */
  lemma AddISDigit(d: int, t: string)
    requires 0 <= d < 10
    ensures AddIS(d, t) == "(" + [Digit(d)] + " + " + t + ")"
  {
  }

  /** CollectionUtilitiesTest.unfold: doubling from 1 while below 10. */
  lemma UnfoldDoubling()
    ensures var double, small := (x: int) => x * 2, (x: int) => x < 10;
      && Iterate(double, 1, 4) == 16
      && CollectionUtilities.Unfold(1, double, small, 4) == [1, 2, 4, 8]
  {
    var double, small := (x: int) => x * 2, (x: int) => x < 10;
    assert Iterate(double, 1, 1) == 2;
    assert Iterate(double, 1, 2) == 4;
    assert Iterate(double, 1, 3) == 8;
    assert Iterate(double, 1, 4) == 16;
    var r := CollectionUtilities.Unfold(1, double, small, 4);
    assert |r| == 4;
  }

  /** CollectionUtilitiesTest.unfold: growing "x" while shorter than 5. */
  lemma UnfoldStrings()
    ensures var grow, short := (x: string) => x + "x", (x: string) => |x| < 5;
      && Iterate(grow, "x", 4) == "xxxxx"
      && CollectionUtilities.Unfold("x", grow, short, 4) == ["x", "xx", "xxx", "xxxx"]
  {
    var grow, short := (x: string) => x + "x", (x: string) => |x| < 5;
    assert Iterate(grow, "x", 1) == "xx";
    assert Iterate(grow, "x", 2) == "xxx";
    assert Iterate(grow, "x", 3) == "xxxx";
    assert Iterate(grow, "x", 4) == "xxxxx";
    var r := CollectionUtilities.Unfold("x", grow, short, 4);
    assert |r| == 4;
  }

  /** CollectionUtilitiesTest.unfold: counting from 1 while at most 5. */
  lemma UnfoldCounting()
    ensures var next, atMost := (x: int) => x + 1, (x: int) => x <= 5;
      && Iterate(next, 1, 5) == 6
      && CollectionUtilities.Unfold(1, next, atMost, 5) == [1, 2, 3, 4, 5]
  {
    var next, atMost := (x: int) => x + 1, (x: int) => x <= 5;
    CollectionUtilities.IterateSuccessor(next, 1, 5);
    var r := CollectionUtilities.Unfold(1, next, atMost, 5);
    forall i | 0 <= i <= |r|
      ensures Iterate(next, 1, i) == 1 + i
    {
      CollectionUtilities.IterateSuccessor(next, 1, i);
    }
    assert |r| == 5;
  }

  /** CollectionUtilitiesTest.range. */
  lemma RangeSamples()
    ensures CollectionUtilities.Range(0, 0) == []
    ensures CollectionUtilities.Range(0, 1) == [0]
    ensures CollectionUtilities.Range(0, 5) == [0, 1, 2, 3, 4]
    ensures CollectionUtilities.Range(5, 1) == []
  {
    var r := CollectionUtilities.Range(0, 5);
    assert r[0] == 0 && r[1] == 1 && r[2] == 2 && r[3] == 3 && r[4] == 4;
  }

  /** toString of list(1, 2, 3) and of the empty list. */
  method RenderSamples() returns (three: string, none: string)
    ensures three == "[1, 2, 3, NIL]"
    ensures none == "[NIL]"
  {
    var xs: Lists.List<int> := Lists.Cons(1, Lists.Cons(2, Lists.Cons(3, Lists.Nil)));
    three := xs.ToString(DecimalString);
    assert xs.Elements() == [1, 2, 3];
    assert Lists.Rendered([1, 2, 3], DecimalString) == "1, 2, 3, " by {
      assert [1, 2, 3][1..] == [2, 3] && [2, 3][1..] == [3] && [3][1..] == [];
      assert DecimalString(1) == "1" && DecimalString(2) == "2" && DecimalString(3) == "3";
    }
    var empty: Lists.List<int> := Lists.Empty();
    none := empty.ToString(DecimalString);
  }
}
