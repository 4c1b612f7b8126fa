# Immutable collections with a trampoline, in Dafny

This project models the `pt.mleiria.collections.immutable` package. The package has three parts:

- **TailCall**: a trampoline. A computation is either `Return(t)`, which is finished, or `Suspend(resume)`, which holds a thunk for its next step. `eval` resumes in a loop until it reaches a `Return`.
- **List**: a persistent singly-linked list built from `Nil` and `Cons`. `drop`, `dropWhile`, `reverse`, `foldLeft` and `Cons.toString` run as trampolined helpers; `foldRight` is plain recursion.
- **CollectionUtilities**: free functions over unmodifiable `java.util.List` snapshots. They are modelled as Dafny sequences. `foldLeft`, `foldRight` and `unfold` are trampolined. `reverse` is a left fold of `prepend`. `prepend` is a left fold of `append`. `range` is an `unfold`.

Files and modules:

- `results.dfy` (`Results`): `Result<T>`. A Java `IllegalStateException` becomes `Failure(IllegalState(message))`, with the source's message.
- `sequences.dfy` (`Sequences`): reference definitions on sequences that the operations are proved against. These are `LeftFold` (recursion on the last element), `RightFold`, `Reversed` and `Iterate`, with their lemmas.
- `tailcall.dfy` (`TailCalls`): the trampoline. `Suspend` holds a Dafny thunk `() -> TailCall<T>`, exactly as the Java class holds a `Supplier`. Dafny has no well-founded order on functions, so termination is carried by a ghost step bound:
  - `HaltsWithin(n)` says that a `Return` is reached after at most `n` resumes;
  - `Run(n)` is the value reached, by direct recursion;
  - `Eval` is the Java `while (tailRec.isSuspend())` loop, proved to give `Run(n)` for every bound.
- `list.dfy` (`Lists`): `datatype List<A> = Nil | Cons(head, tail)`, whose operations are member functions. Each trampolined operation (drop, dropWhile, foldLeft, reverse, toString) is a helper that builds a real chain of `Suspend(() => helper(...))` steps. The public functions run that chain with `Run`; `ToString`, a method like the Java override, runs it with the `Eval` loop. A lemma proves the chain halts within the list's length and yields the reference value. `Elements()` is the abstract sequence that the contracts are stated over.
- `collection_utilities.dfy` (`CollectionUtilities`): the free functions on `seq<T>`, structured the same way.
- `examples.dfy` (`Examples`): the `add` trampoline of the TailCall test, and the exact values the unit tests expect, proved from the contracts.

`ret` and `sus` are the datatype constructors `Return` and `Suspend` themselves. Java's curried `Function<B, Function<A, B>>` arguments are modelled as uncurried Dafny functions `(B, A) -> B`. The element rendering used by `toString` (Java's `String.valueOf`) is a parameter `show`.

## Model

| member | source | states |
|---|---|---|
| `TailCalls.TailCall.IsSuspend` | src/main/java/pt/mleiria/collections/immutable/TailCall.java:59-62 | false for a `Return`, true for a `Suspend` (lines 107-110) |
| `TailCalls.TailCall.Resume` | src/main/java/pt/mleiria/collections/immutable/TailCall.java:69-72 | fails with `IllegalState("Return has no resume")` exactly on a `Return`; on a `Suspend` yields exactly the thunk's result (lines 117-120) |
| `TailCalls.TailCall.Eval` | src/main/java/pt/mleiria/collections/immutable/TailCall.java:94-100 | the loop terminates on any chain that halts; on a `Return` it answers that value (lines 50-52); otherwise it answers the value recursive evaluation reaches, whatever termination bound is used |
| `TailCalls.RunBoundIrrelevant` | src/main/java/pt/mleiria/collections/immutable/TailCall.java:94-100 | the value `eval` reaches is independent of the step bound used to show termination |
| `TailCalls.ResumeKeepsValue` | src/main/java/pt/mleiria/collections/immutable/TailCall.java:94-100 | a `Suspend` halts iff its `resume()` halts, and both evaluate to the same value: `eval(s) == eval(s.resume())` |
| `Lists.List.IsEmpty` | src/main/java/pt/mleiria/collections/immutable/List.java:175-178 | true exactly when the list has no elements (`Nil.isEmpty` at lines 50-53) |
| `Lists.List.Head` | src/main/java/pt/mleiria/collections/immutable/List.java:40-43 | fails with "head called on empty list" iff the list is empty; otherwise the first element (lines 104-107) |
| `Lists.List.Tail` | src/main/java/pt/mleiria/collections/immutable/List.java:45-48 | fails with "tail called on empty list" iff the list is empty; otherwise the list of all elements after the first (lines 109-112) |
| `Lists.List.ConsOnto` | src/main/java/pt/mleiria/collections/immutable/List.java:235-237 | `cons(x)` has elements `[x] + xs`; its head is `x` and its tail is the original list itself |
| `Lists.List.SetHead` | src/main/java/pt/mleiria/collections/immutable/List.java:180-183 | fails with "setHead called on empty list" iff empty (lines 55-58); otherwise replaces only the first element and keeps the same tail |
| `Lists.List.Drop` | src/main/java/pt/mleiria/collections/immutable/List.java:114-119 | the list itself for `n <= 0`; otherwise the suffix left after removing `min(n, length)` elements; `Nil` when `n >= length` (`Nil.drop` at lines 60-63) |
| `Lists.DropTailRecRuns` | src/main/java/pt/mleiria/collections/immutable/List.java:169-173 | the trampolined drop helper `DropTailRec` halts within `acc` steps and removes `min(acc, length)` leading elements |
| `Lists.List.DropWhile` | src/main/java/pt/mleiria/collections/immutable/List.java:121-124 | the result is a suffix of the list; every removed element satisfies `f`; the result is empty or its head fails `f` |
| `Lists.DropWhileTailRecRuns` | src/main/java/pt/mleiria/collections/immutable/List.java:126-130 | the trampolined dropWhile helper `DropWhileTailRec` halts within the list's length, with the suffix property above |
| `Lists.List.FoldLeft` | src/main/java/pt/mleiria/collections/immutable/List.java:132-134 | equals `f(...f(f(identity, e1), e2)..., en)` (`Nil.foldLeft` at lines 80-82) |
| `Lists.FoldLeftTailRecRuns` | src/main/java/pt/mleiria/collections/immutable/List.java:137-141 | the accumulator-passing trampoline `Lists.FoldLeftTailRec` halts within the list's length and equals the left fold from its accumulator |
| `Lists.List.Reverse` | src/main/java/pt/mleiria/collections/immutable/List.java:143-146 | the elements of the result are the elements in reverse order (`Nil.reverse` at lines 70-73) |
| `Lists.ReverseTailRecRuns` | src/main/java/pt/mleiria/collections/immutable/List.java:148-152 | the cons-into-accumulator trampoline `ReverseTailRec` halts within the list's length and yields the reversed list in front of the accumulator |
| `Lists.ReverseInvolutive` | src/main/java/pt/mleiria/collections/immutable/List.java:143-152 | `reverse(reverse(xs)) == xs` |
| `Lists.List.Init` | src/main/java/pt/mleiria/collections/immutable/List.java:154-157 | `reverse().tail().reverse()` is all but the last element; `Nil` for a singleton; fails with "init called on an empty list" iff empty (lines 75-78) |
| `Lists.List.Length` | src/main/java/pt/mleiria/collections/immutable/List.java:164-167 | the counting fold equals the number of elements (`Nil.length` at lines 84-87) |
| `Lists.List.ToString` | src/main/java/pt/mleiria/collections/immutable/List.java:185-188 | `eval` of the buffer trampoline, wrapped in `[...NIL]`, renders `[e1, e2, ..., en, NIL]`, and `[NIL]` for the empty list (lines 89-92) |
| `Lists.ToStringTailRecRuns` | src/main/java/pt/mleiria/collections/immutable/List.java:190-194 | the append-to-buffer trampoline `ToStringTailRec` halts within the list's length and yields the buffer followed by `e1, e2, ..., en, ` |
| `Lists.Empty` | src/main/java/pt/mleiria/collections/immutable/List.java:204-207 | `list()` is the empty list |
| `Lists.ListOf` | src/main/java/pt/mleiria/collections/immutable/List.java:246-253 | the count-down cons loop yields a list whose elements are the arguments in argument order |
| `Lists.FoldRight` | src/main/java/pt/mleiria/collections/immutable/List.java:219-224 | the non-trampolined recursion equals `f(e1, f(e2, ... f(en, n)))` |
| `Lists.FoldsAgreeOnSum` | src/main/java/pt/mleiria/collections/immutable/List.java:219-224 | with integer addition, `foldLeft(0, +)` and `foldRight(list, 0, +)` agree |
| `CollectionUtilities.Empty` | src/main/java/pt/mleiria/collections/immutable/CollectionUtilities.java:26-28 | `list()` has no elements |
| `CollectionUtilities.Singleton` | src/main/java/pt/mleiria/collections/immutable/CollectionUtilities.java:35-37 | `list(t)` has exactly one element, `t` |
| `CollectionUtilities.Copy` | src/main/java/pt/mleiria/collections/immutable/CollectionUtilities.java:44-46 | `list(ts)` has the same elements as `ts`, in the same order |
| `CollectionUtilities.ListOf` | src/main/java/pt/mleiria/collections/immutable/CollectionUtilities.java:53-56 | `list(t...)` has the array's elements, in order |
| `CollectionUtilities.Head` | src/main/java/pt/mleiria/collections/immutable/CollectionUtilities.java:63-68 | fails with "Head of Empty list" iff empty; otherwise the first element |
| `CollectionUtilities.Tail` | src/main/java/pt/mleiria/collections/immutable/CollectionUtilities.java:79-86 | fails with "Tail of Empty list" iff empty; otherwise the elements from the second on, one shorter; the argument is unchanged |
| `CollectionUtilities.Append` | src/main/java/pt/mleiria/collections/immutable/CollectionUtilities.java:147-151 | the old elements in place, followed by `t` |
| `CollectionUtilities.Prepend` | src/main/java/pt/mleiria/collections/immutable/CollectionUtilities.java:159-161 | the left fold of appends starting from `list(t)` equals `[t] + list` |
| `CollectionUtilities.Reverse` | src/main/java/pt/mleiria/collections/immutable/CollectionUtilities.java:137-139 | the left fold of prepends starting from `list()` is the reversed sequence |
| `CollectionUtilities.ReverseInvolutive` | src/main/java/pt/mleiria/collections/immutable/CollectionUtilities.java:137-139 | `reverse(reverse(xs)) == xs` |
| `CollectionUtilities.FoldLeft` | src/main/java/pt/mleiria/collections/immutable/CollectionUtilities.java:96-98 | equals the left fold `f(...f(f(identity, e1), e2)..., en)` |
| `CollectionUtilities.FoldLeftTailRecRuns` | src/main/java/pt/mleiria/collections/immutable/CollectionUtilities.java:100-105 | the head/tail trampoline `CollectionUtilities.FoldLeftTailRec` halts within `|ts|` steps and equals the left fold from its accumulator |
| `CollectionUtilities.FoldRight` | src/main/java/pt/mleiria/collections/immutable/CollectionUtilities.java:120-122 | the accumulation over `reverse(ts)` equals the right fold `f(e1, f(e2, ... f(en, identity)))` |
| `CollectionUtilities.FoldRightTailRecRuns` | src/main/java/pt/mleiria/collections/immutable/CollectionUtilities.java:124-129 | `FoldRightTailRec`, accumulating `f(head, acc)` from the front, halts within `|ts|` steps and equals the right fold of the reversed sequence |
| `CollectionUtilities.Unfold` | src/main/java/pt/mleiria/collections/immutable/CollectionUtilities.java:179-181 | the result is `seed, f(seed), ...`; `p` held for every value included, and it fails for the first value left out |
| `CollectionUtilities.UnfoldTailRecRuns` | src/main/java/pt/mleiria/collections/immutable/CollectionUtilities.java:183-188 | the append-and-advance trampoline `UnfoldTailRec` halts within the given bound and yields its accumulator followed by the values above |
| `CollectionUtilities.Range` | src/main/java/pt/mleiria/collections/immutable/CollectionUtilities.java:168-170 | the half-open interval `[start, end)`: length `max(0, end - start)`, element `i` is `start + i`, empty when `start >= end` |
| `Examples.AddRuns` | src/test/java/pt/mleiria/collections/immutable/TailCallTest.java:20-24 | the trampolined `Examples.Add(x, y)` halts after `y` resumes with value `x + y` (unbounded; see Left out) |
| `Examples.EvalAdd` | src/test/java/pt/mleiria/collections/immutable/TailCallTest.java:57-61 | `add(3, 100000).eval()` is `100003` |
| `Examples.ListFolds` | src/test/java/pt/mleiria/collections/immutable/ListTest.java:22-41 | `list(1, 2, 3, 4, 5)` sums to 15, multiplies to 120 and has length 5 |
| `Examples.SeqFoldLeftSum` | src/test/java/pt/mleiria/collections/immutable/CollectionUtilitiesTest.java:13-19 | `foldLeft([1, 2, 3, 4, 5], 0, +)` is 15 |
| `Examples.UnfoldDoubling` | src/test/java/pt/mleiria/collections/immutable/CollectionUtilitiesTest.java:21-23 | `unfold(1, x * 2, x < 10)` is `[1, 2, 4, 8]` |
| `Examples.UnfoldStrings` | src/test/java/pt/mleiria/collections/immutable/CollectionUtilitiesTest.java:22-24 | `unfold("x", x + "x", length < 5)` is `[x, xx, xxx, xxxx]` |
| `Examples.UnfoldCounting` | src/test/java/pt/mleiria/collections/immutable/CollectionUtilitiesTest.java:22-25 | `unfold(1, x + 1, x <= 5)` is `[1, 2, 3, 4, 5]` |
| `Examples.RangeSamples` | src/test/java/pt/mleiria/collections/immutable/CollectionUtilitiesTest.java:28-34 | `range(0, 0)`, `range(0, 1)`, `range(0, 5)` and `range(5, 1)` are `[]`, `[0]`, `[0, 1, 2, 3, 4]` and `[]` |
| `Examples.SeqFoldRightBrackets` | src/test/java/pt/mleiria/collections/immutable/CollectionUtilitiesTest.java:40-46 | `foldRight([1..5], "0", addIS)` is `"(1 + (2 + (3 + (4 + (5 + 0)))))"` |
| `Examples.RenderSamples` | src/main/java/pt/mleiria/collections/immutable/List.java:185-194 | `list(1, 2, 3)` renders as `[1, 2, 3, NIL]` and the empty list as `[NIL]` |

## Left out

- Stack safety is a property of the JVM's call stack. The model shows only that the `eval` loop terminates and that each trampolined helper halts within one step per element, and it has no notion of stack depth. The stack use of the non-trampolined `List.foldRight` is not modelled either.
- Divergence: the thunks of a `TailCall` and `unfold`'s `f`/`p` can make the Java loop run forever. `Eval` requires that the chain halts. `Unfold` takes a ghost step count `k` after which `p` fails, so inputs on which the Java `unfold` never returns are outside the model.
- `Examples.Add`: `y` is a natural number. A negative `y` is not modelled: the Java `add` would count down through 32-bit wrap-around.
- `Examples.AddRuns`: `x + y` is a mathematical integer; the Java `add` computes `x + 1` in 32-bit `int`s and wraps when `x + y` exceeds 2^31 - 1 (so `add(Integer.MAX_VALUE, 1)` is `Integer.MIN_VALUE`). The test value `add(3, 100000)` is far from that bound.
- `Lists.List.Length`: the count is an unbounded integer, so the `int` overflow of a list longer than 2^31 - 1 elements is not modelled. `drop`'s `int` argument and `range`'s bounds are exact here: `range` only computes `x + 1` for `x < end`, which cannot overflow.
- Reference identity and the shared `NIL` singleton: equality is structural. For example, "the tail of `cons(x)` is the original list" is stated as structural equality; pointer equality is not modelled.
- `CollectionUtilities.Tail`, `CollectionUtilities.Append`: the Java methods copy into a local `ArrayList` and mutate it (`remove(0)`, `add(t)`). Both are called from inside fold lambdas and trampoline thunks, and those must be pure Dafny functions. So they are modelled by the value they return, and the in-place copy-and-mutate is not represented.
- `Lists.List.ToString`: the Java helper appends to one `StringBuilder` in place (`acc.append(...)`) and passes the same builder on. The model's buffer is an immutable string extended at each step; every builder is used once, so the rendered text is the same, but the sharing and in-place update of the builder are not represented.
- `Collections.unmodifiableList` rejects mutation attempts at run time. The model has no mutating calls, so that behaviour does not arise.
- `dblArrToListFunc` boxes a `double[]`. Floating point is not modelled.
- Java `null` elements are not modelled.
- The file, JSON, printing, validation and timing helpers of the repository (`FileUtilities`, `WriteUtilities`, `ViewUtilities`, `JsonValidator`, `Validator`, `StopWatch`) are I/O, clock or foreign-library wrappers and are not part of this model.
