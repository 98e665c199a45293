# Persistent singly linked list, in Dafny

This project models `fpinscala.datastructures.fp_in_java_list.List`, an immutable, persistent,
singly linked list with two variants: `Nil`, the shared empty list, and `Cons(head, tail)`,
a node whose `tail` is shared, never copied. It also covers the operations on it: `list()`,
`list(A...)`, `cons`, `sum`, `product`, the static `tail`, `setHead`, `drop` and the structural
`equals` of `Cons`.

Everything is in `fp_list.dfy`, module `FpInJavaList`:

- `List<A>` is a datatype with the constructors `Nil` and `Cons(head, tail)`. The node fields
  are final in the source, so the operations are functions that build new values.
- The exceptions the source throws become values. `Result<T>` is `Ok(value)` or
  `Err(Failure)`, and `Failure` is `IllegalState(message)` or `IllegalArgument(message)`.
  Each carries the source's exact message.
- `ToSeq` is the abstraction function: the list's elements, first to last. Every contract
  is stated through it. `FromSeq` is its inverse and gives the value that `list(A...)` builds.
- `list(A...)` is the only loop in the source. It is the method `Of`, which walks an array
  from the last index down to 0. Its invariant says that the list built so far is the list of
  the array's elements from position `i + 1` on.
- `drop` takes a Java `int`. The model uses `int32` and Java's wrapping `n - 1` (`Decrement`).
  A negative count therefore needs `n + 2^32` steps to reach 0 (`Steps`). `drop` succeeds
  exactly when that many elements are present.
- The assertions in `main` are restated as lemmas (`ListExamples` … `TailSetHeadDropExamples`).

Three behaviours of the code that the model keeps:

- `drop` takes any Java `int` and stops only when the count reaches 0 (List.java:134-141).
  A negative count therefore keeps decrementing, wrapping at `Integer.MIN_VALUE`, until the
  list runs out (see `DropTooFar`).
- `setHead` on the empty list fails inside `list.tail()` (List.java:127, 29). The message is
  therefore "tail called on empty list".
- `Nil` does not override `equals`, so it uses object identity (List.java:20-35). `Nil` has a
  private constructor and one instance (`NIL`), so a `Nil` equals only `Nil`.

## Model

| member | source | states |
|---|---|---|
| `FpInJavaList.List.IsEmpty` | src/fpinscala/datastructures/fp_in_java_list/List.java:32-57 | true exactly when the list has no elements (`Nil`), false for every `Cons` |
| `FpInJavaList.List.Head` | src/fpinscala/datastructures/fp_in_java_list/List.java:24-49 | on the empty list, fails with IllegalState "head called on empty list"; otherwise returns the first element |
| `FpInJavaList.List.Tail` | src/fpinscala/datastructures/fp_in_java_list/List.java:28-53 | on the empty list, fails with IllegalState "tail called on empty list"; otherwise returns the list of all elements after the first |
| `FpInJavaList.List.Prepend` | src/fpinscala/datastructures/fp_in_java_list/List.java:95-97 | `cons(a)` returns a non-empty list whose `head()` is `a` and whose `tail()` is the original list, unchanged; its elements are `a` followed by the original's |
| `FpInJavaList.Empty` | src/fpinscala/datastructures/fp_in_java_list/List.java:82-84 | `list()` is empty and has no elements |
| `FpInJavaList.FromSeq` | src/fpinscala/datastructures/fp_in_java_list/List.java:87-93 | the list built from a sequence has exactly that sequence's elements, in order |
| `FpInJavaList.Of` | src/fpinscala/datastructures/fp_in_java_list/List.java:87-93 | the varargs loop, prepending from the last element down to the first, yields the list whose elements are the array's, in order; an empty array yields the empty list |
| `FpInJavaList.FromSeqToSeq` | src/fpinscala/datastructures/fp_in_java_list/List.java:87-93 | rebuilding a list from its own elements gives back that same list |
| `FpInJavaList.ToSeqInjective` | src/fpinscala/datastructures/fp_in_java_list/List.java:37-45 | two lists are the same value exactly when they have the same elements in the same order |
| `FpInJavaList.ConsOfHeadTail` | src/fpinscala/datastructures/fp_in_java_list/List.java:37-57 | for a non-empty list, `head()` and `tail()` both succeed, and consing the head onto the tail gives back the list |
| `FpInJavaList.HeadAfterDrop` | src/fpinscala/datastructures/fp_in_java_list/List.java:87-93 | successive tails and heads of the list built from a sequence reproduce the sequence: after `k` tails, the head is element `k` |
| `FpInJavaList.Sum` | src/fpinscala/datastructures/fp_in_java_list/List.java:100-104 | `sum` (0 on empty, else head plus sum of tail) equals the sum of the elements, as defined independently from the last element backwards |
| `FpInJavaList.Product` | src/fpinscala/datastructures/fp_in_java_list/List.java:107-113 | `product` (1 on empty, 0 at a zero head without looking at the tail, else head times product of tail) equals the product of all elements |
| `FpInJavaList.ProductStopsAtZero` | src/fpinscala/datastructures/fp_in_java_list/List.java:110-111 | with a zero head, the product is 0 whatever the tail holds |
| `FpInJavaList.TailOf` | src/fpinscala/datastructures/fp_in_java_list/List.java:119-121 | the static `tail` fails with IllegalState "tail called on empty list" on the empty list; otherwise it returns the elements after the first |
| `FpInJavaList.SetHead` | src/fpinscala/datastructures/fp_in_java_list/List.java:126-128 | fails with the `tail()` error on the empty list; otherwise returns a list whose head is `x` and whose tail is the original's tail, so the elements are `x` followed by the original's after the first |
| `FpInJavaList.SetHeadOnlyChangesFirst` | src/fpinscala/datastructures/fp_in_java_list/List.java:126-128 | on every non-empty list, including a one-element list, `setHead` succeeds, keeps the length, and keeps every element after the first |
| `FpInJavaList.SetHeadToOwnHead` | src/fpinscala/datastructures/fp_in_java_list/List.java:126-128 | setting the head to the list's own head gives back the same list |
| `FpInJavaList.Decrement` | src/fpinscala/datastructures/fp_in_java_list/List.java:140 | Java's `n - 1` on `int`: the result is the low 32 bits of the true difference, i.e. it differs from `n - 1` by a multiple of 2^32 |
| `FpInJavaList.StepsOfDecrement` | src/fpinscala/datastructures/fp_in_java_list/List.java:140 | for a non-zero count, Java's wrapping `n - 1` leaves one fewer step before the count reaches 0 |
| `FpInJavaList.Drop` | src/fpinscala/datastructures/fp_in_java_list/List.java:134-141 | `drop(l, 0)` is `l` itself; `drop` succeeds exactly when the list has at least as many elements as the steps the count needs to reach 0, and then returns the suffix after that many elements; otherwise it fails with IllegalArgument "Cannot drop elements from empty list!" and never returns a partly dropped list (assuming unbounded recursion depth) |
| `FpInJavaList.DropSuffix` | src/fpinscala/datastructures/fp_in_java_list/List.java:134-141 | for `0 <= n <= length`, `drop` returns the suffix starting at position `n`, of length `length - n`; dropping the whole length gives the empty list |
| `FpInJavaList.DropTooFar` | src/fpinscala/datastructures/fp_in_java_list/List.java:135-140 | a count above the length fails with the drop error; so does a negative count on any list shorter than 2^31 elements (assuming unbounded recursion depth) |
| `FpInJavaList.Equals` | src/fpinscala/datastructures/fp_in_java_list/List.java:60-70 | two lists are `equals` (heads equal and tails recursively equal; `Nil` equal only to `Nil`) exactly when they have the same elements in the same order |
| `FpInJavaList.EqualsIsStructural` | src/fpinscala/datastructures/fp_in_java_list/List.java:60-70 | `equals` coincides with equality of the list values, so it is reflexive, symmetric and transitive |
| `FpInJavaList.ListExamples` | src/fpinscala/datastructures/fp_in_java_list/List.java:145-149 | `list()` is the empty list built from no elements; `list(3)` has head 3 and tail `NIL`; `list(1,2,3)` has head 1 and a tail equal to `list(2,3)` |
| `FpInJavaList.ConsExamples` | src/fpinscala/datastructures/fp_in_java_list/List.java:151-156 | `list(3)` equals `NIL.cons(3)`, whose head is 3 and whose tail is `NIL`; `list(1,2,3)` equals `NIL.cons(3).cons(2).cons(1)` and has the same head and the same tail |
| `FpInJavaList.SumExamples` | src/fpinscala/datastructures/fp_in_java_list/List.java:158-160 | `sum(NIL) == 0`, `sum(list(3)) == 3`, `sum(list(1,2,3,4,5)) == 15` |
| `FpInJavaList.ProductExamples` | src/fpinscala/datastructures/fp_in_java_list/List.java:162-163 | over integers: product of `list(3)` is 3, of `list(1,2,3,4,5)` is 120; added example, not asserted in `main`: of `list(0,5)` is 0 |
| `FpInJavaList.TailSetHeadDropExamples` | src/fpinscala/datastructures/fp_in_java_list/List.java:165-173 | `tail(list(1,2,3))` is `list(2,3)`; `setHead` of `list(1)` and `list(1,2,3)` with 9 gives `list(9)` and `list(9,2,3)`; `drop` of `list(1,2,3)` by 0, 1, 2 and 3 gives the list itself, `list(2,3)`, `list(3)` and the empty list; added examples, not asserted in `main`: `setHead` on the empty list fails with the tail message, and dropping 1 from the empty list fails with the drop error |

## Left out

- Sum: the source adds `Integer` values with Java's 32-bit wrap-around; the model adds unbounded integers, so it says nothing about overflow.
- Product: the source multiplies `Double` values; the model keeps only the control shape over integers (1 on empty, an early 0 at a zero head, otherwise head times the product of the tail). It does not model floating-point rounding, `-0.0`, NaN or `Double.equals`.
- `Cons.hashCode` is not modelled. It depends on the element type's own `hashCode`, on the identity hash of `Nil` and on 32-bit wrapping arithmetic.
- Null is not modelled: neither lists nor elements are ever null. So the null checks and `getClass()` comparisons in `equals` are not modelled; the two variants are told apart by their constructors. Neither is the `NullPointerException` a null element raises in `sum`, when `ints.head()` is unboxed (List.java:103), or in `product`, when `doubles.head().equals(0.0)` is called (List.java:110).
- Reference identity is not modelled: the singleton `NIL`, `NIL == list()` in `main`, and the raw-type and unchecked casts. `Nil` is a value.
- Stack overflow is not modelled. `sum`, `product`, `drop` (List.java:140) and `Cons.equals` (List.java:68) each make one nested call per element, so a long enough list ends in `StackOverflowError` in Java.
- Drop: its characterisation assumes unbounded recursion depth. In Java, `drop(l, -1)` on a list of, say, 100 000 elements ends in `StackOverflowError`, not in the drop error. A success for a negative count needs at least 2^31 nested calls, which Java never completes.
- DropTooFar: the same assumption. A negative count ends in the drop error only if the recursion is not cut short by the stack first.
- Equals: element equality is taken to be value equality (Dafny `==`). `Cons.equals` compares heads with the element type's own `equals` (List.java:67), so the model's reflexivity, symmetry and transitivity hold in Java only for element types whose `equals` keeps the `Object.equals` contract.
- `main` runs as a program with `assert` statements. Only its assertions are kept, as the example lemmas.
