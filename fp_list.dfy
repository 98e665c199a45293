/** A model of the immutable, persistent, singly linked list of the package
    fpinscala.datastructures.fp_in_java_list: two variants, `Nil` and `Cons`,
    and the derived operations sum, product, tail, setHead and drop.
    Every contract is stated through the abstraction function `ToSeq`. */
module FpInJavaList {

  /** The two unchecked exceptions the list throws, with their messages. */
  datatype Failure =
    | IllegalState(message: string)
    | IllegalArgument(message: string)

  const HeadOfEmpty: string := "head called on empty list"
  const TailOfEmpty: string := "tail called on empty list"
  const DropFromEmpty: string := "Cannot drop elements from empty list!"

  /** What an operation returns, or the exception it throws instead. */
  datatype Result<T> = Ok(value: T) | Err(error: Failure)

  /** Java's 32-bit `int`, the type of drop's count. */
  newtype int32 = x: int | -0x8000_0000 <= x < 0x8000_0000

  datatype List<A> = Nil | Cons(head: A, tail: List<A>) {

    /** The elements from first to last. */
    function ToSeq(): seq<A>
    {
      match this
      case Nil => []
      case Cons(h, t) => [h] + t.ToSeq()
    }

    function IsEmpty(): (b: bool)
      ensures b <==> ToSeq() == []
    {
      Nil?
    }

    /** The first element; throws on the empty list. */
    function Head(): (r: Result<A>)
      ensures ToSeq() == [] ==> r == Err(IllegalState(HeadOfEmpty))
      ensures ToSeq() != [] ==> r == Ok(ToSeq()[0])
    {
      match this
      case Nil => Err(IllegalState(HeadOfEmpty))
      case Cons(h, _) => Ok(h)
    }

    /** The rest of the list after the first element; throws on the empty list. */
    function Tail(): (r: Result<List<A>>)
      ensures ToSeq() == [] ==> r == Err(IllegalState(TailOfEmpty))
      ensures ToSeq() != [] ==> r.Ok? && r.value.ToSeq() == ToSeq()[1..]
    {
      match this
      case Nil => Err(IllegalState(TailOfEmpty))
      case Cons(_, t) => Ok(t)
    }

    /** `cons`: a new node holding `a` in front of this list, which is kept
        unchanged as the new node's tail. */
    function Prepend(a: A): (r: List<A>)
      ensures !r.IsEmpty()
      ensures r.Head() == Ok(a) && r.Tail() == Ok(this)
      ensures r.ToSeq() == [a] + ToSeq()
    {
      Cons(a, this)
    }
  }

  /** `list()`: the empty list. */
  function Empty<A>(): (r: List<A>)
    ensures r.IsEmpty() && r.ToSeq() == []
  {
    Nil
  }

  /** The list of the elements of `s`, in order: the value `list(A...)` builds. */
  function FromSeq<A>(s: seq<A>): (r: List<A>)
    ensures r.ToSeq() == s
  {
    if s == [] then Nil else Cons(s[0], FromSeq(s[1..]))
  }

  /** Building from position `i` puts the element at `i` in front of what is
      built from position `i + 1`: one step of the varargs loop. */
  lemma FromSeqSuffix<A>(s: seq<A>, i: nat)
    requires i < |s|
    ensures FromSeq(s[i..]) == Cons(s[i], FromSeq(s[i + 1..]))
  {
    assert s[i..][1..] == s[i + 1..];
  }

  /** `list(A...)`: prepends the array's elements from the last to the first. */
  method Of<A>(a: array<A>) returns (n: List<A>)
    ensures n == FromSeq(a[..])
    ensures n.ToSeq() == a[..]
    ensures a.Length == 0 <==> n == Empty()
  {
    ghost var s := a[..];
    n := Empty();
    var i := a.Length - 1;
    while i >= 0
      invariant -1 <= i < |s|
      invariant n == FromSeq(s[i + 1..])
    {
      FromSeqSuffix(s, i);
      n := Cons(a[i], n);
      i := i - 1;
    }
    assert s[0..] == s;
  }

  lemma {:induction false} FromSeqToSeq<A>(l: List<A>)
    ensures FromSeq(l.ToSeq()) == l
  {
    match l
    case Nil =>
    case Cons(h, t) =>
      FromSeqToSeq(t);
      assert l.ToSeq()[1..] == t.ToSeq();
  }

  /** Two lists with the same elements are the same list. */
  lemma {:induction false} ToSeqInjective<A>(l: List<A>, m: List<A>)
    ensures l.ToSeq() == m.ToSeq() <==> l == m
  {
    FromSeqToSeq(l);
    FromSeqToSeq(m);
  }

  /** A non-empty list is the node of its own head and tail. */
  lemma ConsOfHeadTail<A>(l: List<A>)
    requires !l.IsEmpty()
    ensures l.Tail().Ok? && l.Head().Ok?
    ensures l.Tail().value.Prepend(l.Head().value) == l
  {
  }

  // ---- sum ----

  /** Sum of a sequence, taken from the last element backwards. */
  function SeqSum(s: seq<int>): int
  {
    if s == [] then 0 else SeqSum(s[..|s| - 1]) + s[|s| - 1]
  }

  lemma {:induction false} SeqSumFront(x: int, s: seq<int>)
    ensures SeqSum([x] + s) == x + SeqSum(s)
  {
    if s != [] {
      assert ([x] + s)[..|s|] == [x] + s[..|s| - 1];
      SeqSumFront(x, s[..|s| - 1]);
    }
  }

  /** `sum`: 0 on the empty list, otherwise the head plus the sum of the tail. */
  function Sum(ints: List<int>): (r: int)
    ensures r == SeqSum(ints.ToSeq())
  {
    if ints.IsEmpty() then 0
    else
      SeqSumFront(ints.head, ints.tail.ToSeq());
      ints.head + Sum(ints.tail)
  }

  // ---- product (its control shape, over int) ----

  /** Product of a sequence, taken from the last element backwards. */
  function SeqProduct(s: seq<int>): int
  {
    if s == [] then 1 else SeqProduct(s[..|s| - 1]) * s[|s| - 1]
  }

  lemma {:induction false} SeqProductFront(x: int, s: seq<int>)
    ensures SeqProduct([x] + s) == x * SeqProduct(s)
  {
    if s != [] {
      assert ([x] + s)[..|s|] == [x] + s[..|s| - 1];
      SeqProductFront(x, s[..|s| - 1]);
    }
  }

  /** `product`: 1 on the empty list; stops at a zero head without looking at
      the tail; otherwise the head times the product of the tail. */
  function Product(ds: List<int>): (r: int)
    ensures r == SeqProduct(ds.ToSeq())
  {
    if ds.IsEmpty() then 1
    else if ds.head == 0 then
      SeqProductFront(0, ds.tail.ToSeq());
      0
    else
      SeqProductFront(ds.head, ds.tail.ToSeq());
      ds.head * Product(ds.tail)
  }

  /** A zero head makes the product 0, whatever the tail holds. */
  lemma ProductStopsAtZero(t: List<int>, u: List<int>)
    ensures Product(Cons(0, t)) == Product(Cons(0, u)) == 0
  {
  }

  // ---- tail, setHead, drop ----

  /** The static `tail(list)`: delegates to the list's own `tail()`. */
  function TailOf<A>(list: List<A>): (r: Result<List<A>>)
    ensures list.IsEmpty() ==> r == Err(IllegalState(TailOfEmpty))
    ensures !list.IsEmpty() ==> r.Ok? && r.value.ToSeq() == list.ToSeq()[1..]
  {
    list.Tail()
  }

  /** `setHead`: a new node holding `x` on the tail of `list`. The tail is taken
      with `tail()`, so the empty list fails with the tail message. */
  function SetHead<A>(list: List<A>, x: A): (r: Result<List<A>>)
    ensures list.IsEmpty() ==> r == Err(IllegalState(TailOfEmpty))
    ensures !list.IsEmpty() ==> r.Ok? && r.value.ToSeq() == [x] + list.ToSeq()[1..]
    ensures !list.IsEmpty() ==> r.value.Head() == Ok(x) && r.value.Tail() == list.Tail()
  {
    match list.Tail()
    case Err(e) => Err(e)
    case Ok(t) => Ok(Cons(x, t))
  }

  /** Only the first element changes: the length and every later element stay. */
  lemma SetHeadOnlyChangesFirst<A>(list: List<A>, x: A)
    requires !list.IsEmpty()
    ensures SetHead(list, x).Ok?
    ensures |SetHead(list, x).value.ToSeq()| == |list.ToSeq()|
    ensures forall k :: 0 < k < |list.ToSeq()| ==> SetHead(list, x).value.ToSeq()[k] == list.ToSeq()[k]
  {
  }

  /** Setting the head to the head already there gives back the same list. */
  lemma SetHeadToOwnHead<A>(list: List<A>)
    requires !list.IsEmpty()
    ensures SetHead(list, list.head) == Ok(list)
  {
  }

  /** `n - 1` in Java's 32-bit arithmetic: the smallest int wraps to the largest. */
  function Decrement(n: int32): (m: int32)
    ensures (m as int - (n as int - 1)) % 0x1_0000_0000 == 0
  {
    if n == -0x8000_0000 then 0x7fff_ffff else n - 1
  }

  /** How many times `drop` takes a tail before its count reaches 0: the count
      itself, or for a negative count, the count plus 2^32 (the decrements wrap). */
  function Steps(n: int32): (k: nat)
  {
    if n >= 0 then n as int else n as int + 0x1_0000_0000
  }

  lemma StepsOfDecrement(n: int32)
    requires n != 0
    ensures Steps(Decrement(n)) == Steps(n) - 1
  {
  }

  /** `drop`: removes the first `n` elements. It returns `list` itself when `n`
      is 0 and fails, never returning a partly dropped list, when the list runs
      out before the count reaches 0. */
  function Drop<A>(list: List<A>, n: int32): (r: Result<List<A>>)
    ensures n == 0 ==> r == Ok(list)
    ensures r.Ok? <==> Steps(n) <= |list.ToSeq()|
    ensures r.Ok? ==> r.value.ToSeq() == list.ToSeq()[Steps(n)..]
    ensures r.Err? ==> r.error == IllegalArgument(DropFromEmpty)
    decreases list
  {
    if n == 0 then Ok(list)
    else if list.IsEmpty() then Err(IllegalArgument(DropFromEmpty))
    else
      StepsOfDecrement(n);
      Drop(list.tail, Decrement(n))
  }

  /** Dropping a non-negative count up to the length leaves the suffix from that
      position, of the length that remains; dropping everything leaves `Nil`. */
  lemma DropSuffix<A>(list: List<A>, n: int32)
    requires 0 <= n as int <= |list.ToSeq()|
    ensures Drop(list, n).Ok?
    ensures Drop(list, n).value == FromSeq(list.ToSeq()[n..])
    ensures |Drop(list, n).value.ToSeq()| == |list.ToSeq()| - n as int
    ensures n as int == |list.ToSeq()| ==> Drop(list, n).value == Nil
  {
    ToSeqInjective(Drop(list, n).value, FromSeq(list.ToSeq()[n..]));
  }

  /** A count larger than the length fails; so does a negative count on any
      list shorter than 2^31 elements. */
  lemma DropTooFar<A>(list: List<A>, n: int32)
    requires n as int > |list.ToSeq()| || (n < 0 && |list.ToSeq()| < 0x8000_0000)
    ensures Drop(list, n) == Err(IllegalArgument(DropFromEmpty))
  {
  }

  /** Successive heads and tails of `list(a...)` reproduce the elements in order:
      after dropping `k` elements, the head is the element at position `k`. */
  lemma HeadAfterDrop<A>(s: seq<A>, k: int32)
    requires 0 <= k as int < |s|
    ensures Drop(FromSeq(s), k).Ok?
    ensures Drop(FromSeq(s), k).value.Head() == Ok(s[k])
  {
  }

  // ---- equals ----

  /** `equals`: a `Cons` equals another `Cons` with an equal head and an equal
      tail; `Nil` is the single shared instance, equal only to itself. */
  function Equals<A(==)>(l: List<A>, o: List<A>): (b: bool)
    ensures b <==> l.ToSeq() == o.ToSeq()
  {
    match l
    case Nil => o.Nil?
    case Cons(h, t) =>
      if o.Nil? then false
      else
        assert l.ToSeq()[1..] == t.ToSeq() && o.ToSeq()[1..] == o.tail.ToSeq();
        h == o.head && Equals(t, o.tail)
  }

  /** Equality is structural: it coincides with equality of the values. */
  lemma {:induction false} EqualsIsStructural<A>(l: List<A>, o: List<A>)
    ensures Equals(l, o) <==> l == o
  {
    ToSeqInjective(l, o);
  }

  // ---- the assertions of `main`, as facts about the model ----

  lemma ListExamples()
    ensures Empty<int>() == FromSeq([])
    ensures FromSeq([3]).Head() == Ok(3)
    ensures FromSeq([3]).Tail() == Ok(Empty())
    ensures FromSeq([1, 2, 3]).Head() == Ok(1)
    ensures FromSeq([1, 2, 3]).Tail().Ok?
    ensures Equals(FromSeq([2, 3]), FromSeq([1, 2, 3]).Tail().value)
  {
  }

  lemma ConsExamples()
    ensures Equals(FromSeq([3]), Empty().Prepend(3))
    ensures Empty().Prepend(3).Head() == Ok(3)
    ensures Empty<int>().Prepend(3).Tail() == Ok(Empty())
    ensures Equals(FromSeq([1, 2, 3]), Empty().Prepend(3).Prepend(2).Prepend(1))
    ensures FromSeq([1, 2, 3]).Head() == Empty().Prepend(3).Prepend(2).Prepend(1).Head()
    ensures FromSeq([1, 2, 3]).Tail() == Empty().Prepend(3).Prepend(2).Prepend(1).Tail()
  {
  }

  lemma SumExamples()
    ensures Sum(Empty()) == 0
    ensures Sum(FromSeq([3])) == 3
    ensures Sum(FromSeq([1, 2, 3, 4, 5])) == 15
  {
  }

  lemma ProductExamples()
    ensures Product(FromSeq([3])) == 3
    ensures Product(FromSeq([1, 2, 3, 4, 5])) == 120
    ensures Product(FromSeq([0, 5])) == 0
  {
  }

  lemma TailSetHeadDropExamples()
    ensures TailOf(FromSeq([1, 2, 3])) == Ok(FromSeq([2, 3]))
    ensures SetHead(FromSeq([1]), 9) == Ok(FromSeq([9]))
    ensures SetHead(FromSeq([1, 2, 3]), 9) == Ok(FromSeq([9, 2, 3]))
    ensures SetHead(Empty(), 9) == Err(IllegalState(TailOfEmpty))
    ensures Drop(FromSeq([1, 2, 3]), 0) == Ok(FromSeq([1, 2, 3]))
    ensures Drop(FromSeq([1, 2, 3]), 1) == Ok(FromSeq([2, 3]))
    ensures Drop(FromSeq([1, 2, 3]), 2) == Ok(FromSeq([3]))
    ensures Drop(FromSeq([1, 2, 3]), 3) == Ok(Empty())
    ensures Drop(Empty<int>(), 1) == Err(IllegalArgument(DropFromEmpty))
  {
  }
}
