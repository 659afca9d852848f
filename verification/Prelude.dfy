/** Optional values, fallible results and lists, shared by every part of the model. */
module Prelude {
  datatype Option<+T> = None | Some(value: T) {
    function GetOr(default: T): T {
      if Some? then value else default
    }
  }

  datatype Result<+T> = Ok(value: T) | Err

  /** How a write ends; one that reports an error may have been applied all the same. */
  datatype WriteFault = NoFault | NotApplied | AppliedUnacked

  datatype List<T> = Nil | Cons(head: T, tail: List<T>) {
    function Append(that: List<T>): List<T> {
      match this
      case Nil => that
      case Cons(x, rest) => Cons(x, rest.Append(that))
    }
  }

  function Reverse<T>(l: List<T>): List<T> {
    match l
    case Nil => Nil
    case Cons(x, rest) => Reverse(rest).Append(Cons(x, Nil))
  }

  ghost function Elements<T>(l: List<T>): multiset<T> {
    match l
    case Nil => multiset{}
    case Cons(x, rest) => multiset{x} + Elements(rest)
  }

  lemma HeadIsElement<T>(l: List<T>)
    ensures l.Cons? ==> l.head in Elements(l) && Elements(l.tail) == Elements(l) - multiset{l.head}
  {
  }

  lemma {:induction false} ElementsAppend<T>(a: List<T>, b: List<T>)
    ensures Elements(a.Append(b)) == Elements(a) + Elements(b)
  {
    match a
    case Nil =>
    case Cons(_, rest) => ElementsAppend(rest, b);
  }

  lemma {:induction false} ElementsReverse<T>(l: List<T>)
    ensures Elements(Reverse(l)) == Elements(l)
  {
    match l
    case Nil =>
    case Cons(x, rest) =>
      ElementsReverse(rest);
      ElementsAppend(Reverse(rest), Cons(x, Nil));
  }

  /** An element can be found: the list splits around it. */
  lemma {:induction false} SplitAt<T>(l: List<T>, x: T) returns (before: List<T>, after: List<T>)
    requires x in Elements(l)
    ensures l == before.Append(Cons(x, after))
    ensures Elements(before) + Elements(after) == Elements(l) - multiset{x}
  {
    if l.head == x {
      before, after := Nil, l.tail;
    } else {
      var b, a := SplitAt(l.tail, x);
      before, after := Cons(l.head, b), a;
      assert Elements(l) - multiset{x} == multiset{l.head} + (Elements(l.tail) - multiset{x});
    }
  }

  /* ---------- Orders ---------- */

  ghost predicate TotalPreorder<T(!new)>(leq: (T, T) -> bool) {
    && (forall x, y :: leq(x, y) || leq(y, x))
    && (forall x, y, z :: leq(x, y) && leq(y, z) ==> leq(x, z))
  }

  /** Every set that is not empty has a least element. */
  lemma {:induction false} LeastExists<T(!new)>(leq: (T, T) -> bool, s: set<T>)
    requires TotalPreorder(leq) && s != {}
    ensures exists m :: m in s && forall x <- s :: leq(m, x)
    decreases s
  {
    var c :| c in s;
    var rest := s - {c};
    assert leq(c, c);
    if rest == {} {
      assert s == {c};
    } else {
      LeastExists(leq, rest);
      var m :| m in rest && forall x <- rest :: leq(m, x);
      var best := if leq(m, c) then m else c;
      assert forall x <- s :: x == c || x in rest;
      assert best in s && forall x <- s :: leq(best, x);
    }
  }

  function Insert<T>(leq: (T, T) -> bool, x: T, sorted: List<T>): List<T> {
    match sorted
    case Nil => Cons(x, Nil)
    case Cons(y, rest) => if leq(x, y) then Cons(x, sorted) else Cons(y, Insert(leq, x, rest))
  }

  /** The stable sort. */
  function Sort<T>(leq: (T, T) -> bool, l: List<T>): List<T> {
    match l
    case Nil => Nil
    case Cons(x, rest) => Insert(leq, x, Sort(leq, rest))
  }

  lemma SortTwo<T>(leq: (T, T) -> bool, a: T, b: T)
    requires leq(a, b) && (leq(b, a) ==> a == b)
    ensures Sort(leq, Cons(a, Cons(b, Nil))) == Cons(a, Cons(b, Nil))
    ensures Sort(leq, Cons(b, Cons(a, Nil))) == Cons(a, Cons(b, Nil))
  {
    assert Sort(leq, Cons(a, Nil)) == Insert(leq, a, Sort(leq, Nil));
    assert Sort(leq, Cons(b, Nil)) == Insert(leq, b, Sort(leq, Nil));
  }

  ghost predicate Sorted<T(!new)>(leq: (T, T) -> bool, l: List<T>) {
    match l
    case Nil => true
    case Cons(x, rest) => (forall y <- Elements(rest) :: leq(x, y)) && Sorted(leq, rest)
  }

  lemma {:induction false} InsertSorts<T(!new)>(leq: (T, T) -> bool, x: T, l: List<T>)
    requires TotalPreorder(leq) && Sorted(leq, l)
    ensures Sorted(leq, Insert(leq, x, l)) && Elements(Insert(leq, x, l)) == Elements(l) + multiset{x}
  {
    match l
    case Nil =>
    case Cons(y, rest) =>
      if !leq(x, y) {
        InsertSorts(leq, x, rest);
      }
  }

  lemma {:induction false} SortSorts<T(!new)>(leq: (T, T) -> bool, l: List<T>)
    requires TotalPreorder(leq)
    ensures Sorted(leq, Sort(leq, l)) && Elements(Sort(leq, l)) == Elements(l)
  {
    match l
    case Nil =>
    case Cons(x, rest) =>
      SortSorts(leq, rest);
      InsertSorts(leq, x, Sort(leq, rest));
  }

  /** There is only one sorted list of given elements if no two different ones are equal in the order. */
  lemma {:induction false} SortedIsUnique<T(!new)>(leq: (T, T) -> bool, a: List<T>, b: List<T>)
    requires Sorted(leq, a) && Sorted(leq, b) && Elements(a) == Elements(b)
    requires forall x <- Elements(a), y <- Elements(a) | leq(x, y) && leq(y, x) :: x == y
    ensures a == b
  {
    HeadIsElement(a);
    HeadIsElement(b);
    if a.Cons? && b.Cons? {
      assert a.head in Elements(b) && b.head in Elements(a);
      SortedIsUnique(leq, a.tail, b.tail);
    }
  }
}
