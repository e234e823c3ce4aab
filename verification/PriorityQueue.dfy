/** A bounded priority queue kept in an array: insertion appends and moves the new element forward. */
module PriorityQueue {

  datatype Element = Element(value: int, priority: int)

  // ---------- What an insertion does ----------

  /** Where an element of priority `p` ends up: behind everything of priority at least `p` at the end of `s`. */
  function Slot(s: seq<Element>, p: int): (k: nat)
    ensures k <= |s|
    ensures k > 0 ==> s[k - 1].priority >= p
    ensures forall i :: k <= i < |s| ==> s[i].priority < p
  {
    if s == [] || s[|s| - 1].priority >= p then |s| else Slot(s[..|s| - 1], p)
  }

  function Inserted(s: seq<Element>, x: Element): (t: seq<Element>)
    ensures |t| == |s| + 1
  {
    s[..Slot(s, x.priority)] + [x] + s[Slot(s, x.priority)..]
  }

  class Queue {
    const elements: array<Element>
    var size: nat

    ghost predicate Valid()
      reads this
    {
      size <= elements.Length
    }

    ghost function Content(): seq<Element>
      requires Valid()
      reads this, elements
    {
      elements[..size]
    }

    /** An allocated, empty queue. */
    constructor (capacity: nat)
      ensures Valid() && Content() == [] && elements.Length == capacity && fresh(elements)
    {
      elements := new Element[capacity](_ => Element(0, 0));
      size := 0;
    }

    method Insert(value: int, priority: int) returns (accepted: bool)
      requires Valid()
      modifies this, elements
      ensures Valid() && accepted == (old(size) < elements.Length)
      ensures Content() == if accepted then Inserted(old(Content()), Element(value, priority)) else old(Content())
    {
      if size >= elements.Length {
        return false;
      }
      ghost var s := Content();
      var x := Element(value, priority);
      elements[size] := x;
      size := size + 1;
      var i := size - 1;
      assert Content() == s[..i] + [x] + s[i..];
      while i > 0
        invariant 0 <= i <= |s| == size - 1 < elements.Length
        invariant Content() == s[..i] + [x] + s[i..]
        invariant forall j :: i <= j < |s| ==> s[j].priority < priority
      {
        assert elements[i] == Content()[i] == x && elements[i - 1] == Content()[i - 1] == s[i - 1];
        if elements[i].priority > elements[i - 1].priority {
          var temp := elements[i];
          elements[i] := elements[i - 1];
          elements[i - 1] := temp;
          i := i - 1;
        } else {
          break;
        }
      }
      assert i == Slot(s, priority);
      return true;
    }
  }

  // ---------- Every run of insertions is a stable sort ----------

  /** The queue of capacity `cap` after inserting all of `xs`. */
  function After(cap: nat, xs: seq<Element>): seq<Element> {
    if xs == [] then []
    else
      var s := After(cap, xs[..|xs| - 1]);
      if |s| < cap then Inserted(s, xs[|xs| - 1]) else s
  }

  /** The elements a queue of capacity `cap` takes: the first ones. */
  function Taken(cap: nat, xs: seq<Element>): seq<Element> {
    if |xs| <= cap then xs else xs[..cap]
  }

  /** Any sequence of insertions into a new queue. */
  method InsertAll(capacity: nat, xs: seq<Element>) returns (q: Queue)
    ensures q.Valid() && q.elements.Length == capacity && q.Content() == After(capacity, xs)
  {
    q := new Queue(capacity);
    for i := 0 to |xs|
      invariant fresh(q) && fresh(q.elements) && q.elements.Length == capacity
      invariant q.Valid() && q.Content() == After(capacity, xs[..i])
    {
      var accepted := q.Insert(xs[i].value, xs[i].priority);
      assert xs[..i + 1][..i] == xs[..i];
    }
    assert xs[..|xs|] == xs;
  }

  ghost predicate Descending(s: seq<Element>) {
    forall i, j :: 0 <= i < j < |s| ==> s[i].priority >= s[j].priority
  }

  /** The elements of priority `p`, in order. */
  ghost function Only(s: seq<Element>, p: int): seq<Element> {
    if s == [] then []
    else Only(s[..|s| - 1], p) + (if s[|s| - 1].priority == p then [s[|s| - 1]] else [])
  }

  lemma {:induction false} OnlyConcat(a: seq<Element>, b: seq<Element>, p: int)
    ensures Only(a + b, p) == Only(a, p) + Only(b, p)
  {
    if b == [] {
      assert a + b == a;
    } else {
      OnlyConcat(a, b[..|b| - 1], p);
      assert (a + b)[..|a + b| - 1] == a + b[..|b| - 1];
    }
  }

  lemma {:induction false} OnlyNone(s: seq<Element>, p: int)
    requires forall i :: 0 <= i < |s| ==> s[i].priority != p
    ensures Only(s, p) == []
  {
    if s != [] {
      OnlyNone(s[..|s| - 1], p);
    }
  }

  lemma InsertedDescending(s: seq<Element>, x: Element)
    requires Descending(s)
    ensures Descending(Inserted(s, x))
  {
  }

  lemma InsertedPermutes(s: seq<Element>, x: Element)
    ensures multiset(Inserted(s, x)) == multiset(s + [x])
  {
    var k := Slot(s, x.priority);
    assert s == s[..k] + s[k..];
  }

  /** Moving `x` past elements of another priority does not show in `Only`. */
  lemma OnlyMove(a: seq<Element>, x: Element, b: seq<Element>, p: int)
    requires forall i :: 0 <= i < |b| ==> b[i].priority != x.priority
    ensures Only(a + [x] + b, p) == Only(a + b + [x], p)
  {
    if x.priority == p {
      OnlyNone(b, p);
    } else {
      OnlyNone([x], p);
    }
    calc {
      Only(a + [x] + b, p);
      { OnlyConcat(a + [x], b, p); OnlyConcat(a, [x], p); }
      Only(a, p) + Only([x], p) + Only(b, p);
      Only(a, p) + Only(b, p) + Only([x], p);
      { OnlyConcat(a, b, p); OnlyConcat(a + b, [x], p); }
      Only(a + b + [x], p);
    }
  }

  /** An insertion puts the element last among those of its priority. */
  lemma InsertedStable(s: seq<Element>, x: Element, p: int)
    ensures Only(Inserted(s, x), p) == Only(s + [x], p)
  {
    var k := Slot(s, x.priority);
    assert s[..k] + s[k..] == s;
    OnlyMove(s[..k], x, s[k..], p);
  }

  lemma TakenNext(cap: nat, xs: seq<Element>)
    requires xs != []
    ensures var xs0, x := xs[..|xs| - 1], xs[|xs| - 1];
            Taken(cap, xs) == if |Taken(cap, xs0)| < cap then Taken(cap, xs0) + [x] else Taken(cap, xs0)
  {
  }

  /** After any insertions the array holds the elements taken, in descending order. */
  lemma {:induction false} RunsSort(cap: nat, xs: seq<Element>)
    ensures Descending(After(cap, xs))
    ensures multiset(After(cap, xs)) == multiset(Taken(cap, xs)) && |After(cap, xs)| == |Taken(cap, xs)|
  {
    if xs != [] {
      var xs0, x := xs[..|xs| - 1], xs[|xs| - 1];
      RunsSort(cap, xs0);
      TakenNext(cap, xs);
      InsertedDescending(After(cap, xs0), x);
      InsertedPermutes(After(cap, xs0), x);
    }
  }

  /** Those of equal priority stand in the order of their arrival. */
  lemma {:induction false} RunsAreStable(cap: nat, xs: seq<Element>, p: int)
    ensures Only(After(cap, xs), p) == Only(Taken(cap, xs), p)
  {
    if xs != [] {
      var xs0, x := xs[..|xs| - 1], xs[|xs| - 1];
      RunsAreStable(cap, xs0, p);
      RunsSort(cap, xs0);
      TakenNext(cap, xs);
      var s := After(cap, xs0);
      if |s| < cap {
        InsertedStable(s, x, p);
        OnlyConcat(s, [x], p);
        OnlyConcat(Taken(cap, xs0), [x], p);
      }
    }
  }

  lemma OnlyFront(s: seq<Element>, p: int)
    requires s != []
    ensures var o, last := Only(s, p), s[|s| - 1];
            Only(s[..|s| - 1], p) == if last.priority == p then o[..|o| - 1] else o
  {
  }

  /** There is only one stable descending sort. */
  lemma {:induction false} StableSortIsUnique(a: seq<Element>, b: seq<Element>)
    requires Descending(a) && Descending(b) && forall p :: Only(a, p) == Only(b, p)
    ensures a == b
  {
    if a == [] || b == [] {
      if a != [] {
        OnlyLast(a);
      } else if b != [] {
        OnlyLast(b);
      }
    } else {
      var p, q := a[|a| - 1].priority, b[|b| - 1].priority;
      OnlyLast(a);
      OnlyLast(b);
      OnlyMember(b, p);
      OnlyMember(a, q);
      assert p == q;
      var a0, b0 := a[..|a| - 1], b[..|b| - 1];
      forall r ensures Only(a0, r) == Only(b0, r) {
        assert Only(a, r) == Only(b, r);
        OnlyFront(a, r);
        OnlyFront(b, r);
      }
      StableSortIsUnique(a0, b0);
    }
  }

  lemma OnlyLast(s: seq<Element>)
    requires s != []
    ensures var o := Only(s, s[|s| - 1].priority); o != [] && o[|o| - 1] == s[|s| - 1]
  {
  }

  lemma {:induction false} OnlyMember(s: seq<Element>, p: int)
    requires Only(s, p) != []
    ensures exists i :: 0 <= i < |s| && s[i].priority == p
  {
    if forall i :: 0 <= i < |s| ==> s[i].priority != p {
      OnlyNone(s, p);
    }
  }
}
