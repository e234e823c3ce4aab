/**
 Contacts in a binary search tree.  `Tree` is the shape of the heap structure; the functions follow the
 recursion of the code and are proved to be operations of a finite map from ids to contacts.
 `TreeHeap` proves that the code on heap nodes computes these functions in place.
 */
module SearchTree {
  import opened ContactData
  import opened Options

  datatype Tree = Leaf | Node(left: Tree, con: Contact, right: Tree)

  // ---------- What the code computes ----------

  function Insert(t: Tree, c: Contact): Tree {
    match t
    case Leaf => Node(Leaf, c, Leaf)
    case Node(l, x, r) =>
      if c.id < x.id then Node(Insert(l, c), x, r)
      else if c.id > x.id then Node(l, x, Insert(r, c))
      else t
  }

  function Search(t: Tree, id: int): Option<Contact> {
    match t
    case Leaf => None
    case Node(l, x, r) => if x.id == id then Some(x) else if id < x.id then Search(l, id) else Search(r, id)
  }

  function Min(t: Tree): Contact
    requires t.Node?
  {
    if t.left == Leaf then t.con else Min(t.left)
  }

  /** None when the recursion reaches a null pointer, where the code returns no value. */
  function Delete(t: Tree, id: int): Option<Tree> {
    match t
    case Leaf => None
    case Node(l, x, r) =>
      if id < x.id then
        var l' := Delete(l, id);
        if l'.None? then None else Some(Node(l'.value, x, r))
      else if id > x.id then
        var r' := Delete(r, id);
        if r'.None? then None else Some(Node(l, x, r'.value))
      else if l == Leaf then Some(r)
      else if r == Leaf then Some(l)
      else
        var m := Min(r);
        var r' := Delete(r, m.id);
        if r'.None? then None else Some(Node(l, m, r'.value))
  }

  // ---------- The map ----------

  type Book = map<int, Contact>

  function Join(a: Book, x: Contact, b: Book): Book {
    (a + b)[x.id := x]
  }

  function Contents(t: Tree): Book {
    match t
    case Leaf => map[]
    case Node(l, x, r) => Join(Contents(l), x, Contents(r))
  }

  /** Smaller ids on the left, greater ones on the right, at every node. */
  predicate Ordered(t: Tree) {
    t.Node? ==>
      && Ordered(t.left) && Ordered(t.right)
      && (forall k :: k in Contents(t.left) ==> k < t.con.id)
      && (forall k :: k in Contents(t.right) ==> t.con.id < k)
  }

  function Size(t: Tree): nat {
    if t == Leaf then 0 else Size(t.left) + 1 + Size(t.right)
  }

  /** Every contact is filed under its own id. */
  lemma {:induction false} FiledById(t: Tree)
    ensures forall k :: k in Contents(t) ==> Contents(t)[k].id == k
  {
    if t.Node? {
      FiledById(t.left);
      FiledById(t.right);
    }
  }

  lemma {:induction false} SearchLooksUp(t: Tree, id: int)
    requires Ordered(t)
    ensures Search(t, id) == if id in Contents(t) then Some(Contents(t)[id]) else None
  {
    if t.Node? {
      SearchLooksUp(t.left, id);
      SearchLooksUp(t.right, id);
    }
  }

  lemma JoinAdd(a: Book, x: Contact, b: Book, c: Contact)
    requires c.id != x.id
    ensures c.id !in b ==> Join(a[c.id := c], x, b) == Join(a, x, b)[c.id := c]
    ensures Join(a, x, b[c.id := c]) == Join(a, x, b)[c.id := c]
  {
  }

  lemma JoinDrop(a: Book, x: Contact, b: Book, id: int)
    requires id != x.id
    ensures id !in b ==> Join(a - {id}, x, b) == Join(a, x, b) - {id}
    ensures id !in a ==> Join(a, x, b - {id}) == Join(a, x, b) - {id}
  {
  }

  /** Moving the contact `m` of `b` to the root in place of `x` keeps every other contact. */
  lemma JoinReplace(a: Book, x: Contact, b: Book, m: Contact)
    requires x.id !in a && x.id !in b && m.id in b && b[m.id] == m
    ensures Join(a, m, b - {m.id}) == Join(a, x, b) - {x.id}
  {
  }

  lemma JoinAlone(a: Book, x: Contact)
    requires x.id !in a
    ensures Join(a, x, map[]) - {x.id} == a && Join(map[], x, a) - {x.id} == a
  {
  }

  /** Insertion adds the contact iff its id is absent, and otherwise changes nothing. */
  lemma {:induction false} InsertRefinesMap(t: Tree, c: Contact)
    requires Ordered(t)
    ensures Ordered(Insert(t, c))
    ensures c.id in Contents(t) ==> Insert(t, c) == t
    ensures c.id !in Contents(t) ==> Contents(Insert(t, c)) == Contents(t)[c.id := c]
  {
    if t.Node? {
      var a, b := Contents(t.left), Contents(t.right);
      if c.id < t.con.id {
        InsertRefinesMap(t.left, c);
        JoinAdd(a, t.con, b, c);
      } else if c.id > t.con.id {
        InsertRefinesMap(t.right, c);
        JoinAdd(a, t.con, b, c);
      }
    } else {
      assert Join(map[], c, map[]) == map[c.id := c];
    }
  }

  lemma {:induction false} MinIsLeast(t: Tree)
    requires Ordered(t) && t.Node?
    ensures Min(t).id in Contents(t) && Contents(t)[Min(t).id] == Min(t)
    ensures forall k :: k in Contents(t) ==> Min(t).id <= k
  {
    if t.left != Leaf {
      MinIsLeast(t.left);
    }
  }

  /** Deletion reaches the branch without a value iff the id is absent; otherwise it removes exactly that id
      and keeps the order. */
  lemma {:induction false} DeleteRefinesMap(t: Tree, id: int)
    requires Ordered(t)
    ensures Delete(t, id).Some? <==> id in Contents(t)
    ensures Delete(t, id).Some? ==> Ordered(Delete(t, id).value) && Contents(Delete(t, id).value) == Contents(t) - {id}
    decreases t
  {
    if t.Node? {
      var a, x, b := Contents(t.left), t.con, Contents(t.right);
      if id < x.id {
        DeleteRefinesMap(t.left, id);
        JoinDrop(a, x, b, id);
      } else if id > x.id {
        DeleteRefinesMap(t.right, id);
        JoinDrop(a, x, b, id);
      } else if t.left == Leaf {
        JoinAlone(b, x);
      } else if t.right == Leaf {
        JoinAlone(a, x);
      } else {
        var m := Min(t.right);
        MinIsLeast(t.right);
        DeleteRefinesMap(t.right, m.id);
        JoinReplace(a, x, b, m);
      }
    }
  }

  /** Without the menu's search, deleting an id that is absent runs into the branch without a value. */
  lemma AbsentIdCounterexample()
    ensures Delete(Leaf, 1) == None
    ensures Delete(Insert(Leaf, Contact(1, "")), 2) == None
  {
  }

  /** A deletion that returns has taken away one node. */
  lemma {:induction false} DeleteFreesOne(t: Tree, id: int)
    requires Delete(t, id).Some?
    ensures Size(Delete(t, id).value) == Size(t) - 1
    decreases t
  {
    if id < t.con.id {
      DeleteFreesOne(t.left, id);
    } else if id > t.con.id {
      DeleteFreesOne(t.right, id);
    } else if t.left != Leaf && t.right != Leaf {
      DeleteFreesOne(t.right, Min(t.right).id);
    }
  }

  // ---------- Whole runs ----------

  datatype Command = Add(con: Contact) | Remove(id: int)

  /** The menu's add and delete; the latter searches first. */
  function Do(t: Tree, c: Command): Option<Tree> {
    match c
    case Add(con) => Some(Insert(t, con))
    case Remove(id) => if Search(t, id).Some? then Delete(t, id) else Some(t)
  }

  function DoMap(m: Book, c: Command): Book {
    match c
    case Add(con) => if con.id in m then m else m[con.id := con]
    case Remove(id) => m - {id}
  }

  function DoAll(cs: seq<Command>): Option<Tree> {
    if cs == [] then Some(Leaf)
    else
      var t := DoAll(cs[..|cs| - 1]);
      if t.None? then None else Do(t.value, cs[|cs| - 1])
  }

  function DoAllMap(cs: seq<Command>): Book {
    if cs == [] then map[] else DoMap(DoAllMap(cs[..|cs| - 1]), cs[|cs| - 1])
  }

  /** Every run of commands never reaches the branch without a value and is the run of the map. */
  lemma {:induction false} RunsRefineMap(cs: seq<Command>)
    ensures DoAll(cs).Some? && Ordered(DoAll(cs).value) && Contents(DoAll(cs).value) == DoAllMap(cs)
  {
    if cs != [] {
      var cs0, c := cs[..|cs| - 1], cs[|cs| - 1];
      RunsRefineMap(cs0);
      var t := DoAll(cs0).value;
      match c
      case Add(con) => InsertRefinesMap(t, con);
      case Remove(id) =>
        SearchLooksUp(t, id);
        DeleteRefinesMap(t, id);
        assert id !in Contents(t) ==> Contents(t) - {id} == Contents(t);
    }
  }
}
