/**
 Contacts in a doubly linked list ordered by id.  Ids are handed out by a counter, so that additions and
 removals in any order keep them strictly increasing.
 */
module ContactList {
  import opened ContactData

  // ---------- The list as a sequence ----------

  /** The first position whose id is at least `id`. */
  function Place(s: seq<Contact>, id: int): (k: nat)
    ensures k <= |s|
    ensures forall i :: 0 <= i < k ==> s[i].id < id
    ensures k < |s| ==> s[k].id >= id
  {
    if s == [] || s[0].id >= id then 0 else 1 + Place(s[1..], id)
  }

  function Inserted(s: seq<Contact>, c: Contact): seq<Contact> {
    s[..Place(s, c.id)] + [c] + s[Place(s, c.id)..]
  }

  /** The first position of `id`, or the length. */
  function Position(s: seq<Contact>, id: int): (k: nat)
    ensures k <= |s|
    ensures forall i :: 0 <= i < k ==> s[i].id != id
    ensures k < |s| ==> s[k].id == id
  {
    if s == [] || s[0].id == id then 0 else 1 + Position(s[1..], id)
  }

  function Removed(s: seq<Contact>, id: int): seq<Contact> {
    var k := Position(s, id);
    if k == |s| then s else s[..k] + s[k + 1..]
  }

  ghost predicate Increasing(s: seq<Contact>) {
    forall i, j :: 0 <= i < j < |s| ==> s[i].id < s[j].id
  }

  // ---------- The heap ----------

  class Node {
    var con: Contact
    var next: Node?
    var prev: Node?

    constructor (con: Contact)
      ensures this.con == con && next == null && prev == null
    {
      this.con := con;
      next, prev := null, null;
    }
  }

  /** The contacts of the nodes, in order. */
  ghost function ContactsOf(ns: seq<Node>): (s: seq<Contact>)
    reads ns
    ensures |s| == |ns|
  {
    seq(|ns|, i requires 0 <= i < |ns| reads ns => ns[i].con)
  }

  lemma ContactsWith(ns: seq<Node>, k: nat, n: Node)
    requires k <= |ns|
    ensures ContactsOf(ns[..k] + [n] + ns[k..]) == ContactsOf(ns)[..k] + [n.con] + ContactsOf(ns)[k..]
  {
  }

  lemma ContactsWithout(ns: seq<Node>, k: nat)
    requires k < |ns|
    ensures ContactsOf(ns[..k] + ns[k + 1..]) == ContactsOf(ns)[..k] + ContactsOf(ns)[k + 1..]
  {
  }

  ghost predicate Distinct(ns: seq<Node>) {
    forall i, j :: 0 <= i < j < |ns| ==> ns[i] != ns[j]
  }

  /** `next` and `prev` are the neighbours in `ns`, null at the ends: mutually inverse and without a cycle. */
  ghost predicate Linked(ns: seq<Node>)
    reads ns
  {
    && Distinct(ns)
    && (forall i {:trigger ns[i].next} :: 0 <= i < |ns| ==> ns[i].next == if i + 1 < |ns| then ns[i + 1] else null)
    && (forall i {:trigger ns[i].prev} :: 0 <= i < |ns| ==> ns[i].prev == if i > 0 then ns[i - 1] else null)
  }

  class Contacts {
    var head: Node?
    var contactCount: int
    ghost var nodes: seq<Node>

    ghost predicate Valid()
      reads this, nodes
    {
      Linked(nodes) && head == if nodes == [] then null else nodes[0]
    }

    ghost function Content(): seq<Contact>
      reads this, nodes
    {
      ContactsOf(nodes)
    }

    /** Ids increase strictly and the counter is beyond all of them. */
    ghost predicate Ordered()
      reads this, nodes
    {
      Increasing(Content()) && forall i :: 0 <= i < |nodes| ==> nodes[i].con.id < contactCount
    }

    constructor ()
      ensures Valid() && Ordered() && Content() == [] && contactCount == 0
    {
      head, contactCount, nodes := null, 0, [];
    }

    /** The walk to the first id that is not smaller. */
    method Walk(id: int) returns (current: Node?, ghost k: nat)
      requires Valid()
      ensures k == Place(Content(), id)
      ensures current == if k < |nodes| then nodes[k] else null
    {
      current, k := head, 0;
      while current != null && current.con.id < id
        invariant 0 <= k <= |nodes|
        invariant current == if k < |nodes| then nodes[k] else null
        invariant forall i :: 0 <= i < k ==> nodes[i].con.id < id
        decreases |nodes| - k
      {
        current := current.next;
        k := k + 1;
      }
      var s := Content();
      assert forall i :: 0 <= i < |s| ==> s[i] == nodes[i].con;
    }

    /** The walk to the last node. */
    method Last() returns (last: Node)
      requires Valid() && nodes != []
      ensures last == nodes[|nodes| - 1]
    {
      last := head;
      ghost var k := 0;
      while last.next != null
        invariant 0 <= k < |nodes| && last == nodes[k]
        decreases |nodes| - k
      {
        last := last.next;
        k := k + 1;
      }
    }

    /** The new node becomes the head. */
    method InsertFirst(n: Node)
      requires Valid() && nodes != [] && n !in nodes && n.next == null && n.prev == null
      modifies this`head, this`nodes, n`next, nodes
      ensures Valid() && nodes == [n] + old(nodes)
      ensures forall m :: m in old(nodes) ==> m.con == old(m.con)
    {
      n.next := head;
      head.prev := n;
      head := n;
      nodes := [n] + nodes;
    }

    /** The new node goes after the last one. */
    method InsertLast(n: Node)
      requires Valid() && nodes != [] && n !in nodes && n.next == null && n.prev == null
      modifies this`nodes, n`prev, nodes
      ensures Valid() && nodes == old(nodes) + [n]
      ensures forall m :: m in old(nodes) ==> m.con == old(m.con)
    {
      var last := Last();
      last.next := n;
      n.prev := last;
      nodes := nodes + [n];
    }

    /** The new node goes between node `k - 1` and node `k`. */
    method InsertBefore(n: Node, current: Node, ghost k: nat)
      requires Valid() && 0 < k < |nodes| && current == nodes[k] && n !in nodes
      modifies this`nodes, n`next, n`prev, nodes
      ensures Valid() && nodes == old(nodes)[..k] + [n] + old(nodes)[k..]
      ensures forall m :: m in old(nodes) ==> m.con == old(m.con)
    {
      n.next := current;
      n.prev := current.prev;
      current.prev.next := n;
      current.prev := n;
      nodes := nodes[..k] + [n] + nodes[k..];
    }

    /** A new node is linked in before the first id that is not smaller. */
    method LinkIn(n: Node) returns (ghost k: nat)
      requires Valid() && n !in nodes && n.next == null && n.prev == null
      modifies this`head, this`nodes, n`next, n`prev, nodes
      ensures Valid() && k == Place(old(Content()), n.con.id)
      ensures nodes == old(nodes)[..k] + [n] + old(nodes)[k..]
      ensures forall m :: m in old(nodes) ==> m.con == old(m.con)
    {
      if head == null {
        head := n;
        nodes, k := [n], 0;
        return;
      }
      var current;
      current, k := Walk(n.con.id);
      if current == head {
        assert k == 0;
        InsertFirst(n);
        assert nodes == old(nodes)[..0] + [n] + old(nodes)[0..];
      } else if current == null {
        assert k == |nodes|;
        InsertLast(n);
        assert nodes == old(nodes)[..k] + [n] + old(nodes)[k..];
      } else {
        InsertBefore(n, current, k);
      }
    }

    method Insert(c: Contact)
      requires Valid()
      modifies this`head, this`nodes, nodes
      ensures Valid() && Content() == Inserted(old(Content()), c)
      ensures forall n :: n in nodes ==> n in old(nodes) || fresh(n)
    {
      ghost var was := nodes;
      var newNode := new Node(c);
      ghost var k := LinkIn(newNode);
      assert ContactsOf(was) == old(Content());
      ContactsWith(was, k, newNode);
    }

    /** The walk to the first node with this id. */
    method Find(id: int) returns (current: Node?, ghost k: nat)
      requires Valid()
      ensures k == Position(Content(), id)
      ensures current == if k < |nodes| then nodes[k] else null
    {
      current, k := head, 0;
      while current != null && current.con.id != id
        invariant 0 <= k <= |nodes|
        invariant current == if k < |nodes| then nodes[k] else null
        invariant forall i :: 0 <= i < k ==> nodes[i].con.id != id
        decreases |nodes| - k
      {
        current := current.next;
        k := k + 1;
      }
      var s := Content();
      assert forall i :: 0 <= i < |s| ==> s[i] == nodes[i].con;
    }

    /** Node `k` is taken out. */
    method Unlink(current: Node, ghost k: nat)
      requires Valid() && k < |nodes| && current == nodes[k]
      modifies this`head, this`nodes, nodes
      ensures Valid() && nodes == old(nodes)[..k] + old(nodes)[k + 1..]
      ensures forall m :: m in old(nodes) ==> m.con == old(m.con)
    {
      if current == head {
        assert k == 0;
        head := current.next;
        if head != null {
          head.prev := null;
        }
        nodes := nodes[1..];
      } else {
        assert k > 0;
        if current.next != null {
          current.next.prev := current.prev;
        }
        if current.prev != null {
          current.prev.next := current.next;
        }
        nodes := nodes[..k] + nodes[k + 1..];
      }
    }

    method RemoveNode(id: int) returns (found: bool)
      requires Valid()
      modifies this`head, this`nodes, nodes
      ensures Valid() && Content() == Removed(old(Content()), id)
      ensures found <==> Position(old(Content()), id) < |old(nodes)|
      ensures found ==> var k := Position(old(Content()), id); nodes == old(nodes)[..k] + old(nodes)[k + 1..]
      ensures !found ==> nodes == old(nodes)
    {
      var current, k := Find(id);
      if current == null {
        return false;
      }
      Unlink(current, k);
      ghost var was := old(nodes);
      assert ContactsOf(was) == old(ContactsOf(nodes)) by {
        assert forall i :: 0 <= i < |was| ==> was[i].con == old(was[i].con);
      }
      ContactsWithout(was, k);
      return true;
    }

    /** addContact without the dialogue: the counter gives the id. */
    method AddContact(details: string)
      requires Valid() && Ordered()
      modifies this, nodes
      ensures Valid() && Ordered() && contactCount == old(contactCount) + 1
      ensures Content() == old(Content()) + [Contact(old(contactCount), details)]
      ensures forall n :: n in nodes ==> n in old(nodes) || fresh(n)
    {
      var c := Contact(contactCount, details);
      ghost var s := Content();
      contactCount := contactCount + 1;
      Insert(c);
      assert Place(s, c.id) == |s|;
      OrderedFrom(this, s + [c]);
    }

    /** The menu's removal, of any id. */
    method RemoveContact(id: int) returns (found: bool)
      requires Valid() && Ordered()
      modifies this`head, this`nodes, nodes
      ensures Valid() && Ordered() && Content() == Removed(old(Content()), id)
      ensures found <==> id in Ids(old(Content()))
      ensures forall n :: n in nodes ==> n in old(nodes)
    {
      ghost var s := Content();
      assert forall i :: 0 <= i < |s| ==> s[i] == nodes[i].con;
      RemovedIncreasing(s, id);
      RemovedBelow(s, id, contactCount);
      hide Removed;
      hide Increasing;
      found := RemoveNode(id);
      OrderedFrom(this, Removed(s, id));
    }
  }

  lemma OrderedFrom(l: Contacts, s: seq<Contact>)
    requires l.Content() == s && Increasing(s) && forall i :: 0 <= i < |s| ==> s[i].id < l.contactCount
    ensures l.Ordered()
  {
    forall i | 0 <= i < |l.nodes| ensures l.nodes[i].con.id < l.contactCount {
      assert s[i] == l.nodes[i].con;
    }
  }

  // ---------- What insertion and removal do to an increasing list ----------

  ghost function Ids(s: seq<Contact>): set<int> {
    set i | 0 <= i < |s| :: s[i].id
  }

  lemma IdsAround(a: seq<Contact>, x: Contact, b: seq<Contact>)
    ensures Ids(a + [x] + b) == Ids(a) + {x.id} + Ids(b)
    ensures Ids(a + b) == Ids(a) + Ids(b)
  {
    var t := a + [x] + b;
    assert t[|a|] == x;
    forall y | y in Ids(a) ensures y in Ids(t) && y in Ids(a + b) {
      var i :| 0 <= i < |a| && a[i].id == y;
      assert t[i].id == y && (a + b)[i].id == y;
    }
    forall y | y in Ids(b) ensures y in Ids(t) && y in Ids(a + b) {
      var i :| 0 <= i < |b| && b[i].id == y;
      assert t[|a| + 1 + i].id == y && (a + b)[|a| + i].id == y;
    }
  }

  lemma AbsentAround(s: seq<Contact>, k: nat)
    requires Increasing(s) && k < |s|
    ensures s[k].id !in Ids(s[..k]) && s[k].id !in Ids(s[k + 1..])
  {
  }

  /** An id that is not there yet goes in between the smaller and the greater ones. */
  lemma InsertedIncreasing(s: seq<Contact>, c: Contact)
    requires Increasing(s) && c.id !in Ids(s)
    ensures Increasing(Inserted(s, c))
  {
    var k := Place(s, c.id);
    forall i | k <= i < |s| ensures c.id < s[i].id {
      assert s[k].id in Ids(s);
    }
  }

  /** The ids are those before and the new one. */
  lemma InsertedIds(s: seq<Contact>, c: Contact)
    ensures Ids(Inserted(s, c)) == Ids(s) + {c.id}
  {
    var k := Place(s, c.id);
    IdsAround(s[..k], c, s[k..]);
    assert s[..k] + s[k..] == s;
  }

  /** Removing an id that was just inserted gives the list back. */
  lemma RemoveUndoesInsert(s: seq<Contact>, c: Contact)
    requires c.id !in Ids(s)
    ensures Removed(Inserted(s, c), c.id) == s
  {
    var k, t := Place(s, c.id), Inserted(s, c);
    forall i | 0 <= i < k ensures t[i].id != c.id {
      assert t[i] == s[i];
    }
    assert t[k] == c;
    assert Position(t, c.id) == k;
  }

  /** Removal keeps the others in order. */
  lemma RemovedIncreasing(s: seq<Contact>, id: int)
    requires Increasing(s)
    ensures Increasing(Removed(s, id))
  {
  }

  lemma RemovedBelow(s: seq<Contact>, id: int, bound: int)
    requires forall i :: 0 <= i < |s| ==> s[i].id < bound
    ensures forall i :: 0 <= i < |Removed(s, id)| ==> Removed(s, id)[i].id < bound
    ensures Position(s, id) < |s| <==> id in Ids(s)
  {
  }

  /** It takes out exactly the contact with that id. */
  lemma RemovedIds(s: seq<Contact>, id: int)
    requires Increasing(s)
    ensures Ids(Removed(s, id)) == Ids(s) - {id}
  {
    var k := Position(s, id);
    if k < |s| {
      AbsentAround(s, k);
      hide Ids;
      hide Increasing;
      IdsAround(s[..k], s[k], s[k + 1..]);
      assert s == s[..k] + [s[k]] + s[k + 1..];
      assert Removed(s, id) == s[..k] + s[k + 1..];
    } else {
      assert forall i :: 0 <= i < |s| ==> s[i].id != id;
    }
  }

  // ---------- Whole runs ----------

  datatype Command = Add(details: string) | Remove(id: int)

  /** How many contacts a run added: the counter after it. */
  function Added(cs: seq<Command>): nat {
    if cs == [] then 0 else Added(cs[..|cs| - 1]) + (if cs[|cs| - 1].Add? then 1 else 0)
  }

  function After(cs: seq<Command>): seq<Contact> {
    if cs == [] then []
    else
      var cs0 := cs[..|cs| - 1];
      match cs[|cs| - 1]
      case Add(details) => After(cs0) + [Contact(Added(cs0), details)]
      case Remove(id) => Removed(After(cs0), id)
  }

  /** Command `i` added contact `id`, and no later one removed it. */
  ghost predicate KeptFrom(cs: seq<Command>, id: int, i: nat) {
    && i < |cs| && cs[i].Add? && Added(cs[..i]) == id
    && forall j :: i < j < |cs| ==> cs[j] != Remove(id)
  }

  ghost predicate Kept(cs: seq<Command>, id: int) {
    exists i: nat :: KeptFrom(cs, id, i)
  }

  lemma KeptFromNext(cs: seq<Command>, id: int, i: nat)
    requires cs != []
    ensures var cs0, c := cs[..|cs| - 1], cs[|cs| - 1];
            KeptFrom(cs, id, i) <==>
              if i == |cs0| then c.Add? && Added(cs0) == id else KeptFrom(cs0, id, i) && c != Remove(id)
  {
    var cs0 := cs[..|cs| - 1];
    if i < |cs0| {
      assert cs0[..i] == cs[..i];
      assert forall j :: 0 <= j < |cs0| ==> cs0[j] == cs[j];
    }
  }

  lemma KeptNext(cs: seq<Command>, id: int)
    requires cs != []
    ensures var cs0, c := cs[..|cs| - 1], cs[|cs| - 1];
            Kept(cs, id) <==> (c.Add? && Added(cs0) == id) || (Kept(cs0, id) && c != Remove(id))
  {
    KeptFromNext(cs, id, |cs| - 1);
    if Kept(cs, id) {
      var i: nat :| KeptFrom(cs, id, i);
      KeptFromNext(cs, id, i);
    }
    if Kept(cs[..|cs| - 1], id) {
      var i: nat :| KeptFrom(cs[..|cs| - 1], id, i);
      KeptFromNext(cs, id, i);
    }
  }

  /** After every run the list holds exactly the contacts added and not removed since, in the order of
      strictly increasing ids. */
  lemma {:induction false} RunsKeepOrder(cs: seq<Command>, id: int)
    ensures Increasing(After(cs))
    ensures forall k :: k in Ids(After(cs)) ==> 0 <= k < Added(cs)
    ensures id in Ids(After(cs)) <==> Kept(cs, id)
  {
    if cs != [] {
      var cs0, c := cs[..|cs| - 1], cs[|cs| - 1];
      RunsKeepOrder(cs0, id);
      KeptNext(cs, id);
      var s := After(cs0);
      match c
      case Add(details) =>
        var x := Contact(Added(cs0), details);
        IdsAround(s, x, []);
        assert s + [x] + [] == s + [x];
        forall i | 0 <= i < |s| ensures s[i].id < x.id {
          assert s[i].id in Ids(s);
        }
      case Remove(k) =>
        RemovedIncreasing(s, k);
        RemovedIds(s, k);
    }
  }

  lemma RemovedKeepsOthers(s: seq<Contact>, id: int, x: Contact)
    requires x in s && x.id != id
    ensures x in Removed(s, id)
  {
    var i :| 0 <= i < |s| && s[i] == x;
    var k, t := Position(s, id), Removed(s, id);
    if k < |s| {
      assert t[if i < k then i else i - 1] == x;
    }
  }

  /** A contact that is kept has the text it was added with. */
  lemma {:induction false} RunsKeepContacts(cs: seq<Command>, id: int, i: nat)
    requires KeptFrom(cs, id, i)
    ensures Contact(id, cs[i].details) in After(cs)
  {
    var cs0, c := cs[..|cs| - 1], cs[|cs| - 1];
    KeptFromNext(cs, id, i);
    if i == |cs0| {
      assert After(cs)[|After(cs0)|] == Contact(id, c.details);
    } else {
      RunsKeepContacts(cs0, id, i);
      assert cs0[i] == cs[i];
      if c.Remove? {
        RemovedKeepsOthers(After(cs0), c.id, Contact(id, cs[i].details));
      }
    }
  }

  /** And the list holds nothing else. */
  lemma RunsHoldOnlyKept(cs: seq<Command>, x: Contact) returns (i: nat)
    requires x in After(cs)
    ensures KeptFrom(cs, x.id, i) && x == Contact(x.id, cs[i].details)
  {
    RunsKeepOrder(cs, x.id);
    var s := After(cs);
    var k :| 0 <= k < |s| && s[k] == x;
    assert s[k].id in Ids(s);
    i :| KeptFrom(cs, x.id, i);
    RunsKeepContacts(cs, x.id, i);
    var j :| 0 <= j < |s| && s[j] == Contact(x.id, cs[i].details);
    assert j == k;
  }

  /** Any sequence of the menu's commands, from the empty list. */
  method RunCommands(cs: seq<Command>) returns (l: Contacts)
    ensures l.Valid() && l.Ordered() && l.Content() == After(cs) && l.contactCount == Added(cs)
  {
    l := new Contacts();
    for i := 0 to |cs|
      invariant fresh(l) && fresh(set n | n in l.nodes) && l.Valid() && l.Ordered()
      invariant l.Content() == After(cs[..i]) && l.contactCount == Added(cs[..i])
    {
      assert cs[..i + 1][..i] == cs[..i];
      match cs[i] {
        case Add(details) => l.AddContact(details);
        case Remove(id) => var found := l.RemoveContact(id);
      }
    }
    assert cs[..|cs|] == cs;
  }
}
