/**
 The server's table of clients: 100 slots, an address and port of (0, 0) marking a free one.  The slots
 are proved to be a map from clients to message counts, over every run of messages and closes.
 */
module ClientTable {
  import opened Options

  const MAX_CLIENTS: nat := 100

  datatype Key = Key(ip: int, port: int)
  datatype Slot = Slot(key: Key, count: int)

  const FREE: Key := Key(0, 0)

  // ---------- The map ----------

  type Clients = map<Key, int>

  datatype Event = Message(key: Key) | Close(key: Key)

  /** A message is handled unless its sender is new and 100 clients are live. */
  predicate Admits(m: Clients, k: Key) {
    k in m || |m| < MAX_CLIENTS
  }

  /** The address (0, 0) is never entered. */
  function Step(m: Clients, e: Event): Clients {
    match e
    case Message(k) =>
      if k == FREE || !Admits(m, k) then m else m[k := if k in m then m[k] + 1 else 1]
    case Close(k) => m - {k}
  }

  // ---------- The slots as a map ----------

  ghost predicate OneSlotPerKey(s: seq<Slot>) {
    forall i, j :: 0 <= i < j < |s| && s[i].key != FREE ==> s[i].key != s[j].key
  }

  ghost function Keys(s: seq<Slot>): set<Key> {
    set i | 0 <= i < |s| && s[i].key != FREE :: s[i].key
  }

  ghost function IndexOf(s: seq<Slot>, k: Key): (i: nat)
    requires k in Keys(s)
    ensures i < |s| && s[i].key == k
  {
    var i :| 0 <= i < |s| && s[i].key == k;
    i
  }

  ghost function ViewOf(s: seq<Slot>): Clients {
    map k | k in Keys(s) :: s[IndexOf(s, k)].count
  }

  lemma ViewAt(s: seq<Slot>, i: nat)
    requires OneSlotPerKey(s) && i < |s| && s[i].key != FREE
    ensures s[i].key in ViewOf(s) && ViewOf(s)[s[i].key] == s[i].count
  {
    assert s[i].key in Keys(s);
    assert IndexOf(s, s[i].key) == i;
  }

  /** Changing slot `i` drops its old key and enters its new one. */
  lemma ViewUpdate(s: seq<Slot>, i: nat, x: Slot)
    requires OneSlotPerKey(s) && i < |s|
    requires x.key == FREE || x.key == s[i].key || x.key !in Keys(s)
    ensures OneSlotPerKey(s[i := x])
    ensures ViewOf(s[i := x])
         == if x.key == FREE then ViewOf(s) - {s[i].key} else (ViewOf(s) - {s[i].key})[x.key := x.count]
  {
    var t := s[i := x];
    assert OneSlotPerKey(t) by {
      forall a, b | 0 <= a < b < |t| && t[a].key != FREE ensures t[a].key != t[b].key {
        assert s[a].key != FREE ==> s[a].key in Keys(s);
        assert s[b].key != FREE ==> s[b].key in Keys(s);
      }
    }
    var want := if x.key == FREE then ViewOf(s) - {s[i].key} else (ViewOf(s) - {s[i].key})[x.key := x.count];
    forall k ensures k in ViewOf(t) <==> k in want
             ensures k in ViewOf(t) ==> ViewOf(t)[k] == want[k]
    {
      if k in Keys(t) {
        var j := IndexOf(t, k);
        ViewAt(t, j);
        if j != i {
          ViewAt(s, j);
        }
      }
      if k in Keys(s) {
        var j := IndexOf(s, k);
        if j != i {
          assert t[j].key in Keys(t);
        }
      }
      if k == x.key && k != FREE {
        assert t[i].key in Keys(t);
      }
    }
  }

  /** Fewer live clients than slots, iff a slot is free. */
  lemma {:induction false} FreeSlot(s: seq<Slot>)
    requires OneSlotPerKey(s)
    ensures |Keys(s)| <= |s|
    ensures |Keys(s)| < |s| <==> exists i :: 0 <= i < |s| && s[i].key == FREE
  {
    if s != [] {
      var s0, last := s[..|s| - 1], s[|s| - 1];
      FreeSlot(s0);
      assert forall i :: 0 <= i < |s0| ==> s0[i] == s[i];
      if last.key == FREE {
        assert Keys(s) == Keys(s0);
      } else {
        assert last.key !in Keys(s0);
        assert Keys(s) == Keys(s0) + {last.key};
      }
    }
  }

  // ---------- The code ----------

  class Server {
    const clients: array<Slot>

    ghost predicate Valid()
      reads clients
    {
      clients.Length == MAX_CLIENTS && OneSlotPerKey(clients[..])
    }

    ghost function View(): Clients
      reads clients
    {
      ViewOf(clients[..])
    }

    constructor ()
      ensures Valid() && View() == map[] && fresh(clients)
    {
      clients := new Slot[MAX_CLIENTS](_ => Slot(FREE, 0));
    }

    /** The first slot with this key, or -1. */
    method FindClientIndex(k: Key) returns (i: int)
      requires Valid()
      ensures -1 <= i < clients.Length
      ensures i >= 0 ==> clients[i].key == k
      ensures i < 0 ==> forall j :: 0 <= j < clients.Length ==> clients[j].key != k
      ensures k != FREE ==> (i >= 0 <==> k in View())
    {
      i := 0;
      while i < MAX_CLIENTS
        invariant 0 <= i <= MAX_CLIENTS
        invariant forall j :: 0 <= j < i ==> clients[j].key != k
      {
        if clients[i].key == k {
          if k != FREE {
            ViewAt(clients[..], i);
          }
          return;
        }
        i := i + 1;
      }
      i := -1;
    }

    /** A client that is not in the table gets a free slot and count 0, if there is one. */
    method AddClient(k: Key) returns (i: int)
      requires Valid() && k !in View()
      modifies clients
      ensures Valid() && -1 <= i < clients.Length
      ensures i < 0 <==> |old(View())| >= MAX_CLIENTS
      ensures i < 0 ==> clients[..] == old(clients[..])
      ensures i >= 0 ==> clients[i] == Slot(k, 0)
      ensures i >= 0 ==> View() == if k == FREE then old(View()) else old(View())[k := 0]
    {
      FreeSlot(clients[..]);
      assert View().Keys == Keys(clients[..]);
      i := 0;
      while i < MAX_CLIENTS
        invariant 0 <= i <= MAX_CLIENTS
        invariant clients[..] == old(clients[..])
        invariant forall j :: 0 <= j < i ==> clients[j].key != FREE
      {
        if clients[i].key == FREE {
          ViewUpdate(clients[..], i, Slot(k, 0));
          assert View() - {FREE} == View();
          clients[i] := Slot(k, 0);
          assert clients[..] == old(clients[..])[i := Slot(k, 0)];
          return;
        }
        i := i + 1;
      }
      i := -1;
    }

    method RemoveClient(k: Key)
      requires Valid()
      modifies clients
      ensures Valid() && View() == old(View()) - {k}
    {
      var i := FindClientIndex(k);
      if i != -1 {
        ViewUpdate(clients[..], i, Slot(FREE, 0));
        clients[i] := Slot(FREE, 0);
        assert clients[..] == old(clients[..])[i := Slot(FREE, 0)];
      } else {
        assert k !in View();
      }
    }

    /** The client's slot, found or added; -1 when the packet is refused. */
    method SlotFor(k: Key) returns (i: int)
      requires Valid()
      modifies clients
      ensures Valid() && -1 <= i < clients.Length
      ensures i >= 0 <==> Admits(old(View()), k)
      ensures i < 0 ==> View() == old(View())
      ensures i >= 0 ==> clients[i].key == k
      ensures i >= 0 ==> View() == if k == FREE || k in old(View()) then old(View()) else old(View())[k := 0]
    {
      FreeSlot(clients[..]);
      assert View().Keys == Keys(clients[..]);
      i := FindClientIndex(k);
      if i == -1 {
        i := AddClient(k);
      }
    }

    /** clients[i].count++ */
    method Bump(i: nat)
      requires Valid() && i < clients.Length
      modifies clients
      ensures Valid() && clients[i] == Slot(old(clients[i].key), old(clients[i].count) + 1)
      ensures View() == if clients[i].key == FREE then old(View()) else old(View())[clients[i].key := clients[i].count]
      ensures clients[i].key != FREE ==>
                clients[i].key in old(View()) && clients[i].count == old(View())[clients[i].key] + 1
    {
      ghost var s := clients[..];
      var x := Slot(clients[i].key, clients[i].count + 1);
      ViewUpdate(s, i, x);
      if x.key != FREE {
        ViewAt(s, i);
      } else {
        assert ViewOf(s) - {FREE} == ViewOf(s);
      }
      clients[i] := x;
      assert clients[..] == s[i := x];
    }

    /** One received packet: `reply` is the count the reply carries, None when nothing is sent. */
    method Receive(k: Key, isClose: bool) returns (reply: Option<int>)
      requires Valid()
      modifies clients
      ensures Valid() && View() == Step(old(View()), if isClose then Close(k) else Message(k))
      ensures reply.Some? <==> !isClose && Admits(old(View()), k)
      ensures reply.Some? && k != FREE ==> k in View() && reply.value == View()[k]
    {
      hide ViewOf;
      hide OneSlotPerKey;
      if isClose {
        RemoveClient(k);
        return None;
      }
      var i := SlotFor(k);
      if i == -1 {
        return None;
      }
      Bump(i);
      reply := Some(clients[i].count);
    }
  }

  // ---------- Whole runs ----------

  /** The clients after the events of `es`. */
  function After(es: seq<Event>): Clients {
    if es == [] then map[] else Step(After(es[..|es| - 1]), es[|es| - 1])
  }

  /** The messages of `k` that were answered since its last close. */
  function Handled(es: seq<Event>, k: Key): nat {
    if es == [] then 0
    else
      var es0 := es[..|es| - 1];
      match es[|es| - 1]
      case Close(q) => if q == k then 0 else Handled(es0, k)
      case Message(q) => Handled(es0, k) + (if q == k && Admits(After(es0), k) then 1 else 0)
  }

  /** In every run each client's count is the number of its messages handled since its registration or last
      close, a client is live iff that number is not zero, and there are never more than 100. */
  lemma {:induction false} CountsAreHandledMessages(es: seq<Event>, k: Key)
    requires k != FREE
    ensures k in After(es) <==> Handled(es, k) > 0
    ensures k in After(es) ==> After(es)[k] == Handled(es, k)
    ensures |After(es)| <= 100 && FREE !in After(es)
  {
    if es != [] {
      var m, e := After(es[..|es| - 1]), es[|es| - 1];
      CountsAreHandledMessages(es[..|es| - 1], k);
      match e
      case Message(q) =>
        assert q !in m ==> m[q := 1].Keys == m.Keys + {q};
        assert q in m ==> m[q := m[q] + 1].Keys == m.Keys;
      case Close(q) =>
        assert (m - {q}).Keys == m.Keys - {q};
        SubsetSize(m.Keys - {q}, m.Keys);
    }
  }

  lemma SubsetSize<T>(a: set<T>, b: set<T>)
    requires a <= b
    ensures |a| <= |b|
  {
    assert b == a + (b - a);
  }

  /** A message goes unanswered only if its sender is not live and 100 other clients are. */
  lemma RefusedOnlyWhenFull(es: seq<Event>, k: Key)
    requires k != FREE && !Admits(After(es), k)
    ensures Handled(es, k) == 0 && |After(es)| == 100
    ensures forall q :: q in After(es) ==> q != k && Handled(es, q) > 0
  {
    CountsAreHandledMessages(es, k);
    forall q | q in After(es) ensures q != k && Handled(es, q) > 0 {
      CountsAreHandledMessages(es, q);
    }
  }

  /** The right answer to the `i`th packet: the client's messages handled so far, or none when refused. */
  ghost predicate RightReply(es: seq<Event>, i: nat, reply: Option<int>)
    requires i < |es|
  {
    es[i].key != FREE ==>
      reply == if es[i].Message? && Admits(After(es[..i]), es[i].key)
               then Some(Handled(es[..i + 1], es[i].key)) else None
  }

  lemma EmptyRun(es: seq<Event>)
    ensures After(es[..0]) == map[]
  {
  }

  lemma AnswerIsRight(es: seq<Event>, n: nat, reply: Option<int>)
    requires n < |es|
    requires reply.Some? <==> es[n].Message? && Admits(After(es[..n]), es[n].key)
    requires var m := Step(After(es[..n]), es[n]);
             reply.Some? && es[n].key != FREE ==> es[n].key in m && reply.value == m[es[n].key]
    ensures RightReply(es, n, reply)
    ensures After(es[..n + 1]) == Step(After(es[..n]), es[n])
  {
    assert es[..n + 1][..n] == es[..n];
    if es[n].key != FREE {
      CountsAreHandledMessages(es[..n + 1], es[n].key);
    }
  }

  /** The server loop over a run of packets ends with the map of that run and answers each packet right. */
  method Serve(es: seq<Event>) returns (server: Server, replies: seq<Option<int>>)
    ensures server.Valid() && server.View() == After(es)
    ensures |replies| == |es|
    ensures forall i :: 0 <= i < |es| ==> RightReply(es, i, replies[i])
  {
    hide ViewOf;
    hide Handled;
    hide After;
    server := new Server();
    replies := [];
    EmptyRun(es);
    for n := 0 to |es|
      invariant |replies| == n
      invariant fresh(server.clients) && server.Valid() && server.View() == After(es[..n])
      invariant forall i :: 0 <= i < n ==> RightReply(es, i, replies[i])
    {
      var reply := server.Receive(es[n].key, es[n].Close?);
      AnswerIsRight(es, n, reply);
      replies := replies + [reply];
    }
    assert es[..|es|] == es;
  }
}
