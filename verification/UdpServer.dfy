/** The server loop: received packets through the table of clients to the packets sent back. */
module UdpServer {
  import opened Checksum
  import opened Options
  import ClientTable
  import UdpReply

  type Key = ClientTable.Key
  type Event = ClientTable.Event
  type Address = UdpReply.Address
  type Field16 = UdpReply.Field16

  /** A packet for the server's port.  `data` is its text up to the NUL; `past` is the byte that will lie behind the
      buffer of the reply's checksum. */
  datatype Packet = Packet(saddr: Address, daddr: Address, source: Field16, dest: Field16, data: seq<Byte>, past: Byte)

  /** What the server does with a packet; `Overrun` when the reply runs past its buffer. */
  datatype Answer = Silent | Overrun | Sent(bytes: seq<Byte>)

  function CloseText(): seq<Byte> {
    UdpReply.Ascii("CLOSE_CONNECTION")
  }

  /** The address as the machine loads it, and the port after ntohs. */
  function KeyOf(saddr: Address, source: Field16): Key {
    ClientTable.Key(Little(saddr[0], saddr[1]) + 0x1_0000 * Little(saddr[2], saddr[3]), Big(source[0], source[1]))
  }

  function Sender(p: Packet): Key {
    KeyOf(p.saddr, p.source)
  }

  function EventOf(p: Packet): Event {
    if p.data == CloseText() then ClientTable.Close(Sender(p)) else ClientTable.Message(Sender(p))
  }

  function Events(ps: seq<Packet>): (es: seq<Event>)
    ensures |es| == |ps|
    ensures forall i :: 0 <= i < |ps| ==> es[i] == EventOf(ps[i])
  {
    seq(|ps|, i requires 0 <= i < |ps| => EventOf(ps[i]))
  }

  lemma WordParts(a: Byte, b: Byte, c: Byte, d: Byte)
    requires Little(a, b) == Little(c, d) || Big(b, a) == Big(d, c)
    ensures a == c && b == d
  {
  }

  lemma Halves(x: Word, y: Word, u: Word, v: Word)
    requires x + 0x1_0000 * y == u + 0x1_0000 * v
    ensures x == u && y == v
  {
  }

  lemma SameAddress(a: Address, b: Address)
    requires KeyOf(a, [0, 0]).ip == KeyOf(b, [0, 0]).ip
    ensures a == b
  {
    Halves(Little(a[0], a[1]), Little(a[2], a[3]), Little(b[0], b[1]), Little(b[2], b[3]));
    WordParts(a[0], a[1], b[0], b[1]);
    WordParts(a[2], a[3], b[2], b[3]);
  }

  /** Two packets are counted together iff they come from the same address and port. */
  lemma SenderIsAddress(a: Address, p: Field16, b: Address, q: Field16)
    ensures KeyOf(a, p) == KeyOf(b, q) <==> a == b && p == q
  {
    if KeyOf(a, p) == KeyOf(b, q) {
      SameAddress(a, b);
      WordParts(p[1], p[0], q[1], q[0]);
    }
  }

  /** The right answer to packet `i`: none to a close or a refused client; else the packet's data, a blank and the
      number of the client's messages handled, sent back where the packet came from. */
  ghost predicate RightAnswer(ps: seq<Packet>, i: nat, a: Answer)
    requires i < |ps|
  {
    var p, es := ps[i], Events(ps);
    Sender(p) != ClientTable.FREE ==>
      var close := p.data == UdpReply.Ascii("CLOSE_CONNECTION");
      if close || !ClientTable.Admits(ClientTable.After(es[..i]), Sender(p)) then a == Silent
      else
        var text := UdpReply.ReplyText(p.data, ClientTable.Handled(es[..i + 1], Sender(p)));
        if UdpReply.Fits(text) then a.Sent? && Carries(a.bytes, p, text) else a == Overrun
  }

  /** A packet to the sender of `p` with this text and a header that checks to zero. */
  ghost predicate Carries(bytes: seq<Byte>, p: Packet, text: seq<Byte>) {
    && |bytes| == |text| + 29
    && UdpReply.Addressed(bytes, p.saddr, p.daddr, p.source, p.dest)
    && bytes[28..] == text + [0]
    && Complement(BigWords(bytes[..20])) == 0
    && (Complement(BigWords(UdpReply.ReceiverBytes(bytes))) == 0 <==> |text| % 2 == 1 || p.past == 0)
  }

  /** From the count to the packet. */
  method Reply(p: Packet, count: int) returns (a: Answer)
    ensures var text := UdpReply.ReplyText(p.data, count);
            if UdpReply.Fits(text) then a.Sent? && Carries(a.bytes, p, text) else a == Overrun
  {
    var text := UdpReply.ReplyText(p.data, count);
    var reply := UdpReply.BuildReply(p.saddr, p.daddr, p.source, p.dest, text, p.past);
    a := if reply.Some? then Sent(reply.value) else Overrun;
  }

  lemma AnswerFromCount(ps: seq<Packet>, n: nat, count: Option<int>, a: Answer)
    requires n < |ps|
    requires ClientTable.RightReply(Events(ps), n, count)
    requires count.None? ==> a == Silent
    requires count.Some? ==>
               var text := UdpReply.ReplyText(ps[n].data, count.value);
               if UdpReply.Fits(text) then a.Sent? && Carries(a.bytes, ps[n], text) else a == Overrun
    ensures RightAnswer(ps, n, a)
  {
  }

  /** The loop over any run of packets answers each one right.  It ends early only at a reply that runs past its
      buffer, after which the program's state is not defined. */
  method Serve(ps: seq<Packet>) returns (answers: seq<Answer>)
    ensures |answers| <= |ps|
    ensures forall i :: 0 <= i < |answers| ==> RightAnswer(ps, i, answers[i])
    ensures forall i :: 0 <= i < |answers| - 1 ==> answers[i] != Overrun
    ensures |answers| < |ps| ==> answers != [] && answers[|answers| - 1] == Overrun
  {
    hide RightAnswer;
    hide Carries;
    hide ClientTable.ViewOf;
    hide ClientTable.Handled;
    hide ClientTable.After;
    hide ClientTable.RightReply;
    hide UdpReply.ReplyText;
    answers := [];
    var server := new ClientTable.Server();
    ghost var es := Events(ps);
    ClientTable.EmptyRun(es);
    var n := 0;
    while n < |ps|
      invariant 0 <= n == |answers| <= |ps|
      invariant fresh(server.clients) && server.Valid() && server.View() == ClientTable.After(es[..n])
      invariant forall i :: 0 <= i < n ==> RightAnswer(ps, i, answers[i]) && answers[i] != Overrun
    {
      var p := ps[n];
      var count := server.Receive(Sender(p), p.data == CloseText());
      ClientTable.AnswerIsRight(es, n, count);
      var a := Silent;
      if count.Some? {
        a := Reply(p, count.value);
      }
      AnswerFromCount(ps, n, count, a);
      answers := answers + [a];
      n := n + 1;
      if a == Overrun {
        return;
      }
    }
  }
}
