/** The character device: exclusive open, one message per open, read in pieces of any length. */
module CharDevice {
  import opened Decimal

  /** What the open number `counter` writes into the buffer. */
  function Message(counter: nat): string {
    "I already told you " + Print(counter) + " times Hello world!\n"
  }

  /** The message says that hello was told `n` times: the number stands in digits between the two fixed parts. */
  ghost predicate Tells(msg: string, n: nat) {
    && |msg| >= 39
    && msg[..19] == "I already told you " && msg[|msg| - 20..] == " times Hello world!\n"
    && (forall i :: 19 <= i < |msg| - 20 ==> IsDigit(msg[i]))
    && ValueOf(msg[19..|msg| - 20]) == n
  }

  lemma MessageTells(counter: nat)
    ensures Tells(Message(counter), counter)
  {
    var msg, front, back := Message(counter), "I already told you ", " times Hello world!\n";
    assert |front| == 19 && |back| == 20;
    assert msg == front + (Digits(counter) + back);
    assert msg[19..|msg| - 20] == Digits(counter);
    assert forall i :: 19 <= i < |msg| - 20 ==> msg[i] == Digits(counter)[i - 19];
    ValueOfDigits(counter);
  }

  /** The message of any 32-bit counter fits the buffer with its terminator. */
  lemma MessageFits(counter: nat)
    requires counter < 0x8000_0000
    ensures 0 < |Message(counter)| < 80
  {
    PrintLength(counter);
  }

  // ---------- The device ----------

  datatype Dev = Dev(alreadyOpen: bool, counter: nat, msg: string)

  function Opened(d: Dev): Dev {
    if d.alreadyOpen then d else Dev(true, d.counter + 1, Message(d.counter))
  }

  /** How many characters a read of `length` at `offset` gives. */
  function Available(msg: string, offset: nat, length: nat): (n: nat)
    requires offset <= |msg|
    ensures n <= length && n <= |msg| - offset
    ensures n == length || n == |msg| - offset
  {
    if length <= |msg| - offset then length else |msg| - offset
  }

  function NextOffset(msg: string, offset: nat, length: nat): (o: nat)
    requires offset <= |msg|
    ensures o <= |msg|
  {
    if offset == |msg| then 0 else offset + Available(msg, offset, length)
  }

  class Device {
    var alreadyOpen: bool
    var counter: nat
    var msg: string

    ghost function Value(): Dev
      reads this
    {
      Dev(alreadyOpen, counter, msg)
    }

    constructor ()
      ensures Value() == Dev(false, 0, "")
    {
      alreadyOpen, counter, msg := false, 0, "";
    }

    method Open() returns (ok: bool)
      modifies this
      ensures Value() == Opened(old(Value())) && ok == !old(alreadyOpen)
    {
      if alreadyOpen {
        return false;
      }
      alreadyOpen := true;
      msg := Message(counter);
      counter := counter + 1;
      return true;
    }

    method Release()
      modifies this
      ensures Value() == old(Value()).(alreadyOpen := false)
    {
      alreadyOpen := false;
    }

    /** The copying loop; `buffer` is what reaches the caller. */
    method Read(length: nat, offset: nat) returns (buffer: string, newOffset: nat)
      requires offset <= |msg|
      ensures buffer == msg[offset..offset + Available(msg, offset, length)]
      ensures newOffset == NextOffset(msg, offset, length)
    {
      buffer := "";
      if offset == |msg| {
        assert msg[offset..offset] == "";
        return buffer, 0;
      }
      var left, ptr := length, offset;
      while left > 0 && ptr < |msg|
        invariant offset <= ptr <= |msg| && left >= 0 && left + (ptr - offset) == length
        invariant buffer == msg[offset..ptr]
      {
        buffer := buffer + [msg[ptr]];
        ptr := ptr + 1;
        left := left - 1;
      }
      newOffset := offset + |buffer|;
    }
  }

  // ---------- Runs of opens, reads and releases of any files ----------

  datatype Step = Open(f: int) | Read(f: int, length: nat) | Release(f: int)

  /** `files` holds the offset of every open file. */
  datatype Sys = Sys(dev: Dev, files: map<int, nat>)

  ghost predicate Enabled(s: Sys, st: Step) {
    match st
    case Open(f) => f !in s.files
    case Read(f, _) => f in s.files && s.files[f] <= |s.dev.msg|
    case Release(f) => f in s.files
  }

  ghost function Next(s: Sys, st: Step): Sys
    requires Enabled(s, st)
  {
    match st
    case Open(f) => Sys(Opened(s.dev), if s.dev.alreadyOpen then s.files else s.files[f := 0])
    case Read(f, n) => s.(files := s.files[f := NextOffset(s.dev.msg, s.files[f], n)])
    case Release(f) => Sys(s.dev.(alreadyOpen := false), s.files - {f})
  }

  datatype Run = Begin | Then(prev: Run, step: Step)

  ghost predicate Legal(r: Run)
    decreases r, 0
  {
    r.Then? ==> Legal(r.prev) && Enabled(State(r.prev), r.step)
  }

  ghost function State(r: Run): Sys
    requires Legal(r)
    decreases r, 1
  {
    match r
    case Begin => Sys(Dev(false, 0, ""), map[])
    case Then(p, st) => Next(State(p), st)
  }

  /** What a read returns. */
  ghost function Result(s: Sys, f: int, length: nat): string
    requires Enabled(s, Read(f, length))
  {
    s.dev.msg[s.files[f]..s.files[f] + Available(s.dev.msg, s.files[f], length)]
  }

  /** What `f` has read since it was opened or since the end of the message was reported to it. */
  ghost function Output(r: Run, f: int): string
    requires Legal(r)
  {
    match r
    case Begin => ""
    case Then(p, st) =>
      match st
      case Open(g) => if g == f then "" else Output(p, f)
      case Release(_) => Output(p, f)
      case Read(g, n) =>
        if g != f then Output(p, f)
        else if State(p).files[f] == |State(p).dev.msg| then ""
        else Output(p, f) + Result(State(p), f, n)
  }

  /** The flag is set iff a file is open, and `f` is the only one if it is. */
  ghost predicate Exclusive(s: Sys, f: int) {
    && (s.dev.alreadyOpen <==> s.files != map[])
    && (f in s.files ==> s.files.Keys == {f} && s.dev.counter > 0 && s.dev.msg == Message(s.dev.counter - 1))
  }

  lemma StepExclusive(s: Sys, st: Step, f: int)
    requires Enabled(s, st) && Exclusive(s, f) && Exclusive(s, st.f)
    ensures Exclusive(Next(s, st), f)
  {
    match st
    case Open(g) =>
      if !s.dev.alreadyOpen {
        assert Next(s, st).files == map[g := 0];
      }
    case Read(g, n) => assert Next(s, st).files.Keys == s.files.Keys;
    case Release(g) =>
      assert s.files.Keys == {g};
      assert (s.files - {g}).Keys == {};
  }

  ghost predicate ReadUpTo(s: Sys, f: int, output: string) {
    f in s.files ==> s.files[f] <= |s.dev.msg| && output == s.dev.msg[..s.files[f]]
  }

  /** At most one file is open, and an open file has read the message of its open up to its offset. */
  lemma {:induction false} SessionsAreExclusive(r: Run, f: int)
    requires Legal(r)
    ensures Exclusive(State(r), f) && ReadUpTo(State(r), f, Output(r, f))
    decreases r
  {
    if r.Then? {
      var s, st := State(r.prev), r.step;
      SessionsAreExclusive(r.prev, f);
      SessionsAreExclusive(r.prev, st.f);
      StepExclusive(s, st, f);
      if st.Open? && !s.dev.alreadyOpen {
        assert s.files == map[];
      }
    }
  }

  /** In every reachable state anyone may try to open: it succeeds iff no file is open, and then starts at offset
      0.  The open file may always be released, which frees the device. */
  lemma OpenIffFree(r: Run, f: int)
    requires Legal(r)
    ensures var s := State(r);
            f !in s.files ==>
              && Enabled(s, Open(f))
              && Next(s, Open(f)).files == if s.files == map[] then map[f := 0] else s.files
    ensures var s := State(r);
            f in s.files ==>
              && Enabled(s, Release(f))
              && Next(s, Release(f)).files == map[] && !Next(s, Release(f)).dev.alreadyOpen
  {
    SessionsAreExclusive(r, f);
    var s := State(r);
    assert f in s.files ==> (s.files - {f}).Keys == {};
  }

  /** How many opens of a run succeeded. */
  ghost function Opens(r: Run): nat
    requires Legal(r)
  {
    match r
    case Begin => 0
    case Then(p, st) => Opens(p) + (if st.Open? && State(p).files == map[] then 1 else 0)
  }

  /** The message of an open tells how many opens succeeded before it. */
  lemma {:induction false} MessageCountsOpens(r: Run, f: int)
    requires Legal(r)
    ensures State(r).dev.counter == Opens(r)
    ensures f in State(r).files ==> Opens(r) > 0 && Tells(State(r).dev.msg, Opens(r) - 1)
    decreases r
  {
    SessionsAreExclusive(r, f);
    if r.Then? {
      MessageCountsOpens(r.prev, f);
      SessionsAreExclusive(r.prev, f);
    }
    hide Tells;
    hide Message;
    if Opens(r) > 0 {
      MessageTells(Opens(r) - 1);
    }
  }

  /** A read of positive length that gives nothing comes exactly after the whole message, and starts it over. */
  lemma EmptyReadMeansComplete(r: Run, f: int, length: nat)
    requires Legal(r) && f in State(r).files && length > 0
    ensures Enabled(State(r), Read(f, length))
    ensures Result(State(r), f, length) == "" <==> Output(r, f) == State(r).dev.msg
    ensures Result(State(r), f, length) == "" ==> Next(State(r), Read(f, length)).files[f] == 0
    ensures Result(State(r), f, length) != "" ==>
              Output(Then(r, Read(f, length)), f) == Output(r, f) + Result(State(r), f, length)
  {
    SessionsAreExclusive(r, f);
  }
}
