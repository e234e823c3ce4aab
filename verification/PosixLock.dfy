/**
 One reader and one writer that share a file under one POSIX semaphore.  Each takes the semaphore
 before it touches the pipe.  A failing call posts the semaphore and then exits; a write to a pipe whose
 reading end is gone kills the reader where it stands.
 */
module PosixLock {
  import opened Semaphores

  datatype ReaderPc = Outside | Reading | Wrote | Failing | Gone(killed: bool)

  datatype WriterPc =
    WOutside | Fetching | Holding(line: Line) | Appended | WFailing(lost: seq<Line>) | WGone(lost: seq<Line>)

  datatype Sys = Sys(cap: nat, sem: int, reader: ReaderPc, writer: WriterPc, pipe: seq<int>, file: seq<Line>)

  datatype Step =
    | ReaderWaits | Send(n: int) | ReaderFails | BrokenPipe | ReaderPosts
    | WriterWaits | Fetch | FetchEof(n: int) | WriterFails | Append | WriterPosts

  function Init(cap: nat): Sys {
    Sys(cap, 1, Outside, WOutside, [], [])
  }

  predicate Fault(st: Step) {
    st.ReaderFails? || st.WriterFails?
  }

  predicate Enabled(s: Sys, st: Step) {
    match st
    case ReaderWaits => s.reader == Outside && s.sem >= 1
    case Send(n) => s.reader == Reading && !s.writer.WGone? && |s.pipe| < s.cap && 0 <= n < 100
    case ReaderFails => s.reader == Reading
    case BrokenPipe => s.reader == Reading && s.writer.WGone?
    case ReaderPosts => s.reader == Wrote || s.reader == Failing
    case WriterWaits => s.writer == WOutside && s.sem >= 1
    case Fetch => s.writer == Fetching && s.pipe != []
    case FetchEof(_) => s.writer == Fetching && s.pipe == [] && s.reader.Gone?
    case WriterFails => s.writer == Fetching || s.writer.Holding?
    case Append => s.writer.Holding?
    case WriterPosts => s.writer == Appended || s.writer.WFailing?
  }

  function Hand(pc: WriterPc): seq<Line> {
    match pc
    case Holding(l) => [l]
    case WFailing(ls) => ls
    case WGone(ls) => ls
    case _ => []
  }

  function Next(s: Sys, st: Step): Sys
    requires Enabled(s, st)
  {
    match st
    case ReaderWaits => s.(sem := s.sem - 1, reader := Reading)
    case Send(n) => s.(reader := Wrote, pipe := s.pipe + [n])
    case ReaderFails => s.(reader := Failing)
    case BrokenPipe => s.(reader := Gone(true))
    case ReaderPosts => s.(sem := s.sem + 1, reader := if s.reader == Wrote then Outside else Gone(false))
    case WriterWaits => s.(sem := s.sem - 1, writer := Fetching)
    case Fetch => s.(writer := Holding(Received(s.pipe[0])), pipe := s.pipe[1..])
    case FetchEof(n) => s.(writer := Holding(Stale(n)))
    case WriterFails => s.(writer := WFailing(Hand(s.writer)))
    case Append => s.(writer := Appended, file := s.file + [s.writer.line])
    case WriterPosts => s.(sem := s.sem + 1, writer := if s.writer == Appended then WOutside else WGone(s.writer.lost))
  }

  datatype Run = Begin | Then(prev: Run, step: Step)

  ghost predicate Legal(cap: nat, r: Run)
    decreases r, 0
  {
    r.Then? ==> Legal(cap, r.prev) && Enabled(State(cap, r.prev), r.step)
  }

  ghost function State(cap: nat, r: Run): Sys
    requires Legal(cap, r)
    decreases r, 1
  {
    match r
    case Begin => Init(cap)
    case Then(p, st) => Next(State(cap, p), st)
  }

  /** The numbers the reader put into the pipe, in order. */
  ghost function Sent(r: Run): seq<int> {
    match r
    case Begin => []
    case Then(p, st) => Sent(p) + (if st.Send? then [st.n] else [])
  }

  predicate ReaderHolds(pc: ReaderPc) {
    pc == Reading || pc == Wrote || pc == Failing || pc == Gone(true)
  }

  predicate WriterHolds(pc: WriterPc) {
    !pc.WOutside? && !pc.WGone?
  }

  /** One holder at most; a reader killed with the semaphore in hand leaves nobody waiting for it. */
  ghost predicate Invariant(s: Sys) {
    && s.sem == (if ReaderHolds(s.reader) || WriterHolds(s.writer) then 0 else 1)
    && !(ReaderHolds(s.reader) && WriterHolds(s.writer))
    && (s.reader == Gone(true) ==> s.writer.WGone?)
  }

  lemma {:induction false} AlwaysExclusive(cap: nat, r: Run)
    requires Legal(cap, r)
    ensures Invariant(State(cap, r))
    decreases r
  {
    if r.Then? {
      AlwaysExclusive(cap, r.prev);
    }
  }

  ghost predicate Stuck(s: Sys) {
    (!s.reader.Gone? || !s.writer.WGone?) && forall st :: Enabled(s, st) ==> Fault(st)
  }

  ghost predicate HolderWaits(s: Sys) {
    || (s.writer == Fetching && s.pipe == [] && !s.reader.Gone?)
    || (s.reader == Reading && |s.pipe| >= s.cap && !s.writer.WGone?)
  }

  lemma SomeMove(s: Sys) returns (st: Step)
    requires Invariant(s) && !HolderWaits(s) && (!s.reader.Gone? || !s.writer.WGone?)
    ensures Enabled(s, st) && !Fault(st)
  {
    if WriterHolds(s.writer) {
      st := match s.writer
        case Fetching => if s.pipe != [] then Fetch else FetchEof(0)
        case Holding(_) => Append
        case _ => WriterPosts;
    } else if s.reader.Gone? {
      st := WriterWaits;
    } else {
      st := match s.reader
        case Outside => ReaderWaits
        case Reading => if s.writer.WGone? then BrokenPipe else Send(0)
        case _ => ReaderPosts;
    }
  }

  /** Stuck iff the holder is the writer at an empty pipe or the reader at a full one. */
  lemma StuckStates(cap: nat, r: Run)
    requires Legal(cap, r)
    ensures Stuck(State(cap, r)) <==> HolderWaits(State(cap, r))
  {
    AlwaysExclusive(cap, r);
    var s := State(cap, r);
    if !HolderWaits(s) && (!s.reader.Gone? || !s.writer.WGone?) {
      var st := SomeMove(s);
    }
  }

  /** The writer may take the semaphore first and wait for ever, whatever the pipe holds. */
  lemma WriterFirstIsStuck(cap: nat)
    ensures Legal(cap, Then(Begin, WriterWaits)) && Stuck(State(cap, Then(Begin, WriterWaits)))
  {
    assert Legal(cap, Begin) && State(cap, Begin) == Init(cap);
    StuckStates(cap, Then(Begin, WriterWaits));
  }

  // ---------- The reader is stuck at a full pipe, for every capacity ----------

  /** A run without faults. */
  ghost predicate Faultless(r: Run) {
    r.Then? ==> Faultless(r.prev) && !Fault(r.step)
  }

  lemma Extend(cap: nat, r: Run, st: Step)
    requires Legal(cap, r) && Enabled(State(cap, r), st)
    ensures Legal(cap, Then(r, st)) && State(cap, Then(r, st)) == Next(State(cap, r), st)
    ensures Faultless(r) && !Fault(st) ==> Faultless(Then(r, st))
  {
  }

  ghost function Fill(k: nat): Run {
    if k == 0 then Begin else Then(Then(Then(Fill(k - 1), ReaderWaits), Send(0)), ReaderPosts)
  }

  lemma {:induction false} FillFills(cap: nat, k: nat)
    requires k <= cap
    ensures Legal(cap, Fill(k))
    ensures var s := State(cap, Fill(k)); s == Init(cap).(pipe := s.pipe) && |s.pipe| == k
  {
    if k > 0 {
      FillFills(cap, k - 1);
      var r := Fill(k - 1);
      Extend(cap, r, ReaderWaits);
      Extend(cap, Then(r, ReaderWaits), Send(0));
      Extend(cap, Then(Then(r, ReaderWaits), Send(0)), ReaderPosts);
    }
  }

  lemma FullPipeIsStuck(cap: nat)
    ensures Legal(cap, Then(Fill(cap), ReaderWaits))
    ensures State(cap, Then(Fill(cap), ReaderWaits)).reader == Reading
    ensures Stuck(State(cap, Then(Fill(cap), ReaderWaits)))
  {
    FillFills(cap, cap);
    Extend(cap, Fill(cap), ReaderWaits);
    StuckStates(cap, Then(Fill(cap), ReaderWaits));
  }

  // ---------- What runs without faults do, and what a fault does ----------

  /** Short of a fault both processes go round their loops for ever. */
  lemma {:induction false} NobodyLeaves(cap: nat, r: Run)
    requires Legal(cap, r) && Faultless(r)
    ensures var s := State(cap, r);
            !s.reader.Gone? && s.reader != Failing && !s.writer.WGone? && !s.writer.WFailing?
    decreases r
  {
    if r.Then? {
      NobodyLeaves(cap, r.prev);
    }
  }

  /** The reader sends `v` and the writer appends it. */
  ghost function Round(r: Run, v: int): Run {
    var sent := Then(Then(Then(r, ReaderWaits), Send(v)), ReaderPosts);
    Then(Then(Then(Then(sent, WriterWaits), Fetch), Append), WriterPosts)
  }

  lemma RoundDelivers(cap: nat, r: Run, v: int)
    requires cap >= 1 && Legal(cap, r) && 0 <= v < 100
    requires State(cap, r) == Init(cap).(file := State(cap, r).file)
    ensures Legal(cap, Round(r, v))
    ensures State(cap, Round(r, v)) == Init(cap).(file := State(cap, r).file + [Received(v)])
    ensures Faultless(r) ==> Faultless(Round(r, v))
  {
    hide Faultless;
    hide Legal;
    hide State;
    Extend(cap, r, ReaderWaits);
    var r1 := Then(r, ReaderWaits);
    Extend(cap, r1, Send(v));
    var r2 := Then(r1, Send(v));
    Extend(cap, r2, ReaderPosts);
    var r3 := Then(r2, ReaderPosts);
    Extend(cap, r3, WriterWaits);
    var r4 := Then(r3, WriterWaits);
    Extend(cap, r4, Fetch);
    var r5 := Then(r4, Fetch);
    Extend(cap, r5, Append);
    Extend(cap, Then(r5, Append), WriterPosts);
  }

  ghost function Delivery(vs: seq<int>): Run {
    if vs == [] then Begin else Round(Delivery(vs[..|vs| - 1]), vs[|vs| - 1])
  }

  /** Any numbers the reader may draw can reach the file, all of them and in order, without a fault. */
  lemma {:induction false} NumbersAreDelivered(cap: nat, vs: seq<int>)
    requires cap >= 1 && forall i :: 0 <= i < |vs| ==> 0 <= vs[i] < 100
    ensures Legal(cap, Delivery(vs)) && Faultless(Delivery(vs))
    ensures State(cap, Delivery(vs)) == Init(cap).(file := Lines(vs))
  {
    if vs != [] {
      var vs0, v := vs[..|vs| - 1], vs[|vs| - 1];
      NumbersAreDelivered(cap, vs0);
      hide Legal;
      hide State;
      hide Faultless;
      RoundDelivers(cap, Delivery(vs0), v);
      assert Lines(vs) == Lines(vs0) + [Received(v)];
    }
  }

  /** A call of the reader that fails inside its section can happen in every such state; the reader then posts the
      semaphore and exits. */
  lemma ReaderFailureReleases(cap: nat, r: Run)
    requires Legal(cap, r) && State(cap, r).reader == Reading
    ensures var r' := Then(Then(r, ReaderFails), ReaderPosts);
            Legal(cap, r') && State(cap, r') == State(cap, r).(reader := Gone(false), sem := 1)
  {
    AlwaysExclusive(cap, r);
    Extend(cap, r, ReaderFails);
    Extend(cap, Then(r, ReaderFails), ReaderPosts);
  }

  /** So it is with the writer, at the pipe or at the file; a number in its hand is lost. */
  lemma WriterFailureReleases(cap: nat, r: Run)
    requires Legal(cap, r) && (State(cap, r).writer == Fetching || State(cap, r).writer.Holding?)
    ensures var s, r' := State(cap, r), Then(Then(r, WriterFails), WriterPosts);
            Legal(cap, r') && State(cap, r') == s.(writer := WGone(Hand(s.writer)), sem := 1)
  {
    AlwaysExclusive(cap, r);
    Extend(cap, r, WriterFails);
    Extend(cap, Then(r, WriterFails), WriterPosts);
  }

  // ---------- Conservation ----------

  /** Lines from the pipe, the writer's hand and the pipe are what the reader sent, in order; any other line was
      written after the reader was gone. */
  ghost predicate Conserved(s: Sys, sent: seq<int>) {
    && Numbers(s.file) + Numbers(Hand(s.writer)) + s.pipe == sent
    && ((exists l :: l in s.file + Hand(s.writer) && l.Stale?) ==> s.reader.Gone?)
    && |s.pipe| <= s.cap
    && |Hand(s.writer)| <= 1
  }

  lemma StepConserves(s: Sys, st: Step, sent: seq<int>)
    requires Enabled(s, st) && Conserved(s, sent)
    ensures Conserved(Next(s, st), sent + (if st.Send? then [st.n] else []))
  {
    hide Numbers;
    assert sent + [] == sent;
    NumbersEmpty();
    var s' := Next(s, st);
    match st
    case Send(n) => assert Numbers(s.file) + Numbers(Hand(s.writer)) + (s.pipe + [n]) == sent + [n];
    case Fetch =>
      NumbersAppend([], Received(s.pipe[0]));
      assert Numbers(s.file) + [] + s.pipe == Numbers(s.file) + [s.pipe[0]] + s.pipe[1..];
    case FetchEof(n) => NumbersAppend([], Stale(n));
    case Append =>
      NumbersAppend(s.file, s.writer.line);
      assert s'.file + Hand(s'.writer) == s.file + [s.writer.line];
    case _ => assert s'.file + Hand(s'.writer) == s.file + Hand(s.writer);
  }

  lemma {:induction false} PipeConservation(cap: nat, r: Run)
    requires Legal(cap, r)
    ensures Conserved(State(cap, r), Sent(r))
    decreases r
  {
    if r.Then? {
      PipeConservation(cap, r.prev);
      StepConserves(State(cap, r.prev), r.step, Sent(r.prev));
    }
  }
}
