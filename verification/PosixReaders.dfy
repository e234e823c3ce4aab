/**
 One reader and one writer under two POSIX semaphores: `mutex` guards the reader count, which is local to
 the reader process, and `resource` guards the file.  The writer takes a number from the pipe before it
 waits for the file.
 */
module PosixReaders {
  import opened Options
  import opened Semaphores

  datatype ReaderPc =
    | Entry                          // before sem_wait(readers_mutex)
    | CountUp | Lock | EntryPost     // readers_count++, the first reader locks, sem_post(readers_mutex)
    | Open | Write                   // inside: open and print the file, write to the pipe
    | Exit | CountDown | Unlock | ExitPost
    | Gone(killed: bool)

  datatype WriterPc =
    | Fetching | Waiting(line: Line) | Holding(line: Line) | Appended
    | WFailing(lost: seq<Line>) | WGone(lost: seq<Line>)

  /** A pipe without a bound has capacity None. */
  datatype Sys = Sys(cap: Option<nat>, mutex: int, resource: int, count: int, failing: bool,
                     reader: ReaderPc, writer: WriterPc, pipe: seq<int>, file: seq<Line>)

  datatype Step =
    | Enter | Increment | LockResource | LeaveEntry | OpenFile | OpenFails | Send(n: int) | SendFails | BrokenPipe
    | EnterExit | Decrement | UnlockResource | LeaveExit
    | Fetch | FetchEof(n: int) | FetchFails | WaitResource | AppendFails | Append | PostResource

  function Init(cap: Option<nat>): Sys {
    Sys(cap, 1, 1, 0, false, Entry, Fetching, [], [])
  }

  predicate Fault(st: Step) {
    st.OpenFails? || st.SendFails? || st.FetchFails? || st.AppendFails?
  }

  predicate Full(s: Sys) {
    s.cap.Some? && |s.pipe| >= s.cap.value
  }

  predicate Enabled(s: Sys, st: Step) {
    match st
    case Enter => s.reader == Entry && s.mutex >= 1
    case Increment => s.reader == CountUp
    case LockResource => s.reader == Lock && (s.count == 1 ==> s.resource >= 1)
    case LeaveEntry => s.reader == EntryPost
    case OpenFile => s.reader == Open
    case OpenFails => s.reader == Open
    case Send(n) => s.reader == Write && !s.writer.WGone? && !Full(s) && 0 <= n < 100
    case SendFails => s.reader == Write
    case BrokenPipe => s.reader == Write && s.writer.WGone?
    case EnterExit => s.reader == Exit && s.mutex >= 1
    case Decrement => s.reader == CountDown
    case UnlockResource => s.reader == Unlock
    case LeaveExit => s.reader == ExitPost
    case Fetch => s.writer == Fetching && s.pipe != []
    case FetchEof(_) => s.writer == Fetching && s.pipe == [] && s.reader.Gone?
    case FetchFails => s.writer == Fetching
    case WaitResource => s.writer.Waiting? && s.resource >= 1
    case AppendFails => s.writer.Holding?
    case Append => s.writer.Holding?
    case PostResource => s.writer == Appended || s.writer.WFailing?
  }

  function Hand(pc: WriterPc): seq<Line> {
    match pc
    case Waiting(l) => [l]
    case Holding(l) => [l]
    case WFailing(ls) => ls
    case WGone(ls) => ls
    case _ => []
  }

  function Next(s: Sys, st: Step): Sys
    requires Enabled(s, st)
  {
    match st
    case Enter => s.(reader := CountUp, mutex := s.mutex - 1)
    case Increment => s.(reader := Lock, count := s.count + 1)
    case LockResource => s.(reader := EntryPost, resource := if s.count == 1 then s.resource - 1 else s.resource)
    case LeaveEntry => s.(reader := Open, mutex := s.mutex + 1)
    case OpenFile => s.(reader := Write)
    case OpenFails => s.(reader := Exit, failing := true)
    case Send(n) => s.(reader := Exit, pipe := s.pipe + [n])
    case SendFails => s.(reader := Exit)
    case BrokenPipe => s.(reader := Gone(true))
    case EnterExit => s.(reader := CountDown, mutex := s.mutex - 1)
    case Decrement => s.(reader := Unlock, count := s.count - 1)
    case UnlockResource => s.(reader := ExitPost, resource := if s.count == 0 then s.resource + 1 else s.resource)
    case LeaveExit => s.(reader := if s.failing then Gone(false) else Entry, mutex := s.mutex + 1)
    case Fetch => s.(writer := Waiting(Received(s.pipe[0])), pipe := s.pipe[1..])
    case FetchEof(n) => s.(writer := Waiting(Stale(n)))
    case FetchFails => s.(writer := WGone([]))
    case WaitResource => s.(writer := Holding(s.writer.line), resource := s.resource - 1)
    case AppendFails => s.(writer := WFailing([s.writer.line]))
    case Append => s.(writer := Appended, file := s.file + [s.writer.line])
    case PostResource =>
      s.(writer := if s.writer == Appended then Fetching else WGone(s.writer.lost), resource := s.resource + 1)
  }

  datatype Run = Begin | Then(prev: Run, step: Step)

  ghost predicate Legal(cap: Option<nat>, r: Run)
    decreases r, 0
  {
    r.Then? ==> Legal(cap, r.prev) && Enabled(State(cap, r.prev), r.step)
  }

  ghost function State(cap: Option<nat>, r: Run): Sys
    requires Legal(cap, r)
    decreases r, 1
  {
    match r
    case Begin => Init(cap)
    case Then(p, st) => Next(State(cap, p), st)
  }

  ghost function Sent(r: Run): seq<int> {
    match r
    case Begin => []
    case Then(p, st) => Sent(p) + (if st.Send? then [st.n] else [])
  }

  // ---------- The invariant ----------

  predicate HoldsMutex(pc: ReaderPc) {
    pc.CountUp? || pc.Lock? || pc.EntryPost? || pc.CountDown? || pc.Unlock? || pc.ExitPost?
  }

  predicate Counted(pc: ReaderPc) {
    pc.Lock? || pc.EntryPost? || pc.Open? || pc.Write? || pc.Exit? || pc.CountDown? || pc == Gone(true)
  }

  predicate ReaderHolds(pc: ReaderPc) {
    pc.EntryPost? || pc.Open? || pc.Write? || pc.Exit? || pc.CountDown? || pc.Unlock? || pc == Gone(true)
  }

  predicate WriterHolds(pc: WriterPc) {
    pc.Holding? || pc.Appended? || pc.WFailing?
  }

  /** The semaphores and the count are what the two processes hold; the file has one holder at most. */
  ghost predicate Invariant(s: Sys) {
    && s.mutex == (if HoldsMutex(s.reader) then 0 else 1)
    && s.count == (if Counted(s.reader) then 1 else 0)
    && s.resource == (if ReaderHolds(s.reader) || WriterHolds(s.writer) then 0 else 1)
    && !(ReaderHolds(s.reader) && WriterHolds(s.writer))
    && (s.reader == Gone(true) ==> s.writer.WGone?)
  }

  lemma StepKeeps(s: Sys, st: Step)
    requires Enabled(s, st) && Invariant(s)
    ensures Invariant(Next(s, st)) && Next(s, st).cap == s.cap
  {
  }

  lemma {:induction false} AlwaysExclusive(cap: Option<nat>, r: Run)
    requires Legal(cap, r)
    ensures Invariant(State(cap, r)) && State(cap, r).cap == cap
    decreases r
  {
    if r.Then? {
      AlwaysExclusive(cap, r.prev);
      StepKeeps(State(cap, r.prev), r.step);
    }
  }

  // ---------- Stuck states ----------

  ghost predicate SomeoneLeft(s: Sys) {
    !s.reader.Gone? || !s.writer.WGone?
  }

  ghost predicate Stuck(s: Sys) {
    SomeoneLeft(s) && forall st :: Enabled(s, st) ==> Fault(st)
  }

  /** The reader holds the file at a full pipe, and the writer waits for the file with a number in hand. */
  ghost predicate Embrace(s: Sys) {
    s.reader == Write && Full(s) && s.writer.Waiting?
  }

  lemma ReaderMove(s: Sys) returns (st: Step)
    requires Invariant(s) && !s.reader.Gone?
    requires s.reader == Write ==> s.writer.WGone? || !Full(s)
    requires s.reader == Lock ==> !WriterHolds(s.writer)
    ensures Enabled(s, st) && !Fault(st)
  {
    st := match s.reader
      case Entry => Enter
      case CountUp => Increment
      case Lock => LockResource
      case EntryPost => LeaveEntry
      case Open => OpenFile
      case Write => if s.writer.WGone? then BrokenPipe else Send(0)
      case Exit => EnterExit
      case CountDown => Decrement
      case Unlock => UnlockResource
      case _ => LeaveExit;
  }

  lemma WriterMove(s: Sys) returns (st: Step)
    requires Invariant(s) && !s.writer.WGone?
    requires s.writer == Fetching ==> s.pipe != [] || s.reader.Gone?
    requires s.writer.Waiting? ==> !ReaderHolds(s.reader)
    ensures Enabled(s, st) && !Fault(st)
  {
    st := match s.writer
      case Fetching => if s.pipe != [] then Fetch else FetchEof(0)
      case Waiting(_) => WaitResource
      case Holding(_) => Append
      case _ => PostResource;
  }

  lemma SomeMove(s: Sys) returns (st: Step)
    requires Invariant(s) && !Embrace(s) && SomeoneLeft(s)
    requires s.cap.Some? ==> s.cap.value >= 1
    ensures Enabled(s, st) && !Fault(st)
  {
    if s.reader.Gone? || WriterHolds(s.writer) || (s.reader == Write && Full(s) && !s.writer.WGone?) {
      st := WriterMove(s);
    } else {
      st := ReaderMove(s);
    }
  }

  /** Stuck iff the reader is at a full pipe inside its section while the writer waits for the file. */
  lemma StuckStates(cap: Option<nat>, r: Run)
    requires Legal(cap, r)
    requires cap.Some? ==> cap.value >= 1
    ensures Stuck(State(cap, r)) <==> Embrace(State(cap, r))
  {
    AlwaysExclusive(cap, r);
    var s := State(cap, r);
    if !Embrace(s) && SomeoneLeft(s) {
      var st := SomeMove(s);
    }
  }

  /** With a pipe that never fills nobody is ever stuck. */
  lemma NeverStuckUnbounded(r: Run)
    requires Legal(None, r)
    ensures !Stuck(State(None, r))
  {
    StuckStates(None, r);
    AlwaysExclusive(None, r);
  }

  // ---------- The embrace is reached for every finite pipe ----------

  ghost function ToWrite(r: Run): Run {
    Then(Then(Then(Then(Then(r, Enter), Increment), LockResource), LeaveEntry), OpenFile)
  }

  ghost function Cycle(r: Run, v: int): Run {
    Leave(Then(ToWrite(r), Send(v)))
  }

  ghost function Fill(k: nat): Run {
    if k == 0 then Begin else Cycle(Fill(k - 1), 0)
  }

  /** A run without faults. */
  ghost predicate Faultless(r: Run) {
    r.Then? ==> Faultless(r.prev) && !Fault(r.step)
  }

  lemma Extend(cap: Option<nat>, r: Run, st: Step)
    requires Legal(cap, r) && Enabled(State(cap, r), st)
    ensures Legal(cap, Then(r, st)) && State(cap, Then(r, st)) == Next(State(cap, r), st)
    ensures Faultless(r) && !Fault(st) ==> Faultless(Then(r, st))
  {
  }

  lemma ReachWrite(cap: Option<nat>, r: Run)
    requires Legal(cap, r)
    requires State(cap, r).reader == Entry && State(cap, r).mutex == 1 && State(cap, r).resource == 1
    requires State(cap, r).count == 0
    ensures Legal(cap, ToWrite(r))
    ensures State(cap, ToWrite(r)) == State(cap, r).(reader := Write, resource := 0, count := 1)
    ensures Faultless(r) ==> Faultless(ToWrite(r))
  {
    hide Faultless;
    hide Legal;
    hide State;
    Extend(cap, r, Enter);
    var r1 := Then(r, Enter);
    Extend(cap, r1, Increment);
    var r2 := Then(r1, Increment);
    Extend(cap, r2, LockResource);
    var r3 := Then(r2, LockResource);
    Extend(cap, r3, LeaveEntry);
    Extend(cap, Then(r3, LeaveEntry), OpenFile);
  }

  ghost function Leave(r: Run): Run {
    Then(Then(Then(Then(r, EnterExit), Decrement), UnlockResource), LeaveExit)
  }

  lemma LeaveSection(cap: Option<nat>, r: Run)
    requires Legal(cap, r)
    requires State(cap, r).reader == Exit && State(cap, r).mutex == 1 && State(cap, r).resource == 0
    requires State(cap, r).count == 1
    ensures var s := State(cap, r);
            && Legal(cap, Leave(r))
            && State(cap, Leave(r))
               == s.(reader := if s.failing then Gone(false) else Entry, resource := 1, count := 0)
    ensures Faultless(r) ==> Faultless(Leave(r))
  {
    hide Faultless;
    hide Legal;
    hide State;
    Extend(cap, r, EnterExit);
    var r1 := Then(r, EnterExit);
    Extend(cap, r1, Decrement);
    var r2 := Then(r1, Decrement);
    Extend(cap, r2, UnlockResource);
    Extend(cap, Then(r2, UnlockResource), LeaveExit);
  }

  lemma CycleSends(cap: Option<nat>, r: Run, v: int)
    requires Legal(cap, r) && 0 <= v < 100
    requires State(cap, r).reader == Entry && State(cap, r).mutex == 1 && State(cap, r).resource == 1
    requires State(cap, r).count == 0 && !State(cap, r).failing
    requires !State(cap, r).writer.WGone? && !Full(State(cap, r))
    ensures Legal(cap, Cycle(r, v))
    ensures State(cap, Cycle(r, v)) == State(cap, r).(pipe := State(cap, r).pipe + [v])
    ensures Faultless(r) ==> Faultless(Cycle(r, v))
  {
    hide Faultless;
    hide Leave;
    hide ToWrite;
    hide Legal;
    hide State;
    ReachWrite(cap, r);
    Extend(cap, ToWrite(r), Send(v));
    LeaveSection(cap, Then(ToWrite(r), Send(v)));
  }

  /** The reader at its entry, the writer at the pipe, and `k` numbers in it. */
  ghost predicate AtEntry(s: Sys, cap: nat, k: nat) {
    && s.cap == Some(cap) && s.mutex == 1 && s.resource == 1 && s.count == 0 && !s.failing
    && s.reader == Entry && s.writer == Fetching && |s.pipe| == k
  }

  lemma {:induction false} FillFills(cap: nat, k: nat)
    requires k <= cap
    ensures Legal(Some(cap), Fill(k))
    ensures AtEntry(State(Some(cap), Fill(k)), cap, k)
  {
    hide Cycle;
    if k > 0 {
      FillFills(cap, k - 1);
      var s := State(Some(cap), Fill(k - 1));
      CycleSends(Some(cap), Fill(k - 1), 0);
      assert |s.pipe + [0]| == k;
    }
  }

  lemma EmbraceIsReached(cap: nat)
    requires cap >= 1
    ensures Legal(Some(cap), ToWrite(Cycle(Then(Fill(cap), Fetch), 0)))
    ensures Stuck(State(Some(cap), ToWrite(Cycle(Then(Fill(cap), Fetch), 0))))
  {
    hide Legal;
    hide State;
    hide Fill;
    hide Cycle;
    hide ToWrite;
    hide Stuck;
    FillFills(cap, cap);
    Extend(Some(cap), Fill(cap), Fetch);
    var r := Then(Fill(cap), Fetch);
    CycleSends(Some(cap), r, 0);
    ReachWrite(Some(cap), Cycle(r, 0));
    StuckStates(Some(cap), ToWrite(Cycle(r, 0)));
  }

  // ---------- What runs without faults do, and what a fault does ----------

  ghost predicate BothStay(s: Sys) {
    !s.reader.Gone? && !s.failing && !s.writer.WGone? && !s.writer.WFailing?
  }

  lemma StepStays(s: Sys, st: Step)
    requires Enabled(s, st) && BothStay(s) && !Fault(st)
    ensures BothStay(Next(s, st))
  {
  }

  /** Short of a fault both processes go round their loops for ever. */
  lemma {:induction false} NobodyLeaves(cap: Option<nat>, r: Run)
    requires Legal(cap, r) && Faultless(r)
    ensures BothStay(State(cap, r))
    decreases r
  {
    if r.Then? {
      NobodyLeaves(cap, r.prev);
      StepStays(State(cap, r.prev), r.step);
    }
  }

  /** The writer takes a number from the pipe and appends it. */
  ghost function WriterRound(r: Run): Run {
    Then(Then(Then(Then(r, Fetch), WaitResource), Append), PostResource)
  }

  lemma WriterDelivers(cap: Option<nat>, r: Run, v: int)
    requires Legal(cap, r) && State(cap, r) == Init(cap).(file := State(cap, r).file, pipe := [v])
    ensures Legal(cap, WriterRound(r))
    ensures State(cap, WriterRound(r)) == Init(cap).(file := State(cap, r).file + [Received(v)])
    ensures Faultless(r) ==> Faultless(WriterRound(r))
  {
    hide Faultless;
    hide Legal;
    hide State;
    Extend(cap, r, Fetch);
    var r1 := Then(r, Fetch);
    Extend(cap, r1, WaitResource);
    var r2 := Then(r1, WaitResource);
    Extend(cap, r2, Append);
    Extend(cap, Then(r2, Append), PostResource);
  }

  ghost function Round(r: Run, v: int): Run {
    WriterRound(Cycle(r, v))
  }

  lemma RoundDelivers(cap: Option<nat>, r: Run, v: int)
    requires Legal(cap, r) && 0 <= v < 100 && (cap.Some? ==> cap.value >= 1)
    requires State(cap, r) == Init(cap).(file := State(cap, r).file)
    ensures Legal(cap, Round(r, v))
    ensures State(cap, Round(r, v)) == Init(cap).(file := State(cap, r).file + [Received(v)])
    ensures Faultless(r) ==> Faultless(Round(r, v))
  {
    hide Legal;
    hide State;
    hide Faultless;
    hide Cycle;
    hide WriterRound;
    CycleSends(cap, r, v);
    assert [] + [v] == [v];
    WriterDelivers(cap, Cycle(r, v), v);
  }

  lemma AtBegin(cap: Option<nat>)
    ensures Legal(cap, Begin) && Faultless(Begin) && State(cap, Begin) == Init(cap)
  {
  }

  ghost function Delivery(vs: seq<int>): Run {
    if vs == [] then Begin else Round(Delivery(vs[..|vs| - 1]), vs[|vs| - 1])
  }

  /** Any numbers the reader may draw can reach the file, all of them and in order, without a fault. */
  lemma {:induction false} NumbersAreDelivered(cap: Option<nat>, vs: seq<int>)
    requires cap.Some? ==> cap.value >= 1
    requires forall i :: 0 <= i < |vs| ==> 0 <= vs[i] < 100
    ensures Legal(cap, Delivery(vs)) && Faultless(Delivery(vs))
    ensures State(cap, Delivery(vs)) == Init(cap).(file := Lines(vs))
  {
    hide Legal;
    hide State;
    hide Faultless;
    hide Round;
    if vs == [] {
      AtBegin(cap);
    } else {
      var vs0, v := vs[..|vs| - 1], vs[|vs| - 1];
      NumbersAreDelivered(cap, vs0);
      RoundDelivers(cap, Delivery(vs0), v);
      assert Lines(vs) == Lines(vs0) + [Received(v)];
    }
  }

  /** A reader that cannot open the file leaves its section and exits; it then holds nothing. */
  lemma ReaderFailureReleases(cap: Option<nat>, r: Run)
    requires Legal(cap, r) && State(cap, r).reader == Open
    ensures var r' := Leave(Then(r, OpenFails));
            && Legal(cap, r')
            && State(cap, r') == State(cap, r).(reader := Gone(false), failing := true, resource := 1, count := 0)
  {
    AlwaysExclusive(cap, r);
    hide Legal;
    hide State;
    hide Leave;
    Extend(cap, r, OpenFails);
    LeaveSection(cap, Then(r, OpenFails));
  }

  /** A writer that cannot open the file posts the semaphore and exits; the number in its hand is lost. */
  lemma WriterFailureReleases(cap: Option<nat>, r: Run)
    requires Legal(cap, r) && State(cap, r).writer.Holding?
    ensures var s, r' := State(cap, r), Then(Then(r, AppendFails), PostResource);
            Legal(cap, r') && State(cap, r') == s.(writer := WGone([s.writer.line]), resource := 1)
  {
    AlwaysExclusive(cap, r);
    Extend(cap, r, AppendFails);
    Extend(cap, Then(r, AppendFails), PostResource);
  }

  // ---------- Conservation ----------

  /** Lines from the pipe, the writer's hand and the pipe are what the reader sent, in order; any other line
      was written after the reader was gone. */
  ghost predicate Conserved(s: Sys, sent: seq<int>) {
    && Numbers(s.file) + Numbers(Hand(s.writer)) + s.pipe == sent
    && ((exists l :: l in s.file + Hand(s.writer) && l.Stale?) ==> s.reader.Gone?)
    && |Hand(s.writer)| <= 1
  }

  predicate MovesNumber(st: Step) {
    st.Send? || st.Fetch? || st.FetchEof? || st.Append?
  }

  lemma OtherStepConserves(s: Sys, st: Step, sent: seq<int>)
    requires Enabled(s, st) && Conserved(s, sent) && !MovesNumber(st)
    ensures Conserved(Next(s, st), sent)
  {
    var s' := Next(s, st);
    assert Hand(s'.writer) == Hand(s.writer) && s'.file == s.file && s'.pipe == s.pipe;
  }

  lemma FetchConserves(s: Sys, st: Step, sent: seq<int>)
    requires Enabled(s, st) && Conserved(s, sent) && (st.Fetch? || st.FetchEof?)
    ensures Conserved(Next(s, st), sent)
  {
    var s' := Next(s, st);
    NumbersAppend([], s'.writer.line);
    assert s'.file + Hand(s'.writer) == s.file + [s'.writer.line] && s.file + Hand(s.writer) == s.file;
    if st.Fetch? {
      assert Numbers(s.file) + [] + s.pipe == Numbers(s.file) + [s.pipe[0]] + s.pipe[1..];
    }
  }

  lemma AppendConserves(s: Sys, sent: seq<int>)
    requires Enabled(s, Append) && Conserved(s, sent)
    ensures Conserved(Next(s, Append), sent)
  {
    var s', l := Next(s, Append), s.writer.line;
    NumbersAppend(s.file, l);
    assert s'.file + Hand(s'.writer) == s.file + [l];
    assert Numbers(s.file) + Numbers([l]) + [] == Numbers(s.file) + Numbers([l]);
  }

  lemma StepConserves(s: Sys, st: Step, sent: seq<int>)
    requires Enabled(s, st) && Conserved(s, sent)
    ensures Conserved(Next(s, st), sent + (if st.Send? then [st.n] else []))
  {
    assert sent + [] == sent;
    match st
    case Send(n) => assert Numbers(s.file) + Numbers(Hand(s.writer)) + (s.pipe + [n]) == sent + [n];
    case Fetch => FetchConserves(s, st, sent);
    case FetchEof(_) => FetchConserves(s, st, sent);
    case Append => AppendConserves(s, sent);
    case _ => OtherStepConserves(s, st, sent);
  }

  lemma {:induction false} PipeConservation(cap: Option<nat>, r: Run)
    requires Legal(cap, r)
    ensures Conserved(State(cap, r), Sent(r))
    decreases r
  {
    if r.Then? {
      PipeConservation(cap, r.prev);
      StepConserves(State(cap, r.prev), r.step, Sent(r.prev));
    }
  }
}
