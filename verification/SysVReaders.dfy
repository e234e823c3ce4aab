/**
 Readers and a writer that share a file under two System V semaphores: semaphore 0 is the lock and
 semaphore 1 counts the readers inside.  Readers send numbers through a pipe, the writer appends them
 to the file.  Any number of readers, any interleaving, and processes may exit at any point.
 */
module SysVReaders {
  import opened Options
  import opened Semaphores

  const START_READ: seq<SemBuf> := [SemBuf(0, -1), SemBuf(1, 1)]
  const END_READ: seq<SemBuf> := [SemBuf(1, -1), SemBuf(0, 1)]
  const START_WRITE: seq<SemBuf> := [SemBuf(0, -1)]
  const END_WRITE: seq<SemBuf> := [SemBuf(0, 1)]

  // ---------- The system ----------

  datatype ReaderPc = Outside | Reading | Wrote | Gone

  datatype WriterPc = WOutside | Polling | Fetching | Holding(line: Line) | Appended | WGone(lost: seq<Line>)

  /** A process: where it is and its undo adjustments. */
  datatype Reader = Reader(pc: ReaderPc, adj: seq<int>)
  datatype Writer = Writer(pc: WriterPc, adj: seq<int>)

  datatype Sys = Sys(cap: nat, sems: seq<int>, readers: seq<Reader>, writer: Writer, pipe: seq<int>, file: seq<Line>)

  datatype Step =
    | StartRead(i: nat) | Send(i: nat, n: int) | SendFails(i: nat) | EndRead(i: nat)
    | BrokenPipe(i: nat)   // writing to a pipe without a reading end kills the process
    | ReaderExits(i: nat)
    | StartWrite | Poll | Fetch | FetchEof(n: int) | Append | EndWrite
    | WriterExits

  function Init(cap: nat, readers: nat): Sys {
    Sys(cap, [1, 0], seq(readers, _ => Reader(Outside, [0, 0])), Writer(WOutside, [0, 0]), [], [])
  }

  /** Faults: failing calls and exits. */
  predicate Fault(st: Step) {
    st.SendFails? || st.ReaderExits? || st.WriterExits?
  }

  predicate At(s: Sys, i: nat, pc: ReaderPc) {
    i < |s.readers| && s.readers[i].pc == pc
  }

  predicate AllGone(rs: seq<Reader>) {
    forall i :: 0 <= i < |rs| ==> rs[i].pc == Gone
  }

  predicate WellFormed(s: Sys) {
    && |s.sems| == 2
    && (forall i :: 0 <= i < |s.readers| ==> |s.readers[i].adj| == 2)
    && |s.writer.adj| == 2
  }

  predicate Enabled(s: Sys, st: Step)
    requires WellFormed(s)
  {
    match st
    case StartRead(i) => At(s, i, Outside) && Semop(s.sems, START_READ).Some?
    case Send(i, n) => At(s, i, Reading) && !s.writer.pc.WGone? && |s.pipe| < s.cap && 0 <= n < 100
    case SendFails(i) => At(s, i, Reading)
    case BrokenPipe(i) => At(s, i, Reading) && s.writer.pc.WGone?
    case EndRead(i) => At(s, i, Wrote) && Semop(s.sems, END_READ).Some?
    case ReaderExits(i) => i < |s.readers| && s.readers[i].pc != Gone
    case StartWrite => s.writer.pc == WOutside && Semop(s.sems, START_WRITE).Some?
    case Poll => s.writer.pc == Polling
    case Fetch => s.writer.pc == Fetching && s.pipe != []
    case FetchEof(_) => s.writer.pc == Fetching && s.pipe == [] && AllGone(s.readers)
    case Append => s.writer.pc.Holding?
    case EndWrite => s.writer.pc == Appended && Semop(s.sems, END_WRITE).Some?
    case WriterExits => !s.writer.pc.WGone?
  }

  function SetReader(s: Sys, i: nat, pc: ReaderPc): Sys
    requires i < |s.readers|
  {
    s.(readers := s.readers[i := s.readers[i].(pc := pc)])
  }

  function SetWriter(s: Sys, pc: WriterPc): Sys {
    s.(writer := s.writer.(pc := pc))
  }

  function ReaderSemop(s: Sys, i: nat, ops: seq<SemBuf>, pc: ReaderPc): Sys
    requires WellFormed(s) && i < |s.readers| && InRange(ops, 2) && Semop(s.sems, ops).Some?
  {
    s.(sems := Semop(s.sems, ops).value, readers := s.readers[i := Reader(pc, Charge(s.readers[i].adj, ops))])
  }

  function WriterSemop(s: Sys, ops: seq<SemBuf>, pc: WriterPc): Sys
    requires WellFormed(s) && InRange(ops, 2) && Semop(s.sems, ops).Some?
  {
    s.(sems := Semop(s.sems, ops).value, writer := Writer(pc, Charge(s.writer.adj, ops)))
  }

  function ReaderGone(s: Sys, i: nat): Sys
    requires WellFormed(s) && i < |s.readers|
  {
    s.(sems := Undo(s.sems, s.readers[i].adj), readers := s.readers[i := Reader(Gone, [0, 0])])
  }

  function Hand(pc: WriterPc): seq<Line> {
    match pc
    case Holding(l) => [l]
    case WGone(ls) => ls
    case _ => []
  }

  function Next(s: Sys, st: Step): (s': Sys)
    requires WellFormed(s) && Enabled(s, st)
    ensures WellFormed(s')
  {
    match st
    case StartRead(i) => ReaderSemop(s, i, START_READ, Reading)
    case Send(i, n) => SetReader(s, i, Wrote).(pipe := s.pipe + [n])
    case SendFails(i) => SetReader(s, i, Wrote)
    case BrokenPipe(i) => ReaderGone(s, i)
    case EndRead(i) => ReaderSemop(s, i, END_READ, Outside)
    case ReaderExits(i) => ReaderGone(s, i)
    case StartWrite => WriterSemop(s, START_WRITE, Polling)
    case Poll => SetWriter(s, if s.sems[1] == 0 then Fetching else Polling)
    case Fetch => SetWriter(s, Holding(Received(s.pipe[0]))).(pipe := s.pipe[1..])
    case FetchEof(n) => SetWriter(s, Holding(Stale(n)))
    case Append => SetWriter(s, Appended).(file := s.file + [s.writer.pc.line])
    case EndWrite => WriterSemop(s, END_WRITE, WOutside)
    case WriterExits => s.(sems := Undo(s.sems, s.writer.adj), writer := Writer(WGone(Hand(s.writer.pc)), [0, 0]))
  }

  datatype Run = Begin | Then(prev: Run, step: Step)

  ghost predicate Legal(cap: nat, n: nat, r: Run)
    decreases r, 0
  {
    r.Then? ==> Legal(cap, n, r.prev) && Enabled(State(cap, n, r.prev), r.step)
  }

  /** The state a run of `n` readers ends in. */
  ghost function State(cap: nat, n: nat, r: Run): (s: Sys)
    requires Legal(cap, n, r)
    ensures WellFormed(s)
    decreases r, 1
  {
    match r
    case Begin => Init(cap, n)
    case Then(p, st) => Next(State(cap, n, p), st)
  }

  /** The numbers readers put into the pipe, in order. */
  ghost function Sent(r: Run): seq<int> {
    match r
    case Begin => []
    case Then(p, st) => Sent(p) + (if st.Send? then [st.n] else [])
  }

  // ---------- The invariant ----------

  predicate Inside(pc: ReaderPc) {
    pc == Reading || pc == Wrote
  }

  predicate WriterInside(pc: WriterPc) {
    !pc.WOutside? && !pc.WGone?
  }

  function Bit(b: bool): int {
    if b then 1 else 0
  }

  function ReadersInside(rs: seq<Reader>): nat {
    if rs == [] then 0 else ReadersInside(rs[..|rs| - 1]) + Bit(Inside(rs[|rs| - 1].pc))
  }

  /** What a process gives back on exit is what its section holds. */
  ghost predicate UndoIsHeld(s: Sys) {
    && (forall i :: 0 <= i < |s.readers| ==> s.readers[i].adj == if Inside(s.readers[i].pc) then [1, -1] else [0, 0])
    && s.writer.adj == (if WriterInside(s.writer.pc) then [1, 0] else [0, 0])
  }

  ghost predicate Balanced(s: Sys) {
    && |s.sems| == 2
    && s.sems[0] >= 0
    && s.sems[0] + ReadersInside(s.readers) + Bit(WriterInside(s.writer.pc)) == 1
    && s.sems[1] == ReadersInside(s.readers)
  }

  ghost predicate Invariant(s: Sys) {
    UndoIsHeld(s) && Balanced(s)
  }

  lemma {:induction false} InsideUpdate(rs: seq<Reader>, i: nat, x: Reader)
    requires i < |rs|
    ensures ReadersInside(rs[i := x]) == ReadersInside(rs) - Bit(Inside(rs[i].pc)) + Bit(Inside(x.pc))
  {
    var rs0 := rs[..|rs| - 1];
    if i == |rs| - 1 {
      assert rs[i := x][..i] == rs0;
    } else {
      assert rs[i := x][..|rs| - 1] == rs0[i := x];
      InsideUpdate(rs0, i, x);
    }
  }

  /** As many as there are: none, or someone in particular. */
  lemma {:induction false} InsideWitness(rs: seq<Reader>)
    ensures ReadersInside(rs) == 0 <==> forall i :: 0 <= i < |rs| ==> !Inside(rs[i].pc)
  {
    if rs != [] {
      InsideWitness(rs[..|rs| - 1]);
      assert forall i :: 0 <= i < |rs| - 1 ==> rs[..|rs| - 1][i] == rs[i];
    }
  }

  lemma InsideAlone(rs: seq<Reader>, i: nat, j: nat)
    requires i < |rs| && j < |rs| && i != j && Inside(rs[i].pc) && Inside(rs[j].pc)
    ensures ReadersInside(rs) >= 2
  {
    var x := Reader(Outside, [0, 0]);
    InsideUpdate(rs, i, x);
    InsideWitness(rs[i := x]);
    assert Inside(rs[i := x][j].pc);
  }

  /** What the four calls do to the two semaphores and to the caller's adjustments. */
  lemma Calls(a: int, b: int, x: int, y: int)
    ensures Semop([a, b], START_READ) == if a >= 1 then Some([a - 1, b + 1]) else None
    ensures Semop([a, b], END_READ) == if b >= 1 then Some([a + 1, b - 1]) else None
    ensures Semop([a, b], START_WRITE) == if a >= 1 then Some([a - 1, b]) else None
    ensures Semop([a, b], END_WRITE) == Some([a + 1, b])
    ensures Charge([x, y], START_READ) == [x + 1, y - 1]
    ensures Charge([x, y], END_READ) == [x - 1, y + 1]
    ensures Charge([x, y], START_WRITE) == [x + 1, y]
    ensures Charge([x, y], END_WRITE) == [x - 1, y]
  {
    assert START_READ[1..] == [SemBuf(1, 1)] && END_READ[1..] == [SemBuf(0, 1)];
    assert [SemBuf(1, 1)][1..] == [] && [SemBuf(0, 1)][1..] == [] && [SemBuf(0, -1)][1..] == [];
    assert [a, b][0 := a - 1] == [a - 1, b] && [a, b][0 := a + 1] == [a + 1, b];
    assert [a, b][1 := b - 1] == [a, b - 1];
    assert [a - 1, b][1 := b + 1] == [a - 1, b + 1] && [a, b - 1][0 := a + 1] == [a + 1, b - 1];
  }

  /** A step of reader `i` that moves both semaphores by the change of its section. */
  lemma ReaderChangeKeeps(s: Sys, s': Sys, i: nat)
    requires Invariant(s) && i < |s.readers| == |s'.readers|
    requires s'.readers == s.readers[i := s'.readers[i]] && s'.writer == s.writer
    requires s'.readers[i].adj == if Inside(s'.readers[i].pc) then [1, -1] else [0, 0]
    requires var d := Bit(Inside(s'.readers[i].pc)) - Bit(Inside(s.readers[i].pc));
             s'.sems == [s.sems[0] - d, s.sems[1] + d] && s.sems[0] - d >= 0
    ensures Invariant(s')
  {
    InsideUpdate(s.readers, i, s'.readers[i]);
  }

  lemma ReaderCallKeeps(s: Sys, st: Step)
    requires WellFormed(s) && Enabled(s, st) && Invariant(s) && (st.StartRead? || st.EndRead?)
    ensures Invariant(Next(s, st))
  {
    hide ReadersInside;
    hide Semop;
    hide Charge;
    var i := st.i;
    var adj := s.readers[i].adj;
    assert s.sems == [s.sems[0], s.sems[1]];
    Calls(s.sems[0], s.sems[1], adj[0], adj[1]);
    assert adj == [adj[0], adj[1]];
    ReaderChangeKeeps(s, Next(s, st), i);
  }

  lemma ReaderSendKeeps(s: Sys, st: Step)
    requires WellFormed(s) && Enabled(s, st) && Invariant(s) && (st.Send? || st.SendFails?)
    ensures Invariant(Next(s, st))
  {
    assert s.sems == [s.sems[0], s.sems[1]];
    ReaderChangeKeeps(s, Next(s, st), st.i);
  }

  lemma ReaderGoneKeeps(s: Sys, i: nat)
    requires WellFormed(s) && i < |s.readers| && Invariant(s)
    ensures Invariant(ReaderGone(s, i))
  {
    assert s.sems == [s.sems[0], s.sems[1]];
    ReaderChangeKeeps(s, ReaderGone(s, i), i);
  }

  lemma WriterCallKeeps(s: Sys, st: Step)
    requires WellFormed(s) && Enabled(s, st) && Invariant(s) && (st.StartWrite? || st.EndWrite?)
    ensures Invariant(Next(s, st))
  {
    hide ReadersInside;
    hide Semop;
    hide Charge;
    var adj := s.writer.adj;
    assert s.sems == [s.sems[0], s.sems[1]];
    Calls(s.sems[0], s.sems[1], adj[0], adj[1]);
    assert adj == [adj[0], adj[1]];
  }

  lemma WriterStepKeeps(s: Sys, st: Step)
    requires WellFormed(s) && Enabled(s, st) && Invariant(s)
    requires st.Poll? || st.Fetch? || st.FetchEof? || st.Append? || st.WriterExits?
    ensures Invariant(Next(s, st))
  {
    hide ReadersInside;
    assert s.sems == [s.sems[0], s.sems[1]];
  }

  lemma StepKeeps(s: Sys, st: Step)
    requires WellFormed(s) && Enabled(s, st) && Invariant(s)
    ensures Invariant(Next(s, st))
  {
    match st
    case StartRead(_) => ReaderCallKeeps(s, st);
    case EndRead(_) => ReaderCallKeeps(s, st);
    case Send(_, _) => ReaderSendKeeps(s, st);
    case SendFails(_) => ReaderSendKeeps(s, st);
    case BrokenPipe(i) => ReaderGoneKeeps(s, i);
    case ReaderExits(i) => ReaderGoneKeeps(s, i);
    case StartWrite => WriterCallKeeps(s, st);
    case EndWrite => WriterCallKeeps(s, st);
    case _ => WriterStepKeeps(s, st);
  }

  /** In every reachable state, exits included, lock + readers inside + writer inside = 1, the count is
      the number of readers inside, and each process's adjustments are what it holds. */
  lemma {:induction false} AlwaysBalanced(cap: nat, n: nat, r: Run)
    requires Legal(cap, n, r)
    ensures Invariant(State(cap, n, r))
    decreases r
  {
    if r.Then? {
      AlwaysBalanced(cap, n, r.prev);
      StepKeeps(State(cap, n, r.prev), r.step);
    } else {
      InsideWitness(Init(cap, n).readers);
    }
  }

  /** Readers exclude the writer, and each other. */
  lemma Exclusion(cap: nat, n: nat, r: Run, i: nat)
    requires Legal(cap, n, r) && i < |State(cap, n, r).readers| && Inside(State(cap, n, r).readers[i].pc)
    ensures !WriterInside(State(cap, n, r).writer.pc)
    ensures forall j :: 0 <= j < |State(cap, n, r).readers| && j != i ==> !Inside(State(cap, n, r).readers[j].pc)
  {
    AlwaysBalanced(cap, n, r);
    var rs := State(cap, n, r).readers;
    InsideWitness(rs);
    forall j | 0 <= j < |rs| && j != i ensures !Inside(rs[j].pc) {
      if Inside(rs[j].pc) {
        InsideAlone(rs, i, j);
      }
    }
  }

  /** The writer's poll loop leaves at its first test. */
  lemma PollEndsAtOnce(cap: nat, n: nat, r: Run)
    requires Legal(cap, n, r) && Enabled(State(cap, n, r), Poll)
    ensures Next(State(cap, n, r), Poll).writer.pc == Fetching
  {
    AlwaysBalanced(cap, n, r);
  }

  lemma ExitOfReader(s: Sys, i: nat)
    requires WellFormed(s) && Invariant(s) && Enabled(s, ReaderExits(i))
    ensures Next(s, ReaderExits(i)).sems == if Inside(s.readers[i].pc) then [1, 0] else s.sems
    ensures Inside(s.readers[i].pc) ==> Some(Next(s, ReaderExits(i)).sems) == Semop(s.sems, END_READ)
    ensures Invariant(Next(s, ReaderExits(i)))
  {
    hide ReadersInside;
    hide Semop;
    hide Charge;
    ReaderGoneKeeps(s, i);
    assert s.sems == [s.sems[0], s.sems[1]];
    if Inside(s.readers[i].pc) {
      InsideWitness(s.readers);
      assert s.sems == [0, 1];
      Calls(0, 1, 0, 0);
      assert Undo([0, 1], [1, -1]) == [1, 0];
    } else {
      assert Undo(s.sems, [0, 0]) == s.sems;
    }
  }

  /** An exit at any point does to the semaphores just what leaving the section would have done. */
  lemma ExitReleases(cap: nat, n: nat, r: Run, i: nat)
    requires Legal(cap, n, r) && i < |State(cap, n, r).readers| && State(cap, n, r).readers[i].pc != Gone
    ensures var s := State(cap, n, r);
            && Enabled(s, ReaderExits(i))
            && Next(s, ReaderExits(i)).readers[i].pc == Gone
            && Next(s, ReaderExits(i)).sems == (if Inside(s.readers[i].pc) then [1, 0] else s.sems)
            && (Inside(s.readers[i].pc) ==> Some(Next(s, ReaderExits(i)).sems) == Semop(s.sems, END_READ))
            && Invariant(Next(s, ReaderExits(i)))
  {
    AlwaysBalanced(cap, n, r);
    ExitOfReader(State(cap, n, r), i);
  }

  lemma ExitOfWriter(s: Sys)
    requires WellFormed(s) && Invariant(s) && Enabled(s, WriterExits)
    ensures Next(s, WriterExits).sems == if WriterInside(s.writer.pc) then [1, 0] else s.sems
    ensures WriterInside(s.writer.pc) ==> Some(Next(s, WriterExits).sems) == Semop(s.sems, END_WRITE)
    ensures Invariant(Next(s, WriterExits))
  {
    WriterStepKeeps(s, WriterExits);
    hide ReadersInside;
    hide Semop;
    hide Charge;
    assert s.sems == [s.sems[0], s.sems[1]];
    Calls(s.sems[0], s.sems[1], 0, 0);
  }

  lemma WriterExitReleases(cap: nat, n: nat, r: Run)
    requires Legal(cap, n, r) && !State(cap, n, r).writer.pc.WGone?
    ensures var s := State(cap, n, r);
            && Enabled(s, WriterExits)
            && Next(s, WriterExits).writer.pc == WGone(Hand(s.writer.pc))
            && Next(s, WriterExits).sems == if WriterInside(s.writer.pc) then [1, 0] else s.sems
    ensures var s := State(cap, n, r);
            WriterInside(s.writer.pc) ==> Some(Next(s, WriterExits).sems) == Semop(s.sems, END_WRITE)
    ensures Invariant(Next(State(cap, n, r), WriterExits))
  {
    AlwaysBalanced(cap, n, r);
    ExitOfWriter(State(cap, n, r));
  }

  // ---------- Stuck states ----------

  ghost predicate SomeoneLeft(s: Sys) {
    !AllGone(s.readers) || !s.writer.pc.WGone?
  }

  /** Somebody is left and nobody can move, short of a fault. */
  ghost predicate Stuck(s: Sys)
    requires WellFormed(s)
  {
    SomeoneLeft(s) && forall st :: Enabled(s, st) ==> Fault(st)
  }

  /** The lock holder waits for the pipe: the writer at an empty one, or a reader at a full one. */
  ghost predicate HolderWaits(s: Sys) {
    || (s.writer.pc == Fetching && s.pipe == [] && !AllGone(s.readers))
    || (!s.writer.pc.WGone? && |s.pipe| >= s.cap && exists i: nat :: At(s, i, Reading))
  }

  lemma WaitingIsStuck(s: Sys, st: Step)
    requires WellFormed(s) && Invariant(s) && HolderWaits(s) && Enabled(s, st)
    ensures Fault(st)
  {
    assert s.sems == [s.sems[0], s.sems[1]];
    Calls(s.sems[0], s.sems[1], 0, 0);
    InsideWitness(s.readers);
    if s.writer.pc != Fetching {
      var i: nat :| At(s, i, Reading);
      if st.EndRead? {
        InsideAlone(s.readers, i, st.i);
      }
    }
  }

  lemma NotWaitingMoves(s: Sys) returns (st: Step)
    requires WellFormed(s) && Invariant(s) && !HolderWaits(s) && SomeoneLeft(s)
    ensures Enabled(s, st) && !Fault(st)
  {
    hide Semop;
    hide Charge;
    assert s.sems == [s.sems[0], s.sems[1]];
    Calls(s.sems[0], s.sems[1], 0, 0);
    InsideWitness(s.readers);
    if ReadersInside(s.readers) > 0 {
      var i: nat :| i < |s.readers| && Inside(s.readers[i].pc);
      assert At(s, i, s.readers[i].pc);
      st := if s.readers[i].pc == Wrote then EndRead(i) else if s.writer.pc.WGone? then BrokenPipe(i) else Send(i, 0);
    } else if !AllGone(s.readers) && !WriterInside(s.writer.pc) {
      var i: nat :| i < |s.readers| && s.readers[i].pc != Gone;
      st := StartRead(i);
    } else {
      st := match s.writer.pc
        case WOutside => StartWrite
        case Polling => Poll
        case Fetching => if s.pipe != [] then Fetch else FetchEof(0)
        case Holding(_) => Append
        case _ => EndWrite;
    }
  }

  /** A reachable state is stuck iff the lock holder is the writer at an empty pipe or a reader at a full one. */
  lemma StuckStates(cap: nat, n: nat, r: Run)
    requires Legal(cap, n, r)
    ensures Stuck(State(cap, n, r)) <==> HolderWaits(State(cap, n, r))
  {
    AlwaysBalanced(cap, n, r);
    var s := State(cap, n, r);
    if HolderWaits(s) {
      forall st | Enabled(s, st) ensures Fault(st) {
        WaitingIsStuck(s, st);
      }
    } else if SomeoneLeft(s) {
      var st := NotWaitingMoves(s);
    }
  }

  /** It does happen, for any number of readers and any pipe: the writer goes first. */
  lemma WriterFirstIsStuck(cap: nat, n: nat)
    requires n >= 1
    ensures Legal(cap, n, Then(Then(Begin, StartWrite), Poll))
    ensures Stuck(State(cap, n, Then(Then(Begin, StartWrite), Poll)))
  {
    var r1 := Then(Begin, StartWrite);
    Calls(1, 0, 0, 0);
    assert Enabled(Init(cap, n), StartWrite);
    assert State(cap, n, r1).writer.pc == Polling && State(cap, n, r1).sems == [0, 0];
    var s := State(cap, n, Then(r1, Poll));
    assert s.writer.pc == Fetching && s.pipe == [] && s.readers[0].pc == Outside;
    StuckStates(cap, n, Then(r1, Poll));
  }

  /** A run without faults. */
  ghost predicate Faultless(r: Run) {
    r.Then? ==> Faultless(r.prev) && !Fault(r.step)
  }

  lemma Extend(cap: nat, n: nat, r: Run, st: Step)
    requires Legal(cap, n, r) && Enabled(State(cap, n, r), st)
    ensures Legal(cap, n, Then(r, st)) && State(cap, n, Then(r, st)) == Next(State(cap, n, r), st)
    ensures Faultless(r) && !Fault(st) ==> Faultless(Then(r, st))
  {
  }

  /** The first reader going through its section `k` times. */
  ghost function Fill(k: nat): Run {
    if k == 0 then Begin else Then(Then(Then(Fill(k - 1), StartRead(0)), Send(0, 0)), EndRead(0))
  }

  ghost predicate AtRest(s: Sys, cap: nat, n: nat, k: nat) {
    && s.cap == cap && s.sems == [1, 0] && |s.readers| == n && s.writer == Writer(WOutside, [0, 0]) && |s.pipe| == k
    && forall i :: 0 <= i < n ==> s.readers[i] == Reader(Outside, [0, 0])
  }

  lemma SectionSends(cap: nat, n: nat, r: Run, k: nat, v: int)
    requires n >= 1 && k < cap && Legal(cap, n, r) && AtRest(State(cap, n, r), cap, n, k) && 0 <= v < 100
    ensures var s, r' := State(cap, n, r), Then(Then(Then(r, StartRead(0)), Send(0, v)), EndRead(0));
            && Legal(cap, n, r') && AtRest(State(cap, n, r'), cap, n, k + 1)
            && State(cap, n, r').pipe == s.pipe + [v] && State(cap, n, r').file == s.file
            && (Faultless(r) ==> Faultless(r'))
  {
    hide Faultless;
    hide Legal;
    hide State;
    hide Semop;
    hide Charge;
    Calls(1, 0, 0, 0);
    Calls(0, 1, 1, -1);
    var r1 := Then(r, StartRead(0));
    Extend(cap, n, r, StartRead(0));
    assert State(cap, n, r1).sems == [0, 1] && State(cap, n, r1).readers[0] == Reader(Reading, [1, -1]);
    Extend(cap, n, r1, Send(0, v));
    Extend(cap, n, Then(r1, Send(0, v)), EndRead(0));
  }

  lemma {:induction false} FillFills(cap: nat, n: nat, k: nat)
    requires n >= 1 && k <= cap
    ensures Legal(cap, n, Fill(k)) && AtRest(State(cap, n, Fill(k)), cap, n, k)
  {
    if k > 0 {
      FillFills(cap, n, k - 1);
      SectionSends(cap, n, Fill(k - 1), k - 1, 0);
    }
  }

  /** So is a reader that meets a full pipe, for any number of readers and any capacity. */
  lemma FullPipeIsStuck(cap: nat, n: nat)
    requires n >= 1
    ensures Legal(cap, n, Then(Fill(cap), StartRead(0)))
    ensures At(State(cap, n, Then(Fill(cap), StartRead(0))), 0, Reading)
    ensures Stuck(State(cap, n, Then(Fill(cap), StartRead(0))))
  {
    hide Legal;
    hide State;
    hide Fill;
    hide Stuck;
    FillFills(cap, n, cap);
    Calls(1, 0, 0, 0);
    Extend(cap, n, Fill(cap), StartRead(0));
    StuckStates(cap, n, Then(Fill(cap), StartRead(0)));
  }

  // ---------- What runs without faults do ----------

  /** Short of a fault every process goes round its loop for ever. */
  lemma {:induction false} NobodyLeaves(cap: nat, n: nat, r: Run)
    requires Legal(cap, n, r) && Faultless(r)
    ensures var s := State(cap, n, r);
            !s.writer.pc.WGone? && |s.readers| == n && forall i :: 0 <= i < n ==> s.readers[i].pc != Gone
    decreases r
  {
    if r.Then? {
      hide Semop;
      hide Charge;
      NobodyLeaves(cap, n, r.prev);
    }
  }

  /** The first reader sends `v` and the writer appends it. */
  ghost function Round(r: Run, v: int): Run {
    var sent := Then(Then(Then(r, StartRead(0)), Send(0, v)), EndRead(0));
    Then(Then(Then(Then(Then(sent, StartWrite), Poll), Fetch), Append), EndWrite)
  }

  lemma WriterRound(cap: nat, n: nat, r: Run, v: int)
    requires Legal(cap, n, r) && AtRest(State(cap, n, r), cap, n, 1) && State(cap, n, r).pipe == [v]
    ensures var r' := Then(Then(Then(Then(Then(r, StartWrite), Poll), Fetch), Append), EndWrite);
            && Legal(cap, n, r') && AtRest(State(cap, n, r'), cap, n, 0)
            && State(cap, n, r').file == State(cap, n, r).file + [Received(v)]
            && (Faultless(r) ==> Faultless(r'))
  {
    hide Faultless;
    hide Legal;
    hide State;
    hide Semop;
    hide Charge;
    Calls(1, 0, 0, 0);
    Calls(0, 0, 1, 0);
    var s := State(cap, n, r);
    Extend(cap, n, r, StartWrite);
    var r1 := Then(r, StartWrite);
    assert State(cap, n, r1) == s.(sems := [0, 0], writer := Writer(Polling, [1, 0]));
    Extend(cap, n, r1, Poll);
    var r2 := Then(r1, Poll);
    Extend(cap, n, r2, Fetch);
    var r3 := Then(r2, Fetch);
    Extend(cap, n, r3, Append);
    var r4 := Then(r3, Append);
    assert State(cap, n, r4)
        == s.(sems := [0, 0], writer := Writer(Appended, [1, 0]), pipe := [], file := s.file + [Received(v)]);
    Extend(cap, n, r4, EndWrite);
  }

  lemma AtBegin(cap: nat, n: nat)
    ensures Legal(cap, n, Begin) && Faultless(Begin)
    ensures AtRest(State(cap, n, Begin), cap, n, 0) && State(cap, n, Begin).file == []
  {
  }

  ghost function Delivery(vs: seq<int>): Run {
    if vs == [] then Begin else Round(Delivery(vs[..|vs| - 1]), vs[|vs| - 1])
  }

  /** Any numbers a reader may draw can reach the file, all of them and in order, without a fault, for any number
      of readers and any capacity. */
  lemma {:induction false} NumbersAreDelivered(cap: nat, n: nat, vs: seq<int>)
    requires cap >= 1 && n >= 1 && forall i :: 0 <= i < |vs| ==> 0 <= vs[i] < 100
    ensures Legal(cap, n, Delivery(vs)) && Faultless(Delivery(vs))
    ensures AtRest(State(cap, n, Delivery(vs)), cap, n, 0) && State(cap, n, Delivery(vs)).file == Lines(vs)
  {
    hide Legal;
    hide State;
    hide Faultless;
    if vs == [] {
      AtBegin(cap, n);
    } else {
      var vs0, v := vs[..|vs| - 1], vs[|vs| - 1];
      NumbersAreDelivered(cap, n, vs0);
      var r := Delivery(vs0);
      SectionSends(cap, n, r, 0, v);
      WriterRound(cap, n, Then(Then(Then(r, StartRead(0)), Send(0, v)), EndRead(0)), v);
      assert Lines(vs) == Lines(vs0) + [Received(v)];
    }
  }

  // ---------- Conservation ----------

  /** Lines from the pipe, then the writer's hand, then the pipe, are what readers sent; a line that did not
      come from the pipe appears only after every reader is gone. */
  ghost predicate Conserved(s: Sys, sent: seq<int>) {
    && Numbers(s.file) + Numbers(Hand(s.writer.pc)) + s.pipe == sent
    && ((exists l :: l in s.file + Hand(s.writer.pc) && l.Stale?) ==> AllGone(s.readers))
    && |s.pipe| <= s.cap
    && |Hand(s.writer.pc)| <= 1
  }

  lemma StepConserves(s: Sys, st: Step, sent: seq<int>)
    requires WellFormed(s) && Enabled(s, st) && Conserved(s, sent)
    ensures Conserved(Next(s, st), sent + (if st.Send? then [st.n] else []))
  {
    hide Semop;
    hide Charge;
    hide Undo;
    hide Numbers;
    assert sent + [] == sent;
    NumbersEmpty();
    var s' := Next(s, st);
    match st
    case Send(_, n) =>
      assert Numbers(s.file) + Numbers(Hand(s.writer.pc)) + (s.pipe + [n]) == sent + [n];
    case Fetch =>
      NumbersAppend([], Received(s.pipe[0]));
      assert s.pipe == [s.pipe[0]] + s.pipe[1..];
      assert Numbers(s.file) + [] + s.pipe == Numbers(s.file) + [s.pipe[0]] + s.pipe[1..];
    case FetchEof(n) => NumbersAppend([], Stale(n));
    case Append =>
      var l := s.writer.pc.line;
      NumbersAppend(s.file, l);
      assert Numbers(s.file) + Numbers([l]) + [] == Numbers(s.file) + Numbers([l]);
      assert s.file + [l] == s'.file + Hand(s'.writer.pc);
    case _ =>
      assert s'.file + Hand(s'.writer.pc) == s.file + Hand(s.writer.pc);
  }

  lemma {:induction false} PipeConservation(cap: nat, n: nat, r: Run)
    requires Legal(cap, n, r)
    ensures Conserved(State(cap, n, r), Sent(r))
    decreases r
  {
    if r.Then? {
      PipeConservation(cap, n, r.prev);
      StepConserves(State(cap, n, r.prev), r.step, Sent(r.prev));
    }
  }
}
