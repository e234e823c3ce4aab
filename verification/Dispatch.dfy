/**
 The taxi dispatch protocol: one CLI process and any number of driver processes that exchange
 messages over FIFO queues.  This module holds the data, what each handler computes, the steps of the
 whole system and its runs; `DispatchProofs` proves what every run keeps and `DispatchCode`
 holds the handlers in their imperative form.
 */
module Dispatch {

  const MAX_DRIVERS: nat := 50
  const CLI_QUEUE_KEY: int := 0x1234
  const BASE_DRIVER_KEY: int := 0x5678

  datatype Kind = Register | Task | StatusReq | StatusResp | StatusUpdate | BusyResp

  datatype Msg = Msg(kind: Kind, pid: int, data: int)

  datatype Status = Available | Busy

  /** One row of the CLI's table. */
  datatype Row = Row(pid: int, status: Status, remaining: int, queue: int)

  /** No timer descriptor; a descriptor that never expires; a descriptor that will expire.
      Setting a timer to zero disarms it and a negative time is an error, so neither ever expires. */
  datatype Timer = NoTimer | Disarmed | Armed

  /** The driver's loop variables; `outbox` is a message it has composed but not yet sent. */
  datatype Driver = Driver(busy: bool, remaining: int, timer: Timer, outbox: seq<Msg>)

  // ---------- What the handlers compute ----------

  function TimerFor(seconds: int): Timer {
    if seconds > 0 then Armed else Disarmed
  }

  function NewDriver(pid: int): Driver {
    Driver(false, 0, NoTimer, [Msg(Register, pid, BASE_DRIVER_KEY + pid)])
  }

  function OnMessage(d: Driver, self: int, m: Msg): Driver {
    if m.kind != Task then d
    else if !d.busy then Driver(true, m.data, TimerFor(m.data), d.outbox + [Msg(StatusUpdate, self, m.data)])
    else d.(outbox := d.outbox + [Msg(BusyResp, self, d.remaining)])
  }

  function OnTimer(d: Driver, self: int): Driver {
    Driver(false, 0, NoTimer, d.outbox + [Msg(StatusUpdate, self, 0)])
  }

  /** Index of the first row of `pid`, or -1. */
  function FindDriver(table: seq<Row>, pid: int): (i: int)
    ensures -1 <= i < |table|
    ensures i >= 0 ==> table[i].pid == pid
    ensures forall j :: 0 <= j < (if i < 0 then |table| else i) ==> table[j].pid != pid
  {
    if |table| == 0 then -1
    else
      var i := FindDriver(table[..|table| - 1], pid);
      if i >= 0 then i else if table[|table| - 1].pid == pid then |table| - 1 else -1
  }

  function UpdateStatus(table: seq<Row>, pid: int, busy: bool, remaining: int): seq<Row> {
    var i := FindDriver(table, pid);
    if i < 0 then table
    else table[i := table[i].(status := if busy then Busy else Available, remaining := remaining)]
  }

  function Receive(table: seq<Row>, m: Msg): seq<Row> {
    match m.kind
    case Register => if |table| < MAX_DRIVERS then table + [Row(m.pid, Available, 0, m.data)] else table
    case StatusUpdate => UpdateStatus(table, m.pid, m.data > 0, m.data)
    case _ => table
  }

  function ReceiveAll(table: seq<Row>, ms: seq<Msg>): seq<Row>
    decreases |ms|
  {
    if ms == [] then table else ReceiveAll(Receive(table, ms[0]), ms[1..])
  }

  // ---------- The whole system ----------

  type Queues = map<int, seq<Msg>>

  function Queue(q: Queues, key: int): seq<Msg> {
    if key in q then q[key] else []
  }

  function Put(q: Queues, key: int, ms: seq<Msg>): Queues {
    q[key := Queue(q, key) + ms]
  }

  function Drop(q: Queues, key: int): Queues
    requires Queue(q, key) != []
  {
    q[key := Queue(q, key)[1..]]
  }

  /** `cli` is the pid of the CLI process; `procs` holds every driver ever forked. */
  datatype Sys = Sys(cli: int, table: seq<Row>, procs: map<int, Driver>, queues: Queues)

  datatype Step =
    | Create(pid: int)               // create_driver forks a driver
    | Flush(pid: int)                // a driver sends the message it composed
    | Deliver(pid: int)              // a driver takes a message from its own queue
    | Expire(pid: int)               // a driver's timer expires
    | CliReceive                     // the CLI takes a message from its queue
    | SendTask(pid: int, timer: int) // the command send_task

  function Init(cli: int): Sys {
    Sys(cli, [], map[], map[])
  }

  predicate Enabled(s: Sys, st: Step) {
    match st
    case Create(pid) => pid > 0 && pid != s.cli && pid !in s.procs
    case Flush(pid) => pid in s.procs && s.procs[pid].outbox != []
    case Deliver(pid) =>
      pid in s.procs && s.procs[pid].outbox == [] && Queue(s.queues, BASE_DRIVER_KEY + pid) != []
    case Expire(pid) => pid in s.procs && s.procs[pid].outbox == [] && s.procs[pid].timer == Armed
    case CliReceive => Queue(s.queues, CLI_QUEUE_KEY) != []
    case SendTask(pid, timer) => true
  }

  function Next(s: Sys, st: Step): Sys
    requires Enabled(s, st)
  {
    match st
    case Create(pid) => s.(procs := s.procs[pid := NewDriver(pid)])
    case Flush(pid) =>
      var d := s.procs[pid];
      s.(procs := s.procs[pid := d.(outbox := [])], queues := Put(s.queues, CLI_QUEUE_KEY, d.outbox))
    case Deliver(pid) =>
      var key := BASE_DRIVER_KEY + pid;
      s.(procs := s.procs[pid := OnMessage(s.procs[pid], pid, Queue(s.queues, key)[0])],
         queues := Drop(s.queues, key))
    case Expire(pid) => s.(procs := s.procs[pid := OnTimer(s.procs[pid], pid)])
    case CliReceive =>
      s.(table := Receive(s.table, Queue(s.queues, CLI_QUEUE_KEY)[0]), queues := Drop(s.queues, CLI_QUEUE_KEY))
    case SendTask(pid, timer) =>
      var i := FindDriver(s.table, pid);
      if i < 0 then s else s.(queues := Put(s.queues, s.table[i].queue, [Msg(Task, s.cli, timer)]))
  }

  /** A run is the list of steps taken so far, the last one outermost. */
  datatype Run = Start | Then(prev: Run, step: Step)

  ghost predicate Legal(cli: int, r: Run)
    decreases r, 0
  {
    r.Then? ==> Legal(cli, r.prev) && Enabled(State(cli, r.prev), r.step)
  }

  /** The state a run ends in. */
  ghost function State(cli: int, r: Run): Sys
    requires Legal(cli, r)
    decreases r, 1
  {
    match r
    case Start => Init(cli)
    case Then(p, st) => Next(State(cli, p), st)
  }

  // ---------- What happened during a run ----------

  datatype Event = Accepted(timer: int) | Refused(timer: int) | Expired

  ghost function EventsIn(s: Sys, st: Step, pid: int): seq<Event>
    requires Enabled(s, st)
  {
    match st
    case Deliver(q) =>
      var m := Queue(s.queues, BASE_DRIVER_KEY + q)[0];
      if q != pid || m.kind != Task then []
      else if s.procs[pid].busy then [Refused(m.data)] else [Accepted(m.data)]
    case Expire(q) => if q == pid then [Expired] else []
    case _ => []
  }

  /** What driver `pid` did, in order. */
  ghost function Events(cli: int, r: Run, pid: int): seq<Event>
    requires Legal(cli, r)
  {
    match r
    case Start => []
    case Then(p, st) => Events(cli, p, pid) + EventsIn(State(cli, p), st, pid)
  }

  ghost function SentIn(s: Sys, st: Step, pid: int): seq<int> {
    if st.SendTask? && st.pid == pid && FindDriver(s.table, pid) >= 0 then [st.timer] else []
  }

  /** The timers of the tasks the CLI sent to a registered `pid`, in order. */
  ghost function TasksSent(cli: int, r: Run, pid: int): seq<int>
    requires Legal(cli, r)
  {
    match r
    case Start => []
    case Then(p, st) => TasksSent(cli, p, pid) + SentIn(State(cli, p), st, pid)
  }

  ghost function ReceivedIn(s: Sys, st: Step): seq<Msg>
    requires Enabled(s, st)
  {
    if st.CliReceive? then [Queue(s.queues, CLI_QUEUE_KEY)[0]] else []
  }

  /** The messages the CLI has received, in order. */
  ghost function Consumed(cli: int, r: Run): seq<Msg>
    requires Legal(cli, r)
  {
    match r
    case Start => []
    case Then(p, st) => Consumed(cli, p) + ReceivedIn(State(cli, p), st)
  }

  /** The messages of `pid` in `ms`. */
  function From(ms: seq<Msg>, pid: int): seq<Msg> {
    if ms == [] then []
    else From(ms[..|ms| - 1], pid) + (if ms[|ms| - 1].pid == pid then [ms[|ms| - 1]] else [])
  }

  /** What the CLI shows of a driver. */
  datatype View = View(status: Status, remaining: int)

  /** A view after the status updates of `ms`, in order. */
  function ApplyUpdates(v: View, ms: seq<Msg>): View {
    if ms == [] then v
    else
      var m := ms[|ms| - 1];
      if m.kind == StatusUpdate then View(if m.data > 0 then Busy else Available, m.data)
      else ApplyUpdates(v, ms[..|ms| - 1])
  }

  /** The row of `pid`, as get_status shows it. */
  function RowView(table: seq<Row>, pid: int): View
    requires FindDriver(table, pid) >= 0
  {
    var row := table[FindDriver(table, pid)];
    View(row.status, row.remaining)
  }

  function Truth(d: Driver): View {
    View(if d.busy then Busy else Available, d.remaining)
  }
}
