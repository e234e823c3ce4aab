/** What every run of the dispatch protocol keeps. */
module DispatchProofs {
  import opened Dispatch

  // ---------- A driver's history determines its state and its messages ----------

  /** The state a driver is in after the events `es`, with an empty outbox. */
  ghost function Replay(es: seq<Event>): Driver {
    if es == [] then Driver(false, 0, NoTimer, [])
    else match es[|es| - 1]
      case Accepted(t) => Driver(true, t, TimerFor(t), [])
      case Refused(_) => Replay(es[..|es| - 1])
      case Expired => Driver(false, 0, NoTimer, [])
  }

  /** The message event `e` makes driver `pid` compose after the events `es`. */
  ghost function Emit(pid: int, es: seq<Event>, e: Event): Msg {
    match e
    case Accepted(t) => Msg(StatusUpdate, pid, t)
    case Refused(_) => Msg(BusyResp, pid, Replay(es).remaining)
    case Expired => Msg(StatusUpdate, pid, 0)
  }

  ghost function Emits(pid: int, es: seq<Event>): (ms: seq<Msg>)
    ensures |ms| == |es|
    ensures forall m :: m in ms ==> m.pid == pid && m.kind in {StatusUpdate, BusyResp}
  {
    if es == [] then []
    else Emits(pid, es[..|es| - 1]) + [Emit(pid, es[..|es| - 1], es[|es| - 1])]
  }

  /** All a driver has composed after `es`: its registration, then a message for each event. */
  ghost function Stream(pid: int, es: seq<Event>): seq<Msg> {
    [Msg(Register, pid, BASE_DRIVER_KEY + pid)] + Emits(pid, es)
  }

  /** Tasks are accepted when idle and refused when busy, and only an armed timer expires. */
  ghost predicate Possible(es: seq<Event>) {
    es != [] ==>
      var d := Replay(es[..|es| - 1]);
      && Possible(es[..|es| - 1])
      && match es[|es| - 1]
         case Accepted(_) => !d.busy
         case Refused(_) => d.busy
         case Expired => d.timer == Armed
  }

  /** The timers of the tasks a driver has taken from its queue. */
  ghost function Handled(es: seq<Event>): seq<int> {
    if es == [] then []
    else Handled(es[..|es| - 1]) +
         match es[|es| - 1]
         case Accepted(t) => [t]
         case Refused(t) => [t]
         case Expired => []
  }

  ghost function Timers(ms: seq<Msg>): (ts: seq<int>)
    ensures |ts| == |ms|
  {
    seq(|ms|, i requires 0 <= i < |ms| => ms[i].data)
  }

  // ---------- The invariant, driver by driver ----------

  ghost const IDLE: View := View(Available, 0)

  ghost predicate DriverKept(s: Sys, pid: int, es: seq<Event>) {
    && Possible(es)
    && if pid in s.procs then pid > 0 && s.procs[pid].(outbox := []) == Replay(es) else es == []
  }

  /** Everything a driver composed is received, pending or in its outbox, in order and once. */
  ghost predicate StreamKept(s: Sys, pid: int, es: seq<Event>, consumed: seq<Msg>) {
    var seen, pending := From(consumed, pid), From(Queue(s.queues, CLI_QUEUE_KEY), pid);
    if pid in s.procs then
      seen + pending + s.procs[pid].outbox == Stream(pid, es)
    else seen == [] && pending == []
  }

  ghost predicate TasksKept(s: Sys, pid: int, es: seq<Event>, sent: seq<int>) {
    var q := Queue(s.queues, BASE_DRIVER_KEY + pid);
    pid > 0 ==>
      && (forall m :: m in q ==> m.kind == Task)
      && sent == Handled(es) + Timers(q)
  }

  /** The row of `pid`, if it has one, shows the messages `seen` and holds the driver's queue. */
  ghost predicate RowShows(table: seq<Row>, pid: int, seen: seq<Msg>) {
    var i := FindDriver(table, pid);
    i >= 0 ==>
      && seen != []
      && pid > 0
      && table[i].queue == BASE_DRIVER_KEY + pid
      && RowView(table, pid) == ApplyUpdates(IDLE, seen)
  }

  ghost predicate RowKept(s: Sys, pid: int, consumed: seq<Msg>) {
    RowShows(s.table, pid, From(consumed, pid))
  }

  ghost predicate Kept(s: Sys, pid: int, es: seq<Event>, consumed: seq<Msg>, sent: seq<int>) {
    && |s.table| <= MAX_DRIVERS
    && DriverKept(s, pid, es)
    && StreamKept(s, pid, es, consumed)
    && TasksKept(s, pid, es, sent)
    && RowKept(s, pid, consumed)
  }

  // ---------- Small facts ----------

  lemma {:induction false} FromConcat(a: seq<Msg>, b: seq<Msg>, pid: int)
    ensures From(a + b, pid) == From(a, pid) + From(b, pid)
  {
    if b == [] {
      assert a + b == a;
    } else {
      FromConcat(a, b[..|b| - 1], pid);
      assert (a + b)[..|a + b| - 1] == a + b[..|b| - 1];
    }
  }

  lemma FromHead(q: seq<Msg>, pid: int)
    requires q != []
    ensures From(q, pid) == (if q[0].pid == pid then [q[0]] else []) + From(q[1..], pid)
  {
    assert q == [q[0]] + q[1..];
    FromConcat([q[0]], q[1..], pid);
    assert [q[0]][..0] == [];
  }

  lemma FromOne(m: Msg, pid: int)
    ensures From([m], pid) == if m.pid == pid then [m] else []
  {
    assert [m][..0] == [];
  }

  lemma {:induction false} FromAll(q: seq<Msg>, pid: int, owner: int)
    requires forall m :: m in q ==> m.pid == owner
    ensures From(q, pid) == if pid == owner then q else []
  {
    if q != [] {
      FromAll(q[..|q| - 1], pid, owner);
    }
  }

  lemma FindUnique(table: seq<Row>, pid: int, i: int)
    requires 0 <= i < |table| && table[i].pid == pid
    requires forall j :: 0 <= j < i ==> table[j].pid != pid
    ensures FindDriver(table, pid) == i
  {
  }

  lemma FindAppend(table: seq<Row>, row: Row, pid: int)
    ensures FindDriver(table + [row], pid)
         == if FindDriver(table, pid) >= 0 then FindDriver(table, pid) else if row.pid == pid then |table| else -1
  {
    assert (table + [row])[..|table|] == table;
  }

  /** A status update changes the row of its own pid only. */
  lemma UpdateStatusRow(table: seq<Row>, p: int, busy: bool, remaining: int, pid: int)
    ensures var t := UpdateStatus(table, p, busy, remaining);
            && |t| == |table|
            && FindDriver(t, pid) == FindDriver(table, pid)
            && (FindDriver(t, pid) >= 0 ==>
                  var i := FindDriver(t, pid);
                  && t[i].queue == table[i].queue
                  && RowView(t, pid) == if p == pid then View(if busy then Busy else Available, remaining)
                                        else RowView(table, pid))
  {
    var t := UpdateStatus(table, p, busy, remaining);
    assert forall j :: 0 <= j < |t| ==> t[j].pid == table[j].pid;
    var i := FindDriver(table, pid);
    if i >= 0 {
      FindUnique(t, pid, i);
    }
  }

  /** Nothing but the first message of a driver's stream is a registration. */
  lemma StreamKinds(pid: int, es: seq<Event>, seen: seq<Msg>, m: Msg, rest: seq<Msg>)
    requires seen + [m] + rest == Stream(pid, es)
    ensures seen == [] ==> m == Msg(Register, pid, BASE_DRIVER_KEY + pid)
    ensures seen != [] ==> m.kind in {StatusUpdate, BusyResp}
  {
    var all := Stream(pid, es);
    assert (seen + [m] + rest)[|seen|] == m;
    if seen != [] {
      assert all[|seen|] in Emits(pid, es);
    }
  }

  /** A driver's stream holds its own messages only. */
  lemma StreamOwner(pid: int, es: seq<Event>, seen: seq<Msg>, out: seq<Msg>)
    requires seen + out == Stream(pid, es)
    ensures forall m :: m in out ==> m.pid == pid
  {
    var all := Stream(pid, es);
    forall m | m in out ensures m.pid == pid {
      var k :| 0 <= k < |out| && out[k] == m;
      assert m == (seen + out)[|seen| + k] == all[|seen| + k];
    }
  }

  // ---------- Every step keeps the invariant ----------

  lemma CreateKeeps(s: Sys, st: Step, pid: int, es: seq<Event>, consumed: seq<Msg>, sent: seq<int>)
    requires st.Create? && Enabled(s, st) && Kept(s, pid, es, consumed, sent)
    ensures Kept(Next(s, st), pid, es, consumed, sent)
  {
    assert Emits(pid, []) == [];
  }

  lemma FlushPending(s: Sys, st: Step, pid: int, consumed: seq<Msg>, es': seq<Event>)
    requires st.Flush? && Enabled(s, st) && StreamKept(s, st.pid, es', consumed)
    ensures var out := s.procs[st.pid].outbox;
            From(Queue(Next(s, st).queues, CLI_QUEUE_KEY), pid)
            == From(Queue(s.queues, CLI_QUEUE_KEY), pid) + (if pid == st.pid then out else [])
  {
    var queue, out := Queue(s.queues, CLI_QUEUE_KEY), s.procs[st.pid].outbox;
    StreamOwner(st.pid, es', From(consumed, st.pid) + From(queue, st.pid), out);
    FromConcat(queue, out, pid);
    FromAll(out, pid, st.pid);
  }

  lemma FlushStream(s: Sys, st: Step, pid: int, es: seq<Event>, consumed: seq<Msg>, es': seq<Event>)
    requires st.Flush? && Enabled(s, st) && StreamKept(s, pid, es, consumed)
    requires StreamKept(s, st.pid, es', consumed)
    ensures StreamKept(Next(s, st), pid, es, consumed)
  {
    hide From;
    hide Emits;
    FlushPending(s, st, pid, consumed, es');
    var seen, pending := From(consumed, pid), From(Queue(s.queues, CLI_QUEUE_KEY), pid);
    if pid == st.pid {
      var out := s.procs[pid].outbox;
      assert seen + (pending + out) + [] == seen + pending + out;
    } else {
      assert pending + [] == pending;
    }
  }

  lemma FlushKeeps(s: Sys, st: Step, pid: int, es: seq<Event>, consumed: seq<Msg>, sent: seq<int>,
                   es': seq<Event>)
    requires st.Flush? && Enabled(s, st) && Kept(s, pid, es, consumed, sent)
    requires StreamKept(s, st.pid, es', consumed)
    ensures Kept(Next(s, st), pid, es, consumed, sent)
  {
    FlushStream(s, st, pid, es, consumed, es');
    assert DriverKept(Next(s, st), pid, es);
    assert pid > 0 ==> BASE_DRIVER_KEY + pid != CLI_QUEUE_KEY;
  }

  lemma ExpireKeeps(s: Sys, st: Step, pid: int, es: seq<Event>, consumed: seq<Msg>, sent: seq<int>)
    requires st.Expire? && Enabled(s, st) && Kept(s, pid, es, consumed, sent)
    ensures Kept(Next(s, st), pid, es + EventsIn(s, st, pid), consumed, sent)
  {
    hide From;
    hide Emits;
    if st.pid == pid {
      var es1 := es + [Expired];
      assert es1[..|es|] == es;
      StreamGrows(pid, es, Expired, From(consumed, pid), From(Queue(s.queues, CLI_QUEUE_KEY), pid), []);
    } else {
      assert es + [] == es;
    }
  }

  /** Event `e` extends what a driver composed by its message. */
  lemma StreamGrows(pid: int, es: seq<Event>, e: Event, seen: seq<Msg>, pending: seq<Msg>, out: seq<Msg>)
    requires seen + pending + out == Stream(pid, es)
    ensures seen + pending + (out + [Emit(pid, es, e)])
         == Stream(pid, es + [e])
  {
    assert (es + [e])[..|es|] == es;
    assert seen + pending + (out + [Emit(pid, es, e)]) == (seen + pending + out) + [Emit(pid, es, e)];
  }

  /** What driver `pid` does with the head of its queue. */
  ghost function Delivered(s: Sys, pid: int): Event
    requires Enabled(s, Deliver(pid))
  {
    var m := Queue(s.queues, BASE_DRIVER_KEY + pid)[0];
    if s.procs[pid].busy then Refused(m.data) else Accepted(m.data)
  }

  lemma DeliverDriver(s: Sys, pid: int, es: seq<Event>)
    requires pid > 0 && Enabled(s, Deliver(pid)) && DriverKept(s, pid, es)
    requires Queue(s.queues, BASE_DRIVER_KEY + pid)[0].kind == Task
    ensures DriverKept(Next(s, Deliver(pid)), pid, es + [Delivered(s, pid)])
    ensures Next(s, Deliver(pid)).procs[pid].outbox == [Emit(pid, es, Delivered(s, pid))]
  {
    assert (es + [Delivered(s, pid)])[..|es|] == es;
  }

  lemma DeliverTasks(s: Sys, pid: int, es: seq<Event>, sent: seq<int>)
    requires pid > 0 && Enabled(s, Deliver(pid)) && TasksKept(s, pid, es, sent)
    ensures TasksKept(Next(s, Deliver(pid)), pid, es + [Delivered(s, pid)], sent)
  {
    var queue, e := Queue(s.queues, BASE_DRIVER_KEY + pid), Delivered(s, pid);
    assert (es + [e])[..|es|] == es;
    assert Handled(es + [e]) == Handled(es) + [queue[0].data];
    hide Handled;
    assert Queue(Next(s, Deliver(pid)).queues, BASE_DRIVER_KEY + pid) == queue[1..];
    assert Timers(queue) == [queue[0].data] + Timers(queue[1..]);
  }

  lemma DeliverOwn(s: Sys, pid: int, es: seq<Event>, consumed: seq<Msg>, sent: seq<int>)
    requires pid > 0 && Enabled(s, Deliver(pid))
    requires DriverKept(s, pid, es) && StreamKept(s, pid, es, consumed) && TasksKept(s, pid, es, sent)
    ensures var s', es' := Next(s, Deliver(pid)), es + EventsIn(s, Deliver(pid), pid);
            DriverKept(s', pid, es') && StreamKept(s', pid, es', consumed) && TasksKept(s', pid, es', sent)
  {
    assert BASE_DRIVER_KEY + pid != CLI_QUEUE_KEY;
    var queue, e := Queue(s.queues, BASE_DRIVER_KEY + pid), Delivered(s, pid);
    assert queue[0] in queue;
    hide From;
    hide Stream;
    hide Handled;
    hide Possible;
    hide Replay;
    hide Emit;
    DeliverDriver(s, pid, es);
    DeliverTasks(s, pid, es, sent);
    var seen, pending := From(consumed, pid), From(Queue(s.queues, CLI_QUEUE_KEY), pid);
    StreamGrows(pid, es, e, seen, pending, []);
    assert [] + [Emit(pid, es, e)] == [Emit(pid, es, e)];
  }

  lemma DeliverKeeps(s: Sys, st: Step, pid: int, es: seq<Event>, consumed: seq<Msg>, sent: seq<int>)
    requires st.Deliver? && st.pid > 0 && Enabled(s, st) && Kept(s, pid, es, consumed, sent)
    ensures Kept(Next(s, st), pid, es + EventsIn(s, st, pid), consumed, sent)
  {
    hide From;
    hide Emits;
    assert BASE_DRIVER_KEY + st.pid != CLI_QUEUE_KEY;
    if st.pid == pid {
      DeliverOwn(s, pid, es, consumed, sent);
    } else {
      assert es + [] == es;
    }
  }

  lemma SendTaskKeeps(s: Sys, st: Step, pid: int, es: seq<Event>, consumed: seq<Msg>, sent: seq<int>)
    requires st.SendTask? && Kept(s, pid, es, consumed, sent) && RowKept(s, st.pid, consumed)
    ensures Kept(Next(s, st), pid, es, consumed, sent + SentIn(s, st, pid))
  {
    hide From;
    hide Emits;
    hide Handled;
    var queue, m := Queue(s.queues, BASE_DRIVER_KEY + pid), Msg(Task, s.cli, st.timer);
    assert Timers(queue + [m]) == Timers(queue) + [m.data];
    assert sent + [] == sent;
  }

  lemma ReceiveKeeps(s: Sys, m: Msg, pid: int, es: seq<Event>, consumed: seq<Msg>, sent: seq<int>,
                     es': seq<Event>)
    requires Enabled(s, CliReceive) && m == Queue(s.queues, CLI_QUEUE_KEY)[0]
    requires Kept(s, pid, es, consumed, sent)
    requires DriverKept(s, m.pid, es') && StreamKept(s, m.pid, es', consumed) && RowKept(s, m.pid, consumed)
    ensures Kept(Next(s, CliReceive), pid, es, consumed + [m], sent)
  {
    hide From;
    hide Stream;
    hide RowShows;
    hide Handled;
    hide Possible;
    hide Replay;
    var queue := Queue(s.queues, CLI_QUEUE_KEY);
    FromHead(queue, pid);
    FromConcat(consumed, [m], pid);
    FromOne(m, pid);
    var seen, rest := From(consumed, pid), From(queue[1..], pid);
    assert m.pid == pid ==> seen + ([m] + rest) == (seen + [m]) + rest;
    assert seen + [] == seen && [] + rest == rest;
    HeadKind(s, m, es', consumed);
    ReceiveRow(s, m, pid, consumed);
  }

  /** The message at the head of the CLI's queue is its driver's registration iff it is that driver's first. */
  lemma HeadKind(s: Sys, m: Msg, es: seq<Event>, consumed: seq<Msg>)
    requires Enabled(s, CliReceive) && m == Queue(s.queues, CLI_QUEUE_KEY)[0]
    requires DriverKept(s, m.pid, es) && StreamKept(s, m.pid, es, consumed)
    ensures m.pid > 0
    ensures From(consumed, m.pid) == [] ==> m == Msg(Register, m.pid, BASE_DRIVER_KEY + m.pid)
    ensures From(consumed, m.pid) != [] ==> m.kind in {StatusUpdate, BusyResp}
  {
    var queue := Queue(s.queues, CLI_QUEUE_KEY);
    FromHead(queue, m.pid);
    var seen, rest := From(consumed, m.pid), From(queue[1..], m.pid) + s.procs[m.pid].outbox;
    assert seen + ([m] + From(queue[1..], m.pid)) + s.procs[m.pid].outbox == seen + [m] + rest;
    StreamKinds(m.pid, es, seen, m, rest);
  }

  lemma ApplyOne(v: View, seen: seq<Msg>, m: Msg)
    ensures ApplyUpdates(v, seen + [m])
         == if m.kind == StatusUpdate then View(if m.data > 0 then Busy else Available, m.data)
            else ApplyUpdates(v, seen)
  {
    assert (seen + [m])[..|seen|] == seen;
  }

  lemma RegisterRow(s: Sys, m: Msg, pid: int, seen: seq<Msg>)
    requires RowShows(s.table, pid, seen) && m == Msg(Register, m.pid, BASE_DRIVER_KEY + m.pid) && m.pid > 0
    requires m.pid == pid ==> seen == []
    ensures RowShows(Receive(s.table, m), pid, if m.pid == pid then seen + [m] else seen)
  {
    FindAppend(s.table, Row(m.pid, Available, 0, m.data), pid);
    ApplyOne(IDLE, seen, m);
  }

  lemma UpdateRow(s: Sys, m: Msg, pid: int, seen: seq<Msg>)
    requires RowShows(s.table, pid, seen) && m.kind == StatusUpdate
    ensures RowShows(Receive(s.table, m), pid, if m.pid == pid then seen + [m] else seen)
  {
    hide ApplyUpdates;
    UpdateStatusRow(s.table, m.pid, m.data > 0, m.data, pid);
    ApplyOne(IDLE, seen, m);
  }

  lemma ReceiveRow(s: Sys, m: Msg, pid: int, consumed: seq<Msg>)
    requires RowKept(s, pid, consumed) && m.pid > 0
    requires From(consumed, m.pid) == [] ==> m == Msg(Register, m.pid, BASE_DRIVER_KEY + m.pid)
    requires From(consumed, m.pid) != [] ==> m.kind in {StatusUpdate, BusyResp}
    ensures RowKept(s.(table := Receive(s.table, m)), pid, consumed + [m])
  {
    hide From;
    hide RowShows;
    FromConcat(consumed, [m], pid);
    FromOne(m, pid);
    var seen := From(consumed, pid);
    assert From(consumed + [m], pid) == if m.pid == pid then seen + [m] else seen;
    match m.kind
    case Register => RegisterRow(s, m, pid, seen);
    case StatusUpdate => UpdateRow(s, m, pid, seen);
    case _ => BusyRow(s.table, m, pid, seen);
  }

  lemma BusyRow(table: seq<Row>, m: Msg, pid: int, seen: seq<Msg>)
    requires RowShows(table, pid, seen) && m.kind == BusyResp
    ensures RowShows(table, pid, if m.pid == pid then seen + [m] else seen)
  {
    ApplyOne(IDLE, seen, m);
  }

  /** The driver a step is about. */
  ghost function Subject(s: Sys, st: Step): int
    requires Enabled(s, st)
  {
    if st.CliReceive? then Queue(s.queues, CLI_QUEUE_KEY)[0].pid else st.pid
  }

  lemma StepKeeps(s: Sys, st: Step, pid: int, es: seq<Event>, consumed: seq<Msg>, sent: seq<int>,
                  es': seq<Event>, sent': seq<int>)
    requires Enabled(s, st)
    requires Kept(s, pid, es, consumed, sent)
    requires Kept(s, Subject(s, st), es', consumed, sent')
    ensures Kept(Next(s, st), pid, es + EventsIn(s, st, pid), consumed + ReceivedIn(s, st), sent + SentIn(s, st, pid))
  {
    assert es + [] == es && consumed + [] == consumed && sent + [] == sent;
    match st
    case Create(_) => CreateKeeps(s, st, pid, es, consumed, sent);
    case Flush(_) => FlushKeeps(s, st, pid, es, consumed, sent, es');
    case Deliver(_) => DeliverKeeps(s, st, pid, es, consumed, sent);
    case Expire(_) => ExpireKeeps(s, st, pid, es, consumed, sent);
    case CliReceive => ReceiveKeeps(s, ReceivedIn(s, st)[0], pid, es, consumed, sent, es');
    case SendTask(_, _) => SendTaskKeeps(s, st, pid, es, consumed, sent);
  }

  lemma {:induction false} AlwaysKept(cli: int, r: Run, pid: int)
    requires Legal(cli, r)
    ensures Kept(State(cli, r), pid, Events(cli, r, pid), Consumed(cli, r), TasksSent(cli, r, pid))
    decreases r
  {
    if r.Then? {
      var p := r.prev;
      var q := Subject(State(cli, p), r.step);
      AlwaysKept(cli, p, pid);
      AlwaysKept(cli, p, q);
      StepKeeps(State(cli, p), r.step, pid, Events(cli, p, pid), Consumed(cli, p), TasksSent(cli, p, pid),
                Events(cli, p, q), TasksSent(cli, p, q));
    }
  }

  ghost predicate DistinctRows(t: seq<Row>) {
    forall i, j :: 0 <= i < j < |t| ==> t[i].pid != t[j].pid
  }

  lemma ReceiveKeepsDistinct(table: seq<Row>, m: Msg)
    requires DistinctRows(table) && (m.kind == Register ==> FindDriver(table, m.pid) < 0)
    ensures DistinctRows(Receive(table, m))
  {
  }

  /** The table has at most one row for a driver. */
  lemma {:induction false} OneRowPerDriver(cli: int, r: Run)
    requires Legal(cli, r)
    ensures DistinctRows(State(cli, r).table)
    decreases r
  {
    if r.Then? {
      OneRowPerDriver(cli, r.prev);
      if r.step.CliReceive? {
        hide From;
        hide Stream;
        hide Receive;
        var s, consumed := State(cli, r.prev), Consumed(cli, r.prev);
        var m := Queue(s.queues, CLI_QUEUE_KEY)[0];
        AlwaysKept(cli, r.prev, m.pid);
        HeadKind(s, m, Events(cli, r.prev, m.pid), consumed);
        ReceiveKeepsDistinct(s.table, m);
      }
    }
  }

  lemma ReceiveGrows(table: seq<Row>, m: Msg, pid: int)
    ensures |Receive(table, m)| >= |table|
    ensures FindDriver(table, pid) >= 0 ==> FindDriver(Receive(table, m), pid) >= 0
    ensures m.kind == Register && m.pid == pid && |table| < MAX_DRIVERS ==> FindDriver(Receive(table, m), pid) >= 0
  {
    FindAppend(table, Row(m.pid, Available, 0, m.data), pid);
    UpdateStatusRow(table, m.pid, m.data > 0, m.data, pid);
  }

  /** A driver the CLI has heard of has a row, unless all 50 rows are taken. */
  lemma {:induction false} RegisteredUnlessFull(cli: int, r: Run, pid: int)
    requires Legal(cli, r)
    ensures From(Consumed(cli, r), pid) != [] ==>
              FindDriver(State(cli, r).table, pid) >= 0 || |State(cli, r).table| == 50
    decreases r
  {
    if r.Then? {
      RegisteredUnlessFull(cli, r.prev, pid);
      AlwaysKept(cli, r, pid);
      var s, consumed := State(cli, r.prev), Consumed(cli, r.prev);
      assert consumed + [] == consumed;
      if r.step.CliReceive? {
        hide From;
        hide Stream;
        hide Receive;
        var m := Queue(s.queues, CLI_QUEUE_KEY)[0];
        AlwaysKept(cli, r.prev, m.pid);
        HeadKind(s, m, Events(cli, r.prev, m.pid), consumed);
        FromConcat(consumed, [m], pid);
        FromOne(m, pid);
        ReceiveGrows(s.table, m, pid);
      }
    }
  }

  // ---------- The CLI's view against the driver's state ----------

  lemma {:induction false} ApplyConcat(v: View, a: seq<Msg>, b: seq<Msg>)
    ensures ApplyUpdates(v, a + b) == ApplyUpdates(ApplyUpdates(v, a), b)
  {
    if b == [] {
      assert a + b == a;
    } else {
      ApplyConcat(v, a, b[..|b| - 1]);
      assert (a + b)[..|a + b| - 1] == a + b[..|b| - 1];
    }
  }

  lemma {:induction false} ApplyEmits(pid: int, es: seq<Event>)
    requires Possible(es)
    ensures var left := Replay(es).remaining;
            ApplyUpdates(IDLE, Emits(pid, es)) == View(if left > 0 then Busy else Available, left)
  {
    if es != [] {
      var es0, e := es[..|es| - 1], es[|es| - 1];
      ApplyEmits(pid, es0);
      ApplyConcat(IDLE, Emits(pid, es0), [Emit(pid, es0, e)]);
    }
  }

  ghost predicate AllPositive(es: seq<Event>) {
    forall e :: e in es && e.Accepted? ==> e.timer > 0
  }

  /** A driver that ever took a timer that is not positive is busy with it for good; no other is. */
  lemma {:induction false} NeverIdleAgain(es: seq<Event>)
    requires Possible(es)
    ensures AllPositive(es) <==> !(Replay(es).busy && Replay(es).remaining <= 0)
    ensures Replay(es).busy <==> Replay(es).timer != NoTimer
    ensures Replay(es).timer == Armed <==> Replay(es).busy && Replay(es).remaining > 0
    ensures !Replay(es).busy ==> Replay(es).remaining == 0
  {
    if es != [] {
      var es0, e := es[..|es| - 1], es[|es| - 1];
      NeverIdleAgain(es0);
      assert es == es0 + [e];
      assert AllPositive(es) <==> AllPositive(es0) && (e.Accepted? ==> e.timer > 0);
    }
  }

  /** The row of a registered driver after every message of that driver still under way. */
  ghost function Settled(s: Sys, pid: int): View
    requires FindDriver(s.table, pid) >= 0 && pid in s.procs
  {
    ApplyUpdates(RowView(s.table, pid), From(Queue(s.queues, CLI_QUEUE_KEY), pid) + s.procs[pid].outbox)
  }

  lemma SettledView(s: Sys, pid: int, es: seq<Event>, consumed: seq<Msg>)
    requires DriverKept(s, pid, es) && StreamKept(s, pid, es, consumed) && RowKept(s, pid, consumed)
    requires FindDriver(s.table, pid) >= 0
    ensures pid in s.procs
    ensures var left := Replay(es).remaining; Settled(s, pid) == View(if left > 0 then Busy else Available, left)
  {
    var seen, pending, out := From(consumed, pid), From(Queue(s.queues, CLI_QUEUE_KEY), pid), s.procs[pid].outbox;
    var reg := [Msg(Register, pid, BASE_DRIVER_KEY + pid)];
    calc {
      Settled(s, pid);
      ApplyUpdates(ApplyUpdates(IDLE, seen), pending + out);
      { ApplyConcat(IDLE, seen, pending + out); }
      ApplyUpdates(IDLE, seen + (pending + out));
      { assert seen + (pending + out) == seen + pending + out; }
      ApplyUpdates(IDLE, reg + Emits(pid, es));
      { ApplyConcat(IDLE, reg, Emits(pid, es)); assert reg[..0] == []; }
      ApplyUpdates(IDLE, Emits(pid, es));
    }
    ApplyEmits(pid, es);
  }

  /** In every reachable state the row plus the pending updates give the driver's remaining value, and
      give its busy flag as well iff it never accepted a timer that is not positive. */
  lemma ViewPlusPendingIsTruth(cli: int, r: Run, pid: int)
    requires Legal(cli, r) && FindDriver(State(cli, r).table, pid) >= 0
    ensures pid in State(cli, r).procs
    ensures Settled(State(cli, r), pid).remaining == State(cli, r).procs[pid].remaining
    ensures Settled(State(cli, r), pid).status == Busy <==> State(cli, r).procs[pid].remaining > 0
    ensures Settled(State(cli, r), pid) == Truth(State(cli, r).procs[pid]) <==> AllPositive(Events(cli, r, pid))
  {
    AlwaysKept(cli, r, pid);
    SettledView(State(cli, r), pid, Events(cli, r, pid), Consumed(cli, r));
    NeverIdleAgain(Events(cli, r, pid));
  }

  /** With none of a driver's messages under way, get_status tells its true state, iff as above. */
  lemma StatusIsTruthful(cli: int, r: Run, pid: int)
    requires Legal(cli, r) && FindDriver(State(cli, r).table, pid) >= 0 && pid in State(cli, r).procs
    requires From(Queue(State(cli, r).queues, CLI_QUEUE_KEY), pid) == [] && State(cli, r).procs[pid].outbox == []
    ensures RowView(State(cli, r).table, pid) == Truth(State(cli, r).procs[pid])
            <==> AllPositive(Events(cli, r, pid))
  {
    ViewPlusPendingIsTruth(cli, r, pid);
  }

  /** The guard a caller of send_task can check. */
  ghost predicate PositiveTasks(r: Run) {
    r.Then? ==> PositiveTasks(r.prev) && (r.step.SendTask? ==> r.step.timer > 0)
  }

  lemma {:induction false} PositiveSent(cli: int, r: Run, pid: int)
    requires Legal(cli, r) && PositiveTasks(r)
    ensures forall t :: t in TasksSent(cli, r, pid) ==> t > 0
  {
    if r.Then? {
      PositiveSent(cli, r.prev, pid);
    }
  }

  lemma {:induction false} AcceptedHandled(es: seq<Event>, e: Event)
    requires e in es && e.Accepted?
    ensures e.timer in Handled(es)
  {
    var es0, last := es[..|es| - 1], es[|es| - 1];
    if e != last {
      assert es == es0 + [last];
      AcceptedHandled(es0, e);
    }
  }

  /** If every send_task of a run has a positive timer, the view plus the pending updates is the truth. */
  lemma PositiveTasksGiveTruth(cli: int, r: Run, pid: int)
    requires Legal(cli, r) && PositiveTasks(r) && FindDriver(State(cli, r).table, pid) >= 0
    ensures pid in State(cli, r).procs
    ensures Settled(State(cli, r), pid) == Truth(State(cli, r).procs[pid])
    ensures State(cli, r).procs[pid].busy <==> State(cli, r).procs[pid].timer == Armed
  {
    AlwaysKept(cli, r, pid);
    ViewPlusPendingIsTruth(cli, r, pid);
    PositiveSent(cli, r, pid);
    var es := Events(cli, r, pid);
    forall e | e in es && e.Accepted? ensures e.timer > 0 {
      AcceptedHandled(es, e);
      assert e.timer in TasksSent(cli, r, pid);
    }
    NeverIdleAgain(es);
  }

  /** `r`, then the CLI receiving `n` messages. */
  ghost function Receiving(r: Run, n: nat): Run
    decreases n
  {
    if n == 0 then r else Receiving(Then(r, CliReceive), n - 1)
  }

  /** The CLI's receiving loop is a run of the protocol. */
  lemma {:induction false} DrainIsRun(cli: int, r: Run)
    requires Legal(cli, r)
    ensures var s := State(cli, r);
            var r' := Receiving(r, |Queue(s.queues, CLI_QUEUE_KEY)|);
            && Legal(cli, r')
            && (PositiveTasks(r) ==> PositiveTasks(r'))
            && State(cli, r').procs == s.procs
            && Queue(State(cli, r').queues, CLI_QUEUE_KEY) == []
            && State(cli, r').table == ReceiveAll(s.table, Queue(s.queues, CLI_QUEUE_KEY))
    decreases |Queue(State(cli, r).queues, CLI_QUEUE_KEY)|
  {
    if Queue(State(cli, r).queues, CLI_QUEUE_KEY) != [] {
      DrainIsRun(cli, Then(r, CliReceive));
    }
  }

  lemma {:induction false} ReceivingIsSilent(cli: int, r: Run, n: nat, pid: int)
    requires Legal(cli, Receiving(r, n))
    ensures Legal(cli, r) && Events(cli, Receiving(r, n), pid) == Events(cli, r, pid)
    decreases n
  {
    if n > 0 {
      ReceivingIsSilent(cli, Then(r, CliReceive), n - 1, pid);
    }
  }

  /** After the receiving loop the row of a driver that holds no unsent message is its true state, iff it accepted
      positive timers only; so it is in every run whose send_task commands have positive timers. */
  lemma DrainedTableIsTruth(cli: int, r: Run, pid: int)
    requires Legal(cli, r)
    ensures var s := State(cli, r);
            var table := ReceiveAll(s.table, Queue(s.queues, CLI_QUEUE_KEY));
            FindDriver(table, pid) >= 0 ==>
              && pid in s.procs
              && (s.procs[pid].outbox == [] ==>
                    && (RowView(table, pid) == Truth(s.procs[pid]) <==> AllPositive(Events(cli, r, pid)))
                    && (PositiveTasks(r) ==> RowView(table, pid) == Truth(s.procs[pid])))
  {
    DrainIsRun(cli, r);
    var s := State(cli, r);
    var n := |Queue(s.queues, CLI_QUEUE_KEY)|;
    var r' := Receiving(r, n);
    hide Receiving;
    hide State;
    hide AllPositive;
    hide ReceiveAll;
    if FindDriver(State(cli, r').table, pid) >= 0 {
      ReceivingIsSilent(cli, r, n, pid);
      ViewPlusPendingIsTruth(cli, r', pid);
      if PositiveTasks(r) {
        PositiveTasksGiveTruth(cli, r', pid);
      }
    }
  }

  ghost predicate Extends(r: Run, longer: Run) {
    r == longer || (longer.Then? && Extends(r, longer.prev))
  }

  lemma {:induction false} EventsGrow(cli: int, r: Run, longer: Run, pid: int)
    requires Legal(cli, longer) && Extends(r, longer)
    ensures Legal(cli, r) && Events(cli, r, pid) <= Events(cli, longer, pid)
    decreases longer
  {
    if r != longer {
      EventsGrow(cli, r, longer.prev, pid);
    }
  }

  /** Once a driver has accepted a timer that is not positive, it is busy in every later state, while the
      CLI shows it as available whenever none of its messages is under way. */
  lemma WrongForever(cli: int, r: Run, longer: Run, pid: int)
    requires Legal(cli, longer) && Extends(r, longer) && Legal(cli, r)
    requires FindDriver(State(cli, longer).table, pid) >= 0
    requires !AllPositive(Events(cli, r, pid))
    ensures pid in State(cli, longer).procs
    ensures State(cli, longer).procs[pid].busy && Settled(State(cli, longer), pid).status == Available
  {
    EventsGrow(cli, r, longer, pid);
    var es := Events(cli, longer, pid);
    assert !AllPositive(es) by {
      var e :| e in Events(cli, r, pid) && e.Accepted? && e.timer <= 0;
      var k :| 0 <= k < |Events(cli, r, pid)| && Events(cli, r, pid)[k] == e;
      assert es[k] == e;
    }
    ViewPlusPendingIsTruth(cli, longer, pid);
    AlwaysKept(cli, longer, pid);
    NeverIdleAgain(es);
  }

  /** The shortest such run: a task of zero seconds. */
  ghost const REGISTERED: Run := Then(Then(Then(Start, Create(7)), Flush(7)), CliReceive)
  ghost const TAKEN: Run := Then(Then(REGISTERED, SendTask(7, 0)), Deliver(7))
  ghost const ZERO_TIMER: Run := Then(Then(TAKEN, Flush(7)), CliReceive)

  ghost const KEY: int := BASE_DRIVER_KEY + 7
  ghost const ROW: Row := Row(7, Available, 0, KEY)
  ghost const STUCK: Driver := Driver(true, 0, Disarmed, [])

  lemma Extend(cli: int, r: Run, st: Step)
    requires Legal(cli, r) && Enabled(State(cli, r), st)
    ensures Legal(cli, Then(r, st)) && State(cli, Then(r, st)) == Next(State(cli, r), st)
  {
  }

  lemma RegisteredState()
    ensures Legal(1, REGISTERED)
    ensures State(1, REGISTERED) == Sys(1, [ROW], map[7 := Driver(false, 0, NoTimer, [])], map[CLI_QUEUE_KEY := []])
  {
    var reg := Msg(Register, 7, KEY);
    var r1 := Then(Start, Create(7));
    assert State(1, r1) == Sys(1, [], map[7 := NewDriver(7)], map[]);
    Extend(1, r1, Flush(7));
    assert [] + [reg] == [reg];
    assert State(1, Then(r1, Flush(7))).queues == map[CLI_QUEUE_KEY := [reg]];
    Extend(1, Then(r1, Flush(7)), CliReceive);
  }

  lemma TakenState()
    ensures Legal(1, TAKEN)
    ensures State(1, TAKEN)
         == Sys(1, [ROW], map[7 := STUCK.(outbox := [Msg(StatusUpdate, 7, 0)])], map[CLI_QUEUE_KEY := [], KEY := []])
  {
    RegisteredState();
    hide Legal;
    hide State;
    FindUnique([ROW], 7, 0);
    var task, update := Msg(Task, 1, 0), Msg(StatusUpdate, 7, 0);
    assert [] + [task] == [task] && [] + [update] == [update];
    Extend(1, REGISTERED, SendTask(7, 0));
    var r := Then(REGISTERED, SendTask(7, 0));
    assert State(1, r).queues == map[CLI_QUEUE_KEY := [], KEY := [task]];
    Extend(1, r, Deliver(7));
    assert [task][1..] == [];
  }

  lemma FlushedState()
    ensures Legal(1, Then(TAKEN, Flush(7)))
    ensures State(1, Then(TAKEN, Flush(7)))
         == Sys(1, [ROW], map[7 := STUCK], map[CLI_QUEUE_KEY := [Msg(StatusUpdate, 7, 0)], KEY := []])
  {
    TakenState();
    hide Legal;
    hide State;
    var update := Msg(StatusUpdate, 7, 0);
    assert [] + [update] == [update];
    Extend(1, TAKEN, Flush(7));
  }

  lemma ZeroTimerCounterexample()
    ensures Legal(1, ZERO_TIMER)
    ensures State(1, ZERO_TIMER)
         == Sys(1, [Row(7, Available, 0, BASE_DRIVER_KEY + 7)], map[7 := Driver(true, 0, Disarmed, [])],
                map[CLI_QUEUE_KEY := [], BASE_DRIVER_KEY + 7 := []])
  {
    FlushedState();
    hide Legal;
    hide State;
    Extend(1, Then(TAKEN, Flush(7)), CliReceive);
    FindUnique([ROW], 7, 0);
    assert UpdateStatus([ROW], 7, false, 0) == [ROW];
    var update := Msg(StatusUpdate, 7, 0);
    assert [update][1..] == [];
  }

  // ---------- Accounting and the shape of a driver's stream ----------

  /** Everything driver `pid` has composed so far: received, pending and in its outbox. */
  ghost function Composed(cli: int, r: Run, pid: int): seq<Msg>
    requires Legal(cli, r) && pid in State(cli, r).procs
  {
    var s := State(cli, r);
    From(Consumed(cli, r), pid) + From(Queue(s.queues, CLI_QUEUE_KEY), pid) + s.procs[pid].outbox
  }

  ghost function CountKind(ms: seq<Msg>, k: Kind): nat {
    if ms == [] then 0 else CountKind(ms[..|ms| - 1], k) + (if ms[|ms| - 1].kind == k then 1 else 0)
  }

  ghost function CountAccepted(es: seq<Event>): nat {
    if es == [] then 0 else CountAccepted(es[..|es| - 1]) + (if es[|es| - 1].Accepted? then 1 else 0)
  }

  lemma {:induction false} CountHandled(pid: int, es: seq<Event>)
    ensures |Handled(es)| == CountAccepted(es) + CountKind(Stream(pid, es), BusyResp)
  {
    var reg := [Msg(Register, pid, BASE_DRIVER_KEY + pid)];
    if es == [] {
      assert reg + Emits(pid, es) == reg && reg[..0] == [];
    } else {
      var es0, e := es[..|es| - 1], es[|es| - 1];
      CountHandled(pid, es0);
      var all := reg + Emits(pid, es);
      assert all[..|all| - 1] == reg + Emits(pid, es0);
    }
  }

  /** Tasks sent = tasks accepted + BUSY_RESP replies + tasks still queued, and in the order sent. */
  lemma TaskAccounting(cli: int, r: Run, pid: int)
    requires Legal(cli, r) && pid in State(cli, r).procs
    ensures var queued := Queue(State(cli, r).queues, BASE_DRIVER_KEY + pid);
            && TasksSent(cli, r, pid) == Handled(Events(cli, r, pid)) + Timers(queued)
            && |TasksSent(cli, r, pid)|
               == CountAccepted(Events(cli, r, pid)) + CountKind(Composed(cli, r, pid), BusyResp) + |queued|
  {
    AlwaysKept(cli, r, pid);
    CountHandled(pid, Events(cli, r, pid));
  }

  /** The values of the status updates in `ms`. */
  ghost function Updates(ms: seq<Msg>): seq<int> {
    if ms == [] then []
    else Updates(ms[..|ms| - 1]) + (if ms[|ms| - 1].kind == StatusUpdate then [ms[|ms| - 1].data] else [])
  }

  /** Positive and zero in turn, starting with a positive value; only a last one may fail to be positive. */
  ghost predicate Alternates(us: seq<int>) {
    forall i :: 0 <= i < |us| ==> if i % 2 == 1 then us[i] == 0 else i + 1 < |us| ==> us[i] > 0
  }

  lemma UpdatesStart(pid: int)
    ensures Updates(Stream(pid, [])) == []
  {
    var reg := [Msg(Register, pid, BASE_DRIVER_KEY + pid)];
    assert Stream(pid, []) == reg && reg[..0] == [];
  }

  lemma UpdatesGrow(pid: int, es: seq<Event>)
    requires es != []
    ensures var e := es[|es| - 1];
            Updates(Stream(pid, es)) == Updates(Stream(pid, es[..|es| - 1])) +
              (match e case Accepted(t) => [t] case Refused(_) => [] case Expired => [0])
  {
    var all := Stream(pid, es);
    assert all[..|all| - 1] == Stream(pid, es[..|es| - 1]);
  }

  lemma {:induction false} UpdatesAlternate(pid: int, es: seq<Event>)
    requires Possible(es)
    ensures var us := Updates(Stream(pid, es));
            && Alternates(us)
            && (|us| % 2 == 1 <==> Replay(es).busy)
            && (Replay(es).busy ==> us[|us| - 1] == Replay(es).remaining)
  {
    hide Stream;
    hide Updates;
    if es == [] {
      UpdatesStart(pid);
    } else {
      UpdatesAlternate(pid, es[..|es| - 1]);
      NeverIdleAgain(es[..|es| - 1]);
      UpdatesGrow(pid, es);
    }
  }

  /** A driver registers first and once; its updates alternate, ending with its current task if it is busy. */
  lemma StreamShape(cli: int, r: Run, pid: int)
    requires Legal(cli, r) && pid in State(cli, r).procs
    ensures var ms := Composed(cli, r, pid);
            && ms != []
            && ms[0] == Msg(Register, pid, BASE_DRIVER_KEY + pid)
            && (forall i :: 1 <= i < |ms| ==> ms[i].kind in {StatusUpdate, BusyResp})
    ensures var us, d := Updates(Composed(cli, r, pid)), State(cli, r).procs[pid];
            && Alternates(us)
            && (|us| % 2 == 1 <==> d.busy)
            && (d.busy ==> us[|us| - 1] == d.remaining)
            && (d.busy <==> d.timer != NoTimer)
  {
    AlwaysKept(cli, r, pid);
    hide From;
    hide Updates;
    hide Stream;
    var es := Events(cli, r, pid);
    UpdatesAlternate(pid, es);
    NeverIdleAgain(es);
    RegisterFirst(pid, es);
  }

  lemma RegisterFirst(pid: int, es: seq<Event>)
    ensures var ms := Stream(pid, es);
            && ms != []
            && ms[0] == Msg(Register, pid, BASE_DRIVER_KEY + pid)
            && (forall i :: 1 <= i < |ms| ==> ms[i].kind in {StatusUpdate, BusyResp})
  {
    var ms := Stream(pid, es);
    forall i | 1 <= i < |ms| ensures ms[i].kind in {StatusUpdate, BusyResp} {
      assert ms[i] == Emits(pid, es)[i - 1];
    }
  }
}
