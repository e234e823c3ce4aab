/** The CLI's and the drivers' handlers as they update their variables in place. */
module DispatchCode {
  import opened Dispatch
  import opened Options

  class Cli {
    const drivers: array<Row>
    var numDrivers: nat

    ghost predicate Valid()
      reads this
    {
      drivers.Length == MAX_DRIVERS && numDrivers <= MAX_DRIVERS
    }

    /** The rows in use. */
    ghost function Table(): seq<Row>
      requires Valid()
      reads this, drivers
    {
      drivers[..numDrivers]
    }

    constructor ()
      ensures Valid() && fresh(drivers) && Table() == []
    {
      drivers := new Row[MAX_DRIVERS](_ => Row(0, Available, 0, 0));
      numDrivers := 0;
    }

    method Find(pid: int) returns (idx: int)
      requires Valid()
      ensures idx == FindDriver(Table(), pid)
    {
      var i := 0;
      while i < numDrivers
        invariant 0 <= i <= numDrivers
        invariant forall j :: 0 <= j < i ==> drivers[j].pid != pid
      {
        if drivers[i].pid == pid {
          return i;
        }
        i := i + 1;
      }
      return -1;
    }

    method UpdateDriverStatus(pid: int, busy: bool, remaining: int)
      requires Valid()
      modifies drivers
      ensures Table() == UpdateStatus(old(Table()), pid, busy, remaining)
    {
      var idx := Find(pid);
      if idx >= 0 {
        drivers[idx] := drivers[idx].(status := if busy then Busy else Available);
        drivers[idx] := drivers[idx].(remaining := remaining);
      }
    }

    /** One turn of the receiving loop. */
    method Handle(m: Msg)
      requires Valid()
      modifies this, drivers
      ensures Valid() && Table() == Receive(old(Table()), m)
    {
      match m.kind
      case Register =>
        if numDrivers < MAX_DRIVERS {
          drivers[numDrivers] := Row(m.pid, Available, 0, m.data);
          numDrivers := numDrivers + 1;
        }
      case StatusUpdate => UpdateDriverStatus(m.pid, m.data > 0, m.data);
      case _ =>
    }

    /** The receiving loop over everything that is queued; `left` is the queue it leaves. */
    method Drain(queue: seq<Msg>) returns (left: seq<Msg>)
      requires Valid()
      modifies this, drivers
      ensures Valid() && left == [] && Table() == ReceiveAll(old(Table()), queue)
    {
      left := queue;
      while left != []
        invariant Valid()
        invariant ReceiveAll(Table(), left) == ReceiveAll(old(Table()), queue)
        decreases |left|
      {
        Handle(left[0]);
        left := left[1..];
      }
    }

    /** The queue and the message of a task, or nothing for an unknown driver. */
    method SendTaskTo(self: int, pid: int, timer: int) returns (r: Option<(int, Msg)>)
      requires Valid()
      ensures r.Some? <==> FindDriver(Table(), pid) >= 0
      ensures r.Some? ==> r.value == (Table()[FindDriver(Table(), pid)].queue, Msg(Task, self, timer))
    {
      var idx := Find(pid);
      if idx < 0 {
        return None;
      }
      return Some((drivers[idx].queue, Msg(Task, self, timer)));
    }

    method GetStatus(pid: int) returns (r: Option<View>)
      requires Valid()
      ensures r.Some? <==> FindDriver(Table(), pid) >= 0
      ensures r.Some? ==> r.value == RowView(Table(), pid)
    {
      var idx := Find(pid);
      if idx < 0 {
        return None;
      }
      return Some(View(drivers[idx].status, drivers[idx].remaining));
    }
  }

  class DriverProcess {
    const pid: int
    var busy: bool
    var remaining: int
    var timer: Timer
    var outbox: seq<Msg>

    ghost function Value(): Driver
      reads this
    {
      Driver(busy, remaining, timer, outbox)
    }

    constructor (pid: int)
      ensures this.pid == pid && Value() == NewDriver(pid)
    {
      this.pid := pid;
      busy, remaining, timer := false, 0, NoTimer;
      outbox := [Msg(Register, pid, BASE_DRIVER_KEY + pid)];
    }

    method HandleMessage(m: Msg)
      modifies this
      ensures Value() == OnMessage(old(Value()), pid, m)
    {
      if m.kind == Task {
        if !busy {
          busy := true;
          remaining := m.data;
          timer := if m.data > 0 then Armed else Disarmed;
          outbox := outbox + [Msg(StatusUpdate, pid, remaining)];
        } else {
          outbox := outbox + [Msg(BusyResp, pid, remaining)];
        }
      }
    }

    method HandleTimer()
      modifies this
      ensures Value() == OnTimer(old(Value()), pid)
    {
      busy := false;
      remaining := 0;
      timer := NoTimer;
      outbox := outbox + [Msg(StatusUpdate, pid, 0)];
    }

    /** The message in hand is sent. */
    method Send() returns (ms: seq<Msg>)
      modifies this
      ensures ms == old(outbox) && Value() == old(Value()).(outbox := [])
    {
      ms := outbox;
      outbox := [];
    }
  }

  /** The CLI, the drivers it forked and all message queues. */
  class System {
    const pid: int
    const cli: Cli
    var procs: map<int, DriverProcess>
    var queues: Queues

    ghost function Drivers(): set<DriverProcess>
      reads this
    {
      set p | p in procs :: procs[p]
    }

    ghost predicate Valid()
      reads this, cli, Drivers()
    {
      cli.Valid() && forall p :: p in procs ==> procs[p].pid == p
    }

    ghost function Procs(): map<int, Driver>
      reads this, Drivers()
    {
      map p | p in procs :: procs[p].Value()
    }

    ghost function Value(): Sys
      requires cli.Valid()
      reads this, cli, cli.drivers, Drivers()
    {
      Sys(pid, cli.Table(), Procs(), queues)
    }

    /** No other driver is the object of driver `p`. */
    ghost predicate Apart(p: int)
      reads this
    {
      p in procs && procs[p] in Drivers() && forall q :: q in procs && q != p ==> procs[q] != procs[p]
    }

    constructor (pid: int)
      ensures Valid() && fresh(cli) && fresh(cli.drivers) && procs == map[] && this.pid == pid
      ensures Value() == Init(pid)
    {
      this.pid := pid;
      cli := new Cli();
      procs := map[];
      queues := map[];
    }

    method Create(p: int)
      requires Valid() && Enabled(Value(), Step.Create(p))
      modifies this`procs
      ensures Valid() && Value() == Next(old(Value()), Step.Create(p))
      ensures fresh(Drivers() - old(Drivers()))
    {
      var d := new DriverProcess(p);
      procs := procs[p := d];
    }

    method Flush(p: int)
      requires Valid() && Enabled(Value(), Step.Flush(p))
      modifies this`queues, Drivers()
      ensures Valid() && Value() == Next(old(Value()), Step.Flush(p))
    {
      assert Apart(p);
      var ms := procs[p].Send();
      queues := Put(queues, CLI_QUEUE_KEY, ms);
      assert forall q :: q in procs && q != p ==> procs[q].Value() == old(procs[q].Value());
      assert Procs() == old(Procs())[p := procs[p].Value()];
    }

    method Deliver(p: int)
      requires Valid() && Enabled(Value(), Step.Deliver(p))
      modifies this`queues, Drivers()
      ensures Valid() && Value() == Next(old(Value()), Step.Deliver(p))
    {
      var key := BASE_DRIVER_KEY + p;
      var m := Queue(queues, key)[0];
      queues := Drop(queues, key);
      assert Apart(p);
      procs[p].HandleMessage(m);
      assert forall q :: q in procs && q != p ==> procs[q].Value() == old(procs[q].Value());
      assert Procs() == old(Procs())[p := procs[p].Value()];
    }

    method Expire(p: int)
      requires Valid() && Enabled(Value(), Step.Expire(p))
      modifies Drivers()
      ensures Valid() && Value() == Next(old(Value()), Step.Expire(p))
    {
      assert Apart(p);
      procs[p].HandleTimer();
      assert forall q :: q in procs && q != p ==> procs[q].Value() == old(procs[q].Value());
      assert Procs() == old(Procs())[p := procs[p].Value()];
    }

    method Receive()
      requires Valid() && Enabled(Value(), CliReceive)
      modifies this`queues, cli, cli.drivers
      ensures Valid() && Value() == Next(old(Value()), CliReceive)
    {
      var m := Queue(queues, CLI_QUEUE_KEY)[0];
      queues := Drop(queues, CLI_QUEUE_KEY);
      cli.Handle(m);
      assert Procs() == old(Procs());
    }

    method Send(p: int, timer: int)
      requires Valid()
      modifies this`queues
      ensures Valid() && Value() == Next(old(Value()), SendTask(p, timer))
    {
      var r := cli.SendTaskTo(pid, p, timer);
      if r.Some? {
        var (key, m) := r.value;
        queues := Put(queues, key, [m]);
      }
    }

    /** One step of the protocol. */
    method Perform(st: Step)
      requires Valid() && Enabled(Value(), st)
      modifies this, cli, cli.drivers, Drivers()
      ensures Valid() && Value() == Next(old(Value()), st)
      ensures fresh(Drivers() - old(Drivers()))
    {
      hide Next;
      hide Enabled;
      match st
      case Create(p) => Create(p);
      case Flush(p) => Flush(p);
      case Deliver(p) => Deliver(p);
      case Expire(p) => Expire(p);
      case CliReceive => Receive();
      case SendTask(p, timer) => Send(p, timer);
    }
  }

  /** Any run of the protocol, with the CLI and the drivers as objects that carry out its steps. */
  method Execute(cli: int, r: Run) returns (s: System)
    requires Legal(cli, r)
    ensures s.Valid() && s.Value() == State(cli, r)
    ensures fresh(s) && fresh(s.cli) && fresh(s.cli.drivers) && fresh(s.Drivers())
  {
    if r == Start {
      s := new System(cli);
    } else {
      s := Execute(cli, r.prev);
      s.Perform(r.step);
    }
  }
}
