/** Left to itself, the dispatch protocol comes to rest: every message is delivered and every timer expires. */
module DispatchProgress {
  import opened Dispatch
  import opened DispatchProofs

  /** A step that needs no new command. */
  predicate Internal(st: Step) {
    !st.Create? && !st.SendTask?
  }

  /** `longer` continues `r` by internal steps. */
  ghost predicate Internally(r: Run, longer: Run) {
    r == longer || (longer.Then? && Internal(longer.step) && Internally(r, longer.prev))
  }

  lemma {:induction false} InternallyTransitive(a: Run, b: Run, c: Run)
    requires Internally(a, b) && Internally(b, c)
    ensures Internally(a, c)
  {
    if b != c {
      InternallyTransitive(a, b, c.prev);
    }
  }

  lemma {:induction false} InternallyPositive(r: Run, longer: Run)
    requires Internally(r, longer) && PositiveTasks(r)
    ensures PositiveTasks(longer)
  {
    if r != longer {
      InternallyPositive(r, longer.prev);
    }
  }

  // ---------- One driver ----------

  /** Driver `p` has nothing to send, nothing to take and no timer that will expire. */
  ghost predicate Done(s: Sys, p: int)
    requires p in s.procs
  {
    s.procs[p].outbox == [] && Queue(s.queues, BASE_DRIVER_KEY + p) == [] && s.procs[p].timer != Armed
  }

  ghost function Work(s: Sys, p: int): nat
    requires p in s.procs
  {
    2 * |s.procs[p].outbox| + (if s.procs[p].timer == Armed then 3 else 0)
    + 6 * |Queue(s.queues, BASE_DRIVER_KEY + p)|
  }

  /** Nothing but driver `p` and the CLI's queue differs. */
  ghost predicate OnlyDriver(s: Sys, t: Sys, p: int) {
    && t.table == s.table && t.procs.Keys == s.procs.Keys
    && forall q :: q in s.procs && q != p ==>
         t.procs[q] == s.procs[q] && Queue(t.queues, BASE_DRIVER_KEY + q) == Queue(s.queues, BASE_DRIVER_KEY + q)
  }

  /** The next thing driver `p` does. */
  ghost function Turn(s: Sys, p: int): Step
    requires p in s.procs && !Done(s, p)
  {
    if s.procs[p].outbox != [] then Flush(p) else if s.procs[p].timer == Armed then Expire(p) else Deliver(p)
  }

  lemma TurnWorks(s: Sys, p: int)
    requires p > 0 && p in s.procs && !Done(s, p) && forall q :: q in s.procs ==> q > 0
    ensures Enabled(s, Turn(s, p)) && Internal(Turn(s, p))
    ensures Work(Next(s, Turn(s, p)), p) < Work(s, p) && OnlyDriver(s, Next(s, Turn(s, p)), p)
  {
    assert BASE_DRIVER_KEY > CLI_QUEUE_KEY;
    var t := Next(s, Turn(s, p));
    assert t.procs.Keys == s.procs.Keys;
  }

  lemma PidsPositive(cli: int, r: Run)
    requires Legal(cli, r)
    ensures forall q :: q in State(cli, r).procs ==> q > 0
  {
    forall q | q in State(cli, r).procs ensures q > 0 {
      AlwaysKept(cli, r, q);
    }
  }

  lemma Extended(cli: int, r: Run, st: Step)
    requires Legal(cli, r) && Enabled(State(cli, r), st) && Internal(st)
    ensures Legal(cli, Then(r, st)) && State(cli, Then(r, st)) == Next(State(cli, r), st)
    ensures Internally(r, Then(r, st))
  {
  }

  lemma {:induction false} FinishDriver(cli: int, r: Run, p: int) returns (q: Run)
    requires Legal(cli, r) && p in State(cli, r).procs
    ensures Legal(cli, q) && Internally(r, q)
    ensures OnlyDriver(State(cli, r), State(cli, q), p) && Done(State(cli, q), p)
    decreases Work(State(cli, r), p)
  {
    hide Legal;
    hide State;
    hide Internally;
    hide Work;
    var s := State(cli, r);
    if Done(s, p) {
      q := r;
      Reflexive(r);
    } else {
      PidsPositive(cli, r);
      TurnWorks(s, p);
      var st := Turn(s, p);
      Extended(cli, r, st);
      var next := Then(r, st);
      assert State(cli, next) == Next(s, st);
      q := FinishDriver(cli, next, p);
      InternallyTransitive(r, next, q);
      OnlyDriverTransitive(s, Next(s, st), State(cli, q), p);
    }
  }

  lemma Reflexive(r: Run)
    ensures Internally(r, r)
  {
  }

  lemma OnlyDriverTransitive(a: Sys, b: Sys, c: Sys, p: int)
    requires OnlyDriver(a, b, p) && OnlyDriver(b, c, p)
    ensures OnlyDriver(a, c, p)
  {
  }

  // ---------- All drivers ----------

  lemma {:induction false} FinishDrivers(cli: int, r: Run, ps: set<int>) returns (q: Run)
    requires Legal(cli, r) && ps <= State(cli, r).procs.Keys
    ensures Legal(cli, q) && Internally(r, q)
    ensures State(cli, q).procs.Keys == State(cli, r).procs.Keys
    ensures forall p :: p in ps ==> p in State(cli, q).procs && Done(State(cli, q), p)
    decreases |ps|
  {
    hide Legal;
    hide State;
    hide Internally;
    if p :| p in ps {
      var q0 := FinishDrivers(cli, r, ps - {p});
      q := FinishDriver(cli, q0, p);
      InternallyTransitive(r, q0, q);
      forall o | o in ps ensures o in State(cli, q).procs && Done(State(cli, q), o) {
        if o != p {
          assert o in ps - {p};
        }
      }
    } else {
      q := r;
      Reflexive(r);
    }
  }

  // ---------- The CLI ----------

  lemma {:induction false} ReceivingIsInternal(cli: int, r: Run, n: nat)
    requires Legal(cli, Receiving(r, n))
    ensures Legal(cli, r) && Internally(r, Receiving(r, n))
    ensures State(cli, Receiving(r, n)).procs == State(cli, r).procs
    ensures forall k :: k != CLI_QUEUE_KEY ==>
              Queue(State(cli, Receiving(r, n)).queues, k) == Queue(State(cli, r).queues, k)
    decreases n
  {
    if n > 0 {
      var next := Then(r, CliReceive);
      ReceivingIsInternal(cli, next, n - 1);
      assert Internally(r, next);
      InternallyTransitive(r, next, Receiving(r, n));
    }
  }

  /** Messages wait for the CLI or for a driver that was forked. */
  lemma {:induction false} QueueOwners(cli: int, r: Run, k: int)
    requires Legal(cli, r) && Queue(State(cli, r).queues, k) != []
    ensures k == CLI_QUEUE_KEY || k - BASE_DRIVER_KEY in State(cli, r).procs
    decreases r
  {
    if r.Then? {
      var s, st := State(cli, r.prev), r.step;
      if Queue(s.queues, k) != [] {
        QueueOwners(cli, r.prev, k);
      } else if st.SendTask? {
        AlwaysKept(cli, r.prev, st.pid);
      }
    }
  }

  // ---------- The whole system ----------

  /** All queues and outboxes are empty and no timer will expire. */
  ghost predicate AtRest(s: Sys) {
    && (forall k {:trigger Queue(s.queues, k)} :: Queue(s.queues, k) == [])
    && forall p :: p in s.procs ==> s.procs[p].outbox == [] && s.procs[p].timer != Armed
  }

  /** No step is left but new commands, iff the system is at rest. */
  lemma NothingLeftIffAtRest(cli: int, r: Run)
    requires Legal(cli, r)
    ensures (forall st :: Internal(st) ==> !Enabled(State(cli, r), st)) <==> AtRest(State(cli, r))
  {
    var s := State(cli, r);
    if forall st :: Internal(st) ==> !Enabled(s, st) {
      forall k ensures Queue(s.queues, k) == [] {
        var p := k - BASE_DRIVER_KEY;
        assert !Enabled(s, CliReceive) && !Enabled(s, Deliver(p)) && !Enabled(s, Flush(p));
        if Queue(s.queues, k) != [] {
          QueueOwners(cli, r, k);
        }
      }
      forall p | p in s.procs ensures s.procs[p].outbox == [] && s.procs[p].timer != Armed {
        assert !Enabled(s, Flush(p)) && !Enabled(s, Expire(p));
      }
    }
  }

  /** At rest a driver is idle iff it accepted positive timers only, and the rows of those say available. */
  lemma RestIsIdle(cli: int, r: Run)
    requires Legal(cli, r) && AtRest(State(cli, r))
    ensures var s := State(cli, r);
            forall p :: p in s.procs ==> (!s.procs[p].busy <==> AllPositive(Events(cli, r, p)))
    ensures var s := State(cli, r);
            forall i :: 0 <= i < |s.table| && AllPositive(Events(cli, r, s.table[i].pid)) ==>
              s.table[i].status == Available && s.table[i].remaining == 0
  {
    var s := State(cli, r);
    forall p | p in s.procs ensures !s.procs[p].busy <==> AllPositive(Events(cli, r, p)) {
      AlwaysKept(cli, r, p);
      NeverIdleAgain(Events(cli, r, p));
    }
    forall i | 0 <= i < |s.table| && AllPositive(Events(cli, r, s.table[i].pid))
      ensures s.table[i].status == Available && s.table[i].remaining == 0
    {
      var p := s.table[i].pid;
      OneRowPerDriver(cli, r);
      FindUnique(s.table, p, i);
      AlwaysKept(cli, r, p);
      NeverIdleAgain(Events(cli, r, p));
      ViewPlusPendingIsTruth(cli, r, p);
      assert Queue(s.queues, CLI_QUEUE_KEY) == [] && From([], p) == [];
      StatusIsTruthful(cli, r, p);
    }
  }

  lemma PositiveTasksAccepted(cli: int, r: Run, p: int)
    requires Legal(cli, r) && PositiveTasks(r) && p > 0
    ensures AllPositive(Events(cli, r, p))
  {
    AlwaysKept(cli, r, p);
    PositiveSent(cli, r, p);
    var es := Events(cli, r, p);
    forall e | e in es && e.Accepted? ensures e.timer > 0 {
      AcceptedHandled(es, e);
      assert e.timer in TasksSent(cli, r, p);
    }
  }

  /** From every reachable state the system comes to rest by itself.  If every send_task had a positive timer, all
      drivers are then idle and all rows say so. */
  lemma SettlesDown(cli: int, r: Run) returns (q: Run)
    requires Legal(cli, r)
    ensures Legal(cli, q) && Internally(r, q) && AtRest(State(cli, q))
    ensures PositiveTasks(r) ==>
              var s := State(cli, q);
              && (forall p :: p in s.procs ==> !s.procs[p].busy)
              && (forall i :: 0 <= i < |s.table| ==> s.table[i].status == Available && s.table[i].remaining == 0)
  {
    var q0 := FinishDrivers(cli, r, State(cli, r).procs.Keys);
    DrainIsRun(cli, q0);
    var n := |Queue(State(cli, q0).queues, CLI_QUEUE_KEY)|;
    q := Receiving(q0, n);
    ReceivingIsInternal(cli, q0, n);
    InternallyTransitive(r, q0, q);
    RestAfterDrain(cli, q0, q);
    if PositiveTasks(r) {
      InternallyPositive(r, q);
      AllIdle(cli, q);
    }
  }

  lemma RestAfterDrain(cli: int, r: Run, q: Run)
    requires Legal(cli, r) && Legal(cli, q)
    requires State(cli, q).procs == State(cli, r).procs && Queue(State(cli, q).queues, CLI_QUEUE_KEY) == []
    requires forall k :: k != CLI_QUEUE_KEY ==> Queue(State(cli, q).queues, k) == Queue(State(cli, r).queues, k)
    requires forall p :: p in State(cli, r).procs ==> Done(State(cli, r), p)
    ensures AtRest(State(cli, q))
  {
    var s := State(cli, q);
    forall k ensures Queue(s.queues, k) == [] {
      var p := k - BASE_DRIVER_KEY;
      assert p in s.procs ==> Done(State(cli, r), p);
      if Queue(s.queues, k) != [] {
        QueueOwners(cli, q, k);
      }
    }
    forall p | p in s.procs ensures s.procs[p].outbox == [] && s.procs[p].timer != Armed {
      assert Done(State(cli, r), p);
    }
  }

  lemma AllIdle(cli: int, r: Run)
    requires Legal(cli, r) && PositiveTasks(r) && AtRest(State(cli, r))
    ensures var s := State(cli, r);
            && (forall p :: p in s.procs ==> !s.procs[p].busy)
            && (forall i :: 0 <= i < |s.table| ==> s.table[i].status == Available && s.table[i].remaining == 0)
  {
    var s := State(cli, r);
    RestIsIdle(cli, r);
    forall p | p in s.procs ensures !s.procs[p].busy {
      AlwaysKept(cli, r, p);
      PositiveTasksAccepted(cli, r, p);
    }
    forall i | 0 <= i < |s.table| ensures s.table[i].status == Available && s.table[i].remaining == 0 {
      OneRowPerDriver(cli, r);
      FindUnique(s.table, s.table[i].pid, i);
      AlwaysKept(cli, r, s.table[i].pid);
      PositiveTasksAccepted(cli, r, s.table[i].pid);
    }
  }
}
