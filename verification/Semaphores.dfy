/** System V semaphore operations with SEM_UNDO, and what the pipe programs share. */
module Semaphores {
  import opened Options

  /** One element of a semop call; every one in the program carries SEM_UNDO. */
  datatype SemBuf = SemBuf(num: nat, op: int)

  ghost predicate InRange(ops: seq<SemBuf>, n: nat) {
    forall i :: 0 <= i < |ops| ==> ops[i].num < n
  }

  /** All operations in order and at once, or None when the caller has to wait. */
  function Semop(vals: seq<int>, ops: seq<SemBuf>): (r: Option<seq<int>>)
    requires InRange(ops, |vals|)
    ensures r.Some? ==> |r.value| == |vals|
    decreases |ops|
  {
    if ops == [] then Some(vals)
    else
      var v, op := vals[ops[0].num], ops[0].op;
      if (op < 0 && v < -op) || (op == 0 && v != 0) then None
      else Semop(vals[ops[0].num := v + op], ops[1..])
  }

  /** The process's undo adjustments after `ops`. */
  function Charge(adj: seq<int>, ops: seq<SemBuf>): (r: seq<int>)
    requires InRange(ops, |adj|)
    ensures |r| == |adj|
    decreases |ops|
  {
    if ops == [] then adj else Charge(adj[ops[0].num := adj[ops[0].num] - ops[0].op], ops[1..])
  }

  /** What the kernel does with the adjustments of a process that exits. */
  function Undo(vals: seq<int>, adj: seq<int>): (r: seq<int>)
    requires |vals| == |adj|
    ensures |r| == |vals|
  {
    seq(|vals|, i requires 0 <= i < |vals| => vals[i] + adj[i])
  }

  /** Operations that go through and are then undone leave every value as it was. */
  lemma {:induction false} UndoRestores(vals: seq<int>, adj: seq<int>, ops: seq<SemBuf>)
    requires |vals| == |adj| && InRange(ops, |vals|) && Semop(vals, ops).Some?
    ensures Undo(Semop(vals, ops).value, Charge(adj, ops)) == Undo(vals, adj)
    decreases |ops|
  {
    if ops != [] {
      var n, op := ops[0].num, ops[0].op;
      var vals1, adj1 := vals[n := vals[n] + op], adj[n := adj[n] - op];
      assert Undo(vals1, adj1) == Undo(vals, adj);
      assert InRange(ops[1..], |vals1|);
      UndoRestores(vals1, adj1, ops[1..]);
    }
  }

  /** A line of the file: a number that came through the pipe, or one appended after end of file was read
      from the pipe, when the variable was not assigned. */
  datatype Line = Received(n: int) | Stale(n: int)

  /** The lines of numbers that all came through the pipe. */
  function Lines(ns: seq<int>): (ls: seq<Line>)
    ensures |ls| == |ns|
  {
    seq(|ns|, i requires 0 <= i < |ns| => Received(ns[i]))
  }

  function Numbers(ls: seq<Line>): seq<int> {
    if ls == [] then []
    else Numbers(ls[..|ls| - 1]) + (if ls[|ls| - 1].Received? then [ls[|ls| - 1].n] else [])
  }

  lemma NumbersEmpty()
    ensures Numbers([]) == []
  {
  }

  lemma NumbersAppend(ls: seq<Line>, l: Line)
    ensures Numbers(ls + [l]) == Numbers(ls) + Numbers([l])
    ensures Numbers([l]) == if l.Received? then [l.n] else []
  {
    assert (ls + [l])[..|ls|] == ls;
    assert [l][..0] == [];
  }
}
