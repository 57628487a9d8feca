/**
 Stackless coroutines (asio/asio/coroutine.hpp): a resume label kept in one int.

 A coroutine body is a flow graph: statements, jumps and branches, yields and forks.  The
 machine `Step` does what the reenter, yield and fork macros expand to, entry by entry.  The
 reference machine `FlatStep` runs the same body in one go, treating a yield as an ordinary
 statement.  Statements are logged by number; a branch may depend on all of the log and on
 is_child().  The main result: re-entering the coroutine again and again logs exactly what
 the uninterrupted body logs, whatever loops it has.
 */
module Coroutine {

  datatype Instr =
    | Do(id: nat)
    | Jump(target: nat)
    | Branch(cond: nat, target: nat)
    | Yield(lbl: nat, id: nat)
    | YieldBreak(lbl: nat)
    | Fork(lbl: nat, id: nat)
    | Return

  type Conditions = (nat, seq<nat>, bool) -> bool

  /** value_ of the coroutine; and inside an entry, modified_ of its coroutine_ref. */
  datatype State =
    | Outside(value: int, log: seq<nat>)
    | Inside(pc: nat, value: int, modified: bool, log: seq<nat>)

  const COMPLETE: int := -1

  predicate IsChild(s: State) {
    s.value < 0
  }

  predicate IsComplete(s: State) {
    s.value == COMPLETE
  }

  // ---------- Bodies ----------

  predicate HasLabel(i: Instr) {
    i.Yield? || i.YieldBreak? || i.Fork?
  }

  /** The case label that a yield or fork puts into the switch. */
  function CaseOf(i: Instr): int
    requires HasLabel(i)
  {
    if i.Fork? then 0 - i.lbl as int else i.lbl
  }

  /** Jumps stay in the body, labels are line numbers, different for each yield and fork; -1 and 0
      are cases of the reenter macro itself. */
  ghost predicate WellFormed(body: seq<Instr>) {
    && (forall i | 0 <= i < |body| && (body[i].Jump? || body[i].Branch?) :: body[i].target <= |body|)
    && (forall i | 0 <= i < |body| && HasLabel(body[i]) :: body[i].lbl >= if body[i].Fork? then 2 else 1)
    && (forall i, j | 0 <= i < j < |body| && HasLabel(body[i]) && HasLabel(body[j]) :: body[i].lbl != body[j].lbl)
  }

  /** Index of the instruction whose case label is `value`, or |body| if the switch has none. */
  function Target(body: seq<Instr>, value: int, from: nat): (k: nat)
    requires from <= |body|
    ensures from <= k <= |body|
    ensures k < |body| ==> HasLabel(body[k]) && CaseOf(body[k]) == value
    ensures forall i | from <= i < k && HasLabel(body[i]) :: CaseOf(body[i]) != value
    decreases |body| - from
  {
    if from == |body| then from
    else if HasLabel(body[from]) && CaseOf(body[from]) == value then from
    else Target(body, value, from + 1)
  }

  lemma TargetOfLabel(body: seq<Instr>, k: nat)
    requires WellFormed(body) && k < |body| && HasLabel(body[k])
    ensures Target(body, CaseOf(body[k]), 0) == k
    ensures body[k].Fork? ==> Target(body, body[k].lbl, 0) == |body|
    ensures Target(body, COMPLETE, 0) == |body|
  {
  }

  // ---------- The macros ----------

  /** Leaving an entry without a yield: the destructor of coroutine_ref. */
  function Leave(s: State): State
    requires s.Inside?
  {
    Outside(if s.modified then s.value else COMPLETE, s.log)
  }

  function Step(body: seq<Instr>, cond: Conditions, s: State): State {
    match s
    case Outside(value, log) =>
      if value == 0 then Inside(0, 0, false, log)
      else if value == COMPLETE then Outside(COMPLETE, log)
      else
        var k := Target(body, value, 0);
        if k < |body| then Inside(k + 1, value, false, log) else Outside(COMPLETE, log)
    case Inside(pc, value, modified, log) =>
      if pc >= |body| then Leave(s) else
        match body[pc]
        case Do(id) => s.(pc := pc + 1, log := log + [id])
        case Jump(target) => s.(pc := target)
        case Branch(c, target) => s.(pc := if cond(c, log, IsChild(s)) then target else pc + 1)
        case Yield(n, id) => Outside(n, log + [id])
        case YieldBreak(n) => Outside(COMPLETE, log)
        case Fork(n, id) => Inside(pc + 1, n, true, log + [id])
        case Return => Leave(s)
  }

  function Steps(body: seq<Instr>, cond: Conditions, s: State, k: nat): State {
    if k == 0 then s else Step(body, cond, Steps(body, cond, s, k - 1))
  }

  // ---------- The body without interruption ----------

  datatype Flat = Running(pc: nat, child: bool, log: seq<nat>) | Done(log: seq<nat>)

  function FlatStep(body: seq<Instr>, cond: Conditions, f: Flat): Flat {
    if f.Done? then f else
    if f.pc >= |body| then Done(f.log) else
      match body[f.pc]
      case Do(id) => f.(pc := f.pc + 1, log := f.log + [id])
      case Jump(target) => f.(pc := target)
      case Branch(c, target) => f.(pc := if cond(c, f.log, f.child) then target else f.pc + 1)
      case Yield(n, id) => Running(f.pc + 1, false, f.log + [id])
      case YieldBreak(n) => Done(f.log)
      case Fork(n, id) => Running(f.pc + 1, false, f.log + [id])
      case Return => Done(f.log)
  }

  function FlatSteps(body: seq<Instr>, cond: Conditions, f: Flat, k: nat): Flat {
    if k == 0 then f else FlatStep(body, cond, FlatSteps(body, cond, f, k - 1))
  }

  // ---------- Refinement ----------

  /** Where the uninterrupted body is when the coroutine is in state `s`. */
  function Abstract(body: seq<Instr>, s: State): Flat {
    match s
    case Inside(pc, value, modified, log) => Running(pc, value < 0, log)
    case Outside(value, log) =>
      if value == 0 then Running(0, false, log) else
        var k := Target(body, value, 0);
        if value == COMPLETE || k == |body| then Done(log) else Running(k + 1, value < 0, log)
  }

  /** A modified coroutine_ref inside the body stems from a fork, whose label is the value. */
  ghost predicate Inv(body: seq<Instr>, s: State) {
    s.Inside? && s.modified ==> exists k | 0 <= k < |body| :: body[k].Fork? && body[k].lbl == s.value
  }

  lemma StepKeepsInv(body: seq<Instr>, cond: Conditions, s: State)
    requires Inv(body, s)
    ensures Inv(body, Step(body, cond, s))
  {
  }

  /** Entering is no step of the uninterrupted body; every step inside an entry is one. */
  lemma StepRefines(body: seq<Instr>, cond: Conditions, s: State)
    requires WellFormed(body) && Inv(body, s)
    ensures Abstract(body, Step(body, cond, s))
         == if s.Outside? then Abstract(body, s) else FlatStep(body, cond, Abstract(body, s))
    ensures s.Outside? ==> Step(body, cond, s).Inside? || Abstract(body, s).Done?
    ensures Abstract(body, Step(body, cond, s)).log == Step(body, cond, s).log
  {
  }

  /** `k` steps of the coroutine are at least half as many of the body. */
  predicate Progress(f: Flat, s: State, j: nat, k: nat) {
    f.Done? || k <= 2 * j + if s.Inside? then 1 else 0
  }

  /** After `k` steps the coroutine is in `s`, where the body is in `f` after `j` steps of its own. */
  ghost predicate Refines(body: seq<Instr>, s: State, f: Flat, j: nat, k: nat) {
    Inv(body, s) && Abstract(body, s) == f && s.log == f.log && Progress(f, s, j, k) && j <= k
  }

  lemma StepKeepsRefines(body: seq<Instr>, cond: Conditions, s: State, f: Flat, j: nat, k: nat)
    requires WellFormed(body) && Refines(body, s, f, j, k)
    ensures if s.Inside? then Refines(body, Step(body, cond, s), FlatStep(body, cond, f), j + 1, k + 1)
            else Refines(body, Step(body, cond, s), f, j, k + 1)
  {
    StepRefines(body, cond, s);
    StepKeepsInv(body, cond, s);
  }

  lemma {:induction false} StepsRefine(body: seq<Instr>, cond: Conditions, start: State, k: nat) returns (j: nat)
    requires WellFormed(body) && start.Outside?
    ensures Refines(body, Steps(body, cond, start, k), FlatSteps(body, cond, Abstract(body, start), j), j, k)
  {
    if k == 0 {
      j := 0;
    } else {
      var flat := Abstract(body, start);
      j := StepsRefine(body, cond, start, k - 1);
      StepKeepsRefines(body, cond, Steps(body, cond, start, k - 1), FlatSteps(body, cond, flat, j), j, k - 1);
      if Steps(body, cond, start, k - 1).Inside? {
        j := j + 1;
      }
    }
  }

  /**
   Re-entering a coroutine again and again is running its body without interruption.  After any
   number of steps, from any resting state, it is where the body is after `j` steps of its own,
   with the same log: no statement is skipped, repeated or reordered.  Entering costs at most
   every other step, so the body is run to its end, or for ever.
   */
  lemma RunRefines(body: seq<Instr>, cond: Conditions, start: State, k: nat) returns (j: nat)
    requires WellFormed(body) && start.Outside?
    ensures Inv(body, Steps(body, cond, start, k)) && j <= k
    ensures Abstract(body, Steps(body, cond, start, k)) == FlatSteps(body, cond, Abstract(body, start), j)
    ensures Steps(body, cond, start, k).log == FlatSteps(body, cond, Abstract(body, start), j).log
    ensures FlatSteps(body, cond, Abstract(body, start), j).Done? ||
            k <= 2 * j + if Steps(body, cond, start, k).Inside? then 1 else 0
  {
    j := StepsRefine(body, cond, start, k);
  }

  lemma {:induction false} FlatChain(body: seq<Instr>, cond: Conditions, f: Flat, j: nat, k: nat)
    ensures FlatSteps(body, cond, f, j + k) == FlatSteps(body, cond, FlatSteps(body, cond, f, j), k)
  {
    if k > 0 {
      FlatChain(body, cond, f, j, k - 1);
    }
  }

  lemma {:induction false} FlatStaysDone(body: seq<Instr>, cond: Conditions, f: Flat, j: nat, k: nat)
    requires j <= k && FlatSteps(body, cond, f, j).Done?
    ensures FlatSteps(body, cond, f, k) == FlatSteps(body, cond, f, j)
    decreases k - j
  {
    if j < k {
      FlatStaysDone(body, cond, f, j, k - 1);
    }
  }

  /** Entered often enough, the coroutine ends complete, with this log. */
  ghost predicate Completes(body: seq<Instr>, cond: Conditions, start: State, log: seq<nat>) {
    exists k: nat :: Steps(body, cond, start, k) == Outside(-1, log)
  }

  /** The uninterrupted body ends, with this log. */
  ghost predicate FlatEnds(body: seq<Instr>, cond: Conditions, start: Flat, log: seq<nat>) {
    exists j: nat :: FlatSteps(body, cond, start, j) == Done(log)
  }

  /** The coroutine completes with a log exactly when the uninterrupted body ends with it. */
  lemma CompletesTogether(body: seq<Instr>, cond: Conditions, start: State, log: seq<nat>)
    requires WellFormed(body) && start.Outside?
    ensures Completes(body, cond, start, log) <==> FlatEnds(body, cond, Abstract(body, start), log)
  {
    var flat := Abstract(body, start);
    if k: nat :| Steps(body, cond, start, k) == Outside(COMPLETE, log) {
      var j := RunRefines(body, cond, start, k);
      assert FlatSteps(body, cond, flat, j) == Done(log);
    }
    if j: nat :| FlatSteps(body, cond, flat, j) == Done(log) {
      var k := 2 * j + 2;
      var i := RunRefines(body, cond, start, k);
      if i < j {
        FlatStaysDone(body, cond, flat, i, j);
      } else {
        FlatStaysDone(body, cond, flat, j, i);
      }
      assert Steps(body, cond, start, k + 1) == Outside(COMPLETE, log);
    }
  }

  /**
   A yield runs its statement and then leaves the entry; the coroutine is not complete, and the next
   entry goes on behind the yield.  A yield break leaves it complete and runs nothing.
   */
  lemma YieldLeaves(body: seq<Instr>, cond: Conditions, s: State)
    requires WellFormed(body) && s.Inside? && s.pc < |body|
    ensures body[s.pc].Yield? ==>
              var out := Step(body, cond, s);
              && out.Outside? && out.log == s.log + [body[s.pc].id] && !IsComplete(out) && !IsChild(out)
              && Step(body, cond, out) == Inside(s.pc + 1, body[s.pc].lbl, false, out.log)
    ensures body[s.pc].YieldBreak? ==> Step(body, cond, s) == Outside(-1, s.log)
  {
    if HasLabel(body[s.pc]) {
      TargetOfLabel(body, s.pc);
    }
  }

  /** Parent and child of a fork continue at the same place, the child with is_child(). */
  lemma ForkSplits(body: seq<Instr>, cond: Conditions, s: State)
    requires WellFormed(body) && s.Inside? && s.pc < |body| && body[s.pc].Fork?
    ensures var parent, child := Step(body, cond, s), Outside(0 - body[s.pc].lbl as int, s.log);
            && Abstract(body, child) == Running(s.pc + 1, true, s.log)
            && Abstract(body, parent) == Running(s.pc + 1, false, s.log + [body[s.pc].id])
            && IsChild(child) && !IsChild(parent) && !IsComplete(child)
  {
  }

  /** An `if (is_child())` behind the fork tells them apart: each branches by its own flag and log. */
  lemma ForkBranches(body: seq<Instr>, cond: Conditions, s: State)
    requires WellFormed(body) && s.Inside? && s.pc + 1 < |body| && body[s.pc].Fork? && body[s.pc + 1].Branch?
    ensures var fork, branch := body[s.pc], body[s.pc + 1];
            var parent, child := Steps(body, cond, s, 2), Steps(body, cond, Outside(0 - fork.lbl as int, s.log), 2);
            && parent.Inside? && parent.log == s.log + [fork.id]
            && parent.pc == (if cond(branch.cond, s.log + [fork.id], false) then branch.target else s.pc + 2)
            && child.Inside? && child.log == s.log
            && child.pc == if cond(branch.cond, s.log, true) then branch.target else s.pc + 2
  {
    var child := Outside(0 - body[s.pc].lbl as int, s.log);
    TargetOfLabel(body, s.pc);
    assert Steps(body, cond, s, 1) == Step(body, cond, s);
    assert Steps(body, cond, child, 1) == Step(body, cond, child);
  }

  /** The complete state is absorbing and logs nothing. */
  lemma {:induction false} CompleteIsAbsorbing(body: seq<Instr>, cond: Conditions, log: seq<nat>, k: nat)
    ensures Steps(body, cond, Outside(COMPLETE, log), k) == Outside(COMPLETE, log)
  {
    if k > 0 {
      CompleteIsAbsorbing(body, cond, log, k - 1);
    }
  }

  /** All states from the first to the `k`th are inside the entry that begins in `start`. */
  ghost predicate OneEntry(body: seq<Instr>, cond: Conditions, start: State, k: nat) {
    start.Outside? && forall i: nat | 1 <= i <= k :: Steps(body, cond, start, i).Inside?
  }

  /** The `i`th step of an entry executes a fork. */
  ghost predicate ForksAt(body: seq<Instr>, cond: Conditions, start: State, i: nat) {
    var s := Steps(body, cond, start, i);
    s.Inside? && s.pc < |body| && body[s.pc].Fork?
  }

  lemma {:induction false} ModifiedMeansForked(body: seq<Instr>, cond: Conditions, start: State, k: nat)
    requires OneEntry(body, cond, start, k) && k > 0
    ensures Steps(body, cond, start, k).modified <==> exists i: nat | 1 <= i < k :: ForksAt(body, cond, start, i)
  {
    if k > 1 {
      ModifiedMeansForked(body, cond, start, k - 1);
      if Steps(body, cond, start, k).modified && !Steps(body, cond, start, k - 1).modified {
        assert ForksAt(body, cond, start, k - 1);
      }
    }
  }

  /**
   An entry that leaves without a yield, off the end or by return, completes the coroutine exactly
   when it executed no fork.  After a fork the value stays at the fork's label; the next entry
   runs nothing and completes it.
   */
  lemma LeavingCompletes(body: seq<Instr>, cond: Conditions, start: State, k: nat)
    requires WellFormed(body) && OneEntry(body, cond, start, k) && k > 0
    requires var s := Steps(body, cond, start, k); s.pc >= |body| || body[s.pc].Return?
    ensures var out := Steps(body, cond, start, k + 1);
            && out.Outside? && out.log == Steps(body, cond, start, k).log
            && (IsComplete(out) <==> !exists i: nat | 1 <= i < k :: ForksAt(body, cond, start, i))
    ensures Steps(body, cond, start, k + 2) == Outside(COMPLETE, Steps(body, cond, start, k).log)
  {
    ModifiedMeansForked(body, cond, start, k);
    var j := RunRefines(body, cond, start, k);
    var s, out := Steps(body, cond, start, k), Steps(body, cond, start, k + 1);
    assert out == Leave(s);
    if s.modified {
      var f :| 0 <= f < |body| && body[f].Fork? && body[f].lbl == s.value;
      TargetOfLabel(body, f);
    }
    assert Steps(body, cond, start, k + 2) == Step(body, cond, out);
  }

  /** Concretely: a body that forks and ends leaves its parent incomplete, at the fork's label. */
  lemma ForkLeavesIncomplete(cond: Conditions)
    ensures var body, start := [Fork(2, 0)], Outside(0, []);
            && WellFormed(body) && OneEntry(body, cond, start, 2) && Steps(body, cond, start, 2).pc == |body|
            && Steps(body, cond, start, 3) == Outside(2, [0]) && !IsComplete(Steps(body, cond, start, 3))
  {
    var body, start := [Fork(2, 0)], Outside(0, []);
    assert Steps(body, cond, start, 1) == Inside(0, 0, false, []);
    assert Steps(body, cond, start, 2) == Inside(1, 2, true, [0]);
  }
}
