/**
 garbd's receive loop and its helper threads (garb/garb_recv_loop.cpp).

 The main thread handles one group action at a time, a stderr thread sets `sstEnded` when the
 script closes its stderr, and a status thread sets `sstTerminated` when the donor is gone.
 Runs of the state machine are arbitrary interleavings of these steps; the class `Loop` is the
 loop as written, which drives a `Process` and is proved to run as the state machine does.
 */
module RecvLoop {
  import P = Process

  datatype Exit = ChildAwaited | ScriptKilled | NoScript | Inconsistent

  datatype Main = Looping | Returned(code: int, via: Exit)

  /** The process object: pid_, err_, and whether io_ and io_w_ are not null. */
  datatype Proc = Proc(pid: nat, err: int, stream: bool, streamW: bool)

  /** What went wrong on the way out: a thread handle was joined that is not set, the assertion in
      wait() failed, or one in the destructor of the process object. */
  datatype Violations = Violations(joinedUnset: bool, inWait: bool, inEnd: bool)

  const NO_VIOLATIONS := Violations(false, false, false)

  datatype State = State(
    main: Main,
    script: bool,
    proc: Proc,
    // shared flags, and helper threads that can still act on them
    sstEnded: bool,
    sstTerminated: bool,
    errThreads: nat,
    statusThreads: nat,
    // all three thread handles are set
    handles: bool,
    // history: executions of the script, and children started
    prims: nat,
    children: set<nat>,
    violations: Violations)

  ghost predicate Init(s: State) {
    s == State(Looping, s.script, Proc(0, 0, false, false), false, false, 0, 0, false, 0, {}, NO_VIOLATIONS)
  }

  /** What `process::execute` did: whether it started a child, and the process object then. */
  datatype Executed = Executed(spawned: bool, proc: Proc)

  /** The outcomes `execute` of a non-empty command can have; see `Loop.OnPrimary`. */
  ghost predicate Possible(p: Proc, e: Executed) {
    if e.spawned then e.proc.pid > 0
    else e.proc.err != 0 && e.proc.pid in {p.pid, 0} && e.proc.stream == p.stream && e.proc.streamW == p.streamW
  }

  /** Which threads could be created; the loop ignores the results, and a failed call leaves no valid handle. */
  datatype Threads = Threads(err: bool, out: bool, status: bool)

  predicate AllCreated(t: Threads) {
    t.err && t.out && t.status
  }

  datatype Step =
    | OtherAction
    | Prim(e: Executed, t: Threads)
    | PrimWithoutScript
    | SelfLeave(status: P.WaitStatus)
    | Inconsistency
    | StderrClosed
    | DonorGone

  ghost predicate Enabled(s: State, a: Step) {
    match a
    case OtherAction => s.main.Looping?
    case Prim(e, _) => s.main.Looping? && s.script && Possible(s.proc, e)
    case PrimWithoutScript => s.main.Looping? && !s.script
    case SelfLeave(status) => s.main.Looping? && P.ProperStatus(status)
    case Inconsistency => s.main.Looping?
    case StderrClosed => s.errThreads > 0
    case DonorGone => s.statusThreads > 0
  }

  /** A stream without a process, which the destructor asserts not to be there. */
  predicate Orphaned(p: Proc) {
    p.pid == 0 && (p.stream || p.streamW)
  }

  /** Returning from the loop, which destroys the process object. */
  function Return(s: State, code: int, via: Exit): State {
    s.(main := Returned(code, via), violations := s.violations.(inEnd := Orphaned(s.proc)))
  }

  /** The effect of wait(). */
  function Awaited(p: Proc, status: P.WaitStatus): Proc {
    var (pid, err) := P.Waited(p.pid, p.err, status);
    var held := p.pid == 0 || status.WaitFailed?;
    Proc(pid, err, p.stream && held, p.streamW && held)
  }

  function Leave(s: State, status: P.WaitStatus): State {
    if !s.script then
      Return(s, 0, NoScript)
    else if s.sstTerminated || s.sstEnded then
      var proc := Awaited(s.proc, status);
      var inWait := s.proc.pid == 0 && s.proc.stream;
      Return(s.(proc := proc, violations := s.violations.(joinedUnset := !s.handles, inWait := inWait)),
             proc.err, ChildAwaited)
    else
      Return(s.(violations := s.violations.(joinedUnset := !s.handles)), 1, ScriptKilled)
  }

  function Start(s: State, e: Executed, t: Threads): State {
    s.(prims := s.prims + 1, proc := e.proc, handles := AllCreated(t),
       children := s.children + (if e.spawned then {e.proc.pid} else {}),
       errThreads := s.errThreads + (if t.err then 1 else 0),
       statusThreads := s.statusThreads + (if t.status then 1 else 0))
  }

  ghost function Apply(s: State, a: Step): State
    requires Enabled(s, a)
  {
    match a
    case OtherAction => s
    case Prim(e, t) => Start(s, e, t)
    case PrimWithoutScript => s
    case SelfLeave(status) => Leave(s, status)
    case Inconsistency => Return(s, 0, Inconsistent)
    case StderrClosed => s.(sstEnded := true, errThreads := s.errThreads - 1)
    case DonorGone => s.(sstTerminated := true, statusThreads := s.statusThreads - 1)
  }

  ghost predicate Moves(run: seq<State>, steps: seq<Step>, i: nat)
    requires i < |steps| < |run|
  {
    Enabled(run[i], steps[i]) && run[i + 1] == Apply(run[i], steps[i])
  }

  /** States `run[0]`, `run[1]`, ... of an interleaving. */
  ghost predicate Run(run: seq<State>, steps: seq<Step>) {
    && |run| == |steps| + 1 && Init(run[0])
    && forall i | 0 <= i < |steps| :: Moves(run, steps, i)
  }

  /**
   What every step keeps.  A set flag, like a live helper thread, implies that a script was
   started; starting one leaves a child or an error behind; a child's pid was returned by a spawn.
   */
  ghost predicate Inv(s: State) {
    && (s.sstEnded || s.sstTerminated || s.errThreads > 0 || s.statusThreads > 0 ==> s.script && s.prims > 0)
    && (s.script && s.prims > 0 && s.main.Looping? ==> s.proc.pid != 0 || s.proc.err != 0)
    && (s.proc.pid != 0 ==> s.proc.pid in s.children)
    && (s.prims == 0 ==> s.proc == Proc(0, 0, false, false) && !s.handles)
    && (s.prims <= 1 && s.main.Looping? ==> !Orphaned(s.proc))
    && (s.main.Looping? ==> s.violations == NO_VIOLATIONS)
    && (s.violations.inWait ==> s.violations.inEnd)
    && (s.violations.inEnd ==> s.prims >= 2)
  }

  lemma StepKeepsInv(s: State, a: Step)
    requires Inv(s) && Enabled(s, a)
    ensures Inv(Apply(s, a))
  {
  }

  lemma {:induction false} RunKeepsInv(run: seq<State>, steps: seq<Step>, i: nat)
    requires Run(run, steps) && i < |run|
    ensures Inv(run[i]) && run[i].script == run[0].script
  {
    if i > 0 {
      assert Moves(run, steps, i - 1);
      RunKeepsInv(run, steps, i - 1);
      StepKeepsInv(run[i - 1], steps[i - 1]);
    }
  }

  /** Every child was returned by a spawn in an earlier step. */
  lemma {:induction false} ChildWasSpawned(run: seq<State>, steps: seq<Step>, i: nat, child: nat) returns (j: nat)
    requires Run(run, steps) && i < |run| && child in run[i].children
    ensures j < i && steps[j].Prim? && steps[j].e.spawned && steps[j].e.proc.pid == child
  {
    assert Moves(run, steps, i - 1);
    if child in run[i - 1].children {
      j := ChildWasSpawned(run, steps, i - 1, child);
    } else {
      j := i - 1;
    }
  }

  /** The step in which the loop returned. */
  lemma {:induction false} ReturnStep(run: seq<State>, steps: seq<Step>, i: nat) returns (k: nat)
    requires Run(run, steps) && i < |run| && run[i].main.Returned?
    ensures k < i && run[k].main.Looping? && run[k + 1].main == run[i].main
  {
    assert Moves(run, steps, i - 1);
    if run[i - 1].main.Looping? {
      k := i - 1;
    } else {
      k := ReturnStep(run, steps, i - 1);
    }
  }

  ghost predicate Spawned(a: Step, pid: nat) {
    a.Prim? && a.e.spawned && a.e.proc.pid == pid
  }

  /**
   In step `k` the loop waited and returned `code`: what waitpid reported of a child started in this
   run, with three exit statuses translated to EACCES, ENOENT and EINTR; or without a child the error
   that the last start left, which is not 0.
   */
  ghost predicate AwaitedAt(run: seq<State>, steps: seq<Step>, k: nat, code: int)
    requires |run| == |steps| + 1
  {
    && k < |steps| && run[k].main.Looping? && steps[k].SelfLeave?
    && if run[k].proc.pid == 0 then code == run[k].proc.err && code != 0
       else && (exists j | 0 <= j < k :: Spawned(steps[j], run[k].proc.pid))
            && match steps[k].status
               case Exited(c) => code == if c == 126 then 13 else if c == 127 then 2 else if c == 143 then 4 else c
               case WaitFailed(errno) => code == errno && code != 0
               case Aborted(errno) => code != 0 && (errno !in {0, 126, 127, 143} ==> code == errno)
  }

  /** So the code is 0 exactly for a child that exited with status 0. */
  lemma AwaitedZero(run: seq<State>, steps: seq<Step>, k: nat, code: int)
    requires |run| == |steps| + 1 && AwaitedAt(run, steps, k, code)
    ensures code == 0 <==> run[k].proc.pid != 0 && steps[k].status == P.Exited(0)
  {
  }

  /**
   With a script configured, on every interleaving, the loop returns 0 only after an inconsistency
   or when a child started in this run was waited for and exited with status 0; and what it returns
   after waiting is that child's status.
   */
  lemma ZeroMeansChildSucceeded(run: seq<State>, steps: seq<Step>)
    requires Run(run, steps) && run[0].script && run[|steps|].main.Returned?
    ensures run[|steps|].main.via in {Inconsistent, ScriptKilled, ChildAwaited}
    ensures run[|steps|].main.via == ScriptKilled ==> run[|steps|].main.code == 1
    ensures run[|steps|].main.via == ChildAwaited ==> exists k :: AwaitedAt(run, steps, k, run[|steps|].main.code)
  {
    var k := ReturnStep(run, steps, |steps|);
    RunKeepsInv(run, steps, k);
    var s := run[k];
    assert Moves(run, steps, k);
    if run[|steps|].main.via == ChildAwaited {
      P.WaitReportsZero(s.proc.pid, s.proc.err, steps[k].status);
      if s.proc.pid != 0 {
        var j := ChildWasSpawned(run, steps, k, s.proc.pid);
        assert Spawned(steps[j], s.proc.pid);
      }
      assert AwaitedAt(run, steps, k, run[|steps|].main.code);
    }
  }

  /** Without a script the loop returns 0, whichever way it ends. */
  lemma NoScriptReturnsZero(run: seq<State>, steps: seq<Step>)
    requires Run(run, steps) && !run[0].script && run[|steps|].main.Returned?
    ensures run[|steps|].main.code == 0 && run[|steps|].main.via in {NoScript, Inconsistent}
    ensures run[|steps|].violations == NO_VIOLATIONS
  {
    var k := ReturnStep(run, steps, |steps|);
    assert Moves(run, steps, k);
    RunKeepsInv(run, steps, k);
    NeverStarted(run, steps, k);
    StaysReturned(run, steps, k + 1, |steps|);
  }

  lemma {:induction false} NeverStarted(run: seq<State>, steps: seq<Step>, i: nat)
    requires Run(run, steps) && !run[0].script && i < |run|
    ensures run[i].prims == 0
  {
    if i > 0 {
      assert Moves(run, steps, i - 1);
      RunKeepsInv(run, steps, i - 1);
      NeverStarted(run, steps, i - 1);
    }
  }

  /** How many of the first `i` steps created a stderr thread, and how many were the end of one. */
  function ErrCreated(steps: seq<Step>, i: nat): nat
    requires i <= |steps|
  {
    if i == 0 then 0 else ErrCreated(steps, i - 1) + if steps[i - 1].Prim? && steps[i - 1].t.err then 1 else 0
  }

  function ErrEnded(steps: seq<Step>, i: nat): nat
    requires i <= |steps|
  {
    if i == 0 then 0 else ErrEnded(steps, i - 1) + if steps[i - 1].StderrClosed? then 1 else 0
  }

  /** The same for status threads. */
  function StatusCreated(steps: seq<Step>, i: nat): nat
    requires i <= |steps|
  {
    if i == 0 then 0 else StatusCreated(steps, i - 1) + if steps[i - 1].Prim? && steps[i - 1].t.status then 1 else 0
  }

  function StatusEnded(steps: seq<Step>, i: nat): nat
    requires i <= |steps|
  {
    if i == 0 then 0 else StatusEnded(steps, i - 1) + if steps[i - 1].DonorGone? then 1 else 0
  }

  /** A helper thread acts once: no more ends of stderr, or losses of the donor, are seen than threads were created. */
  lemma {:induction false} ThreadsActOnce(run: seq<State>, steps: seq<Step>, i: nat)
    requires Run(run, steps) && i <= |steps|
    ensures run[i].errThreads == ErrCreated(steps, i) - ErrEnded(steps, i)
    ensures run[i].statusThreads == StatusCreated(steps, i) - StatusEnded(steps, i)
    ensures run[i].sstEnded <==> ErrEnded(steps, i) > 0
    ensures run[i].sstTerminated <==> StatusEnded(steps, i) > 0
  {
    if i > 0 {
      assert Moves(run, steps, i - 1);
      ThreadsActOnce(run, steps, i - 1);
    }
  }

  // ---------- Leaving without a guard ----------

  ghost predicate NoPrim(steps: seq<Step>, i: nat, k: nat)
    requires k <= |steps|
  {
    forall j | i <= j < k :: !steps[j].Prim?
  }

  /** A helper thread set one of the flags before step `k`. */
  ghost predicate FlagSet(steps: seq<Step>, k: nat)
    requires k <= |steps|
  {
    exists j | 0 <= j < k :: steps[j].StderrClosed? || steps[j].DonorGone?
  }

  lemma {:induction false} FlagsFromSteps(run: seq<State>, steps: seq<Step>, k: nat)
    requires Run(run, steps) && k <= |steps|
    ensures run[k].sstEnded || run[k].sstTerminated <==> FlagSet(steps, k)
  {
    if k > 0 {
      FlagsFromSteps(run, steps, k - 1);
      assert Moves(run, steps, k - 1);
      assert FlagSet(steps, k) <==> FlagSet(steps, k - 1) || steps[k - 1].StderrClosed? || steps[k - 1].DonorGone?;
    }
  }

  ghost predicate SameObject(s: State, t: State) {
    s.proc == t.proc && s.handles == t.handles && s.prims == t.prims
  }

  /** Between primary configurations the process object stays as it is. */
  lemma {:induction false} SameProcess(run: seq<State>, steps: seq<Step>, i: nat, k: nat)
    requires Run(run, steps) && i <= k <= |steps| && NoPrim(steps, i, k) && run[k].main.Looping?
    ensures SameObject(run[k], run[i])
  {
    if i < k {
      assert Moves(run, steps, k - 1);
      SameProcessInStep(run[k - 1], steps[k - 1]);
      SameProcess(run, steps, i, k - 1);
    }
  }

  lemma SameProcessInStep(s: State, a: Step)
    requires Enabled(s, a) && !a.Prim? && Apply(s, a).main.Looping?
    ensures s.main.Looping? && SameObject(Apply(s, a), s)
  {
  }

  lemma {:induction false} StaysReturned(run: seq<State>, steps: seq<Step>, k: nat, i: nat)
    requires Run(run, steps) && k <= i <= |steps| && run[k].main.Returned?
    ensures run[i].main == run[k].main
    ensures run[i].violations == run[k].violations
  {
    if k < i {
      StaysReturned(run, steps, k, i - 1);
      assert Moves(run, steps, i - 1);
    }
  }

  lemma {:induction false} LastPrim(steps: seq<Step>, k: nat) returns (j: nat)
    requires k <= |steps| && !NoPrim(steps, 0, k)
    ensures j < k && steps[j].Prim? && NoPrim(steps, j + 1, k)
  {
    if steps[k - 1].Prim? {
      j := k - 1;
    } else {
      j := LastPrim(steps, k - 1);
    }
  }

  /** In step `k` the group is left, and the last start of the script, if any, did not create all threads. */
  ghost predicate LeavesUnset(steps: seq<Step>, k: nat) {
    && k < |steps| && steps[k].SelfLeave?
    && forall j | 0 <= j < k && steps[j].Prim? && NoPrim(steps, j + 1, k) ::
         !steps[j].t.err || !steps[j].t.out || !steps[j].t.status
  }

  /**
   In step `k` the loop returns, and the last primary configuration, in step `j`, found a stream of an
   earlier child, started none and left pid 0.
   */
  ghost predicate EndsBroken(run: seq<State>, steps: seq<Step>, j: nat, k: nat)
    requires |run| == |steps| + 1
  {
    && j < k < |steps| && (steps[k].SelfLeave? || steps[k].Inconsistency?)
    && steps[j].Prim? && NoPrim(steps, j + 1, k)
    && !steps[j].e.spawned && steps[j].e.proc.pid == 0 && (run[j].proc.stream || run[j].proc.streamW)
  }

  /** Besides, it leaves the group with a flag set, and the stream is the one that wait() asserts about. */
  ghost predicate LeavesBroken(run: seq<State>, steps: seq<Step>, j: nat, k: nat)
    requires |run| == |steps| + 1
  {
    EndsBroken(run, steps, j, k) && steps[k].SelfLeave? && FlagSet(steps, k) && run[j].proc.stream
  }

  /** The process object and the handles at step `k` are those that the last start of the script left. */
  lemma FromLastPrim(run: seq<State>, steps: seq<Step>, k: nat) returns (j: nat)
    requires Run(run, steps) && k < |steps| && run[k].main.Looping?
    ensures NoPrim(steps, 0, k) ==> SameObject(run[k], run[0])
    ensures !NoPrim(steps, 0, k) ==> j < k && steps[j].Prim? && NoPrim(steps, j + 1, k)
    ensures !NoPrim(steps, 0, k) ==> Possible(run[j].proc, steps[j].e) && run[k].handles == AllCreated(steps[j].t)
    ensures !NoPrim(steps, 0, k) ==> run[k].proc == steps[j].e.proc
    ensures forall i | 0 <= i < k && steps[i].Prim? && NoPrim(steps, i + 1, k) :: i == j
  {
    j := 0;
    if NoPrim(steps, 0, k) {
      SameProcess(run, steps, 0, k);
    } else {
      j := LastPrim(steps, k);
      assert Moves(run, steps, j);
      SameProcess(run, steps, j + 1, k);
    }
  }

  /** Where the loop returns: what is joined and asserted there. */
  lemma AtReturn(run: seq<State>, steps: seq<Step>, k: nat)
    requires Run(run, steps) && k < |steps| && (steps[k].SelfLeave? || steps[k].Inconsistency?)
    ensures run[k + 1].main.Returned?
    ensures steps[k].Inconsistency? ==> run[k + 1].main == Returned(0, Inconsistent)
    ensures steps[k].SelfLeave? && !run[0].script ==> run[k + 1].main == Returned(0, NoScript)
    ensures steps[k].SelfLeave? && run[0].script && !FlagSet(steps, k) ==> run[k + 1].main == Returned(1, ScriptKilled)
    ensures steps[k].SelfLeave? && run[0].script && FlagSet(steps, k) ==> run[k + 1].main.via == ChildAwaited
    ensures run[k + 1].violations.joinedUnset <==> run[0].script && LeavesUnset(steps, k)
    ensures run[k + 1].violations.inWait <==> exists j :: LeavesBroken(run, steps, j, k)
    ensures run[k + 1].violations.inEnd <==> exists j :: EndsBroken(run, steps, j, k)
  {
    assert Moves(run, steps, k);
    RunKeepsInv(run, steps, k);
    RunKeepsInv(run, steps, k + 1);
    FlagsFromSteps(run, steps, k);
    var j := FromLastPrim(run, steps, k);
    assert run[k + 1].violations.inWait ==> LeavesBroken(run, steps, j, k);
    assert run[k + 1].violations.inEnd ==> EndsBroken(run, steps, j, k);
  }

  /**
   On every interleaving.  With a script, a thread handle that is not set is joined exactly when the
   group is left and the last start of the script, if there was any, did not create all threads.  The
   destructor's assertion fails exactly when the loop returns, in whatever way, after a last primary
   configuration that failed in the spawn while streams were held; and that of wait() exactly when it
   so leaves the group with a flag set.
   */
  lemma JoinsOfUnsetHandles(run: seq<State>, steps: seq<Step>)
    requires Run(run, steps)
    ensures run[|steps|].violations.joinedUnset <==> run[0].script && exists k :: LeavesUnset(steps, k)
    ensures run[|steps|].violations.inWait <==> exists j, k :: LeavesBroken(run, steps, j, k)
    ensures run[|steps|].violations.inEnd <==> exists j, k :: EndsBroken(run, steps, j, k)
  {
    RunKeepsInv(run, steps, |steps|);
    forall k | 0 <= k < |steps| && (steps[k].SelfLeave? || steps[k].Inconsistency?)
      ensures run[|steps|].violations.joinedUnset <==> run[0].script && LeavesUnset(steps, k)
      ensures run[|steps|].violations.inWait <==> exists j :: LeavesBroken(run, steps, j, k)
      ensures run[|steps|].violations.inEnd <==> exists j :: EndsBroken(run, steps, j, k)
    {
      AtReturn(run, steps, k);
      StaysReturned(run, steps, k + 1, |steps|);
    }
    if run[|steps|].main.Returned? {
      var k := ReturnStep(run, steps, |steps|);
      assert Moves(run, steps, k);
    }
  }

  // ---------- The loop itself ----------

  /** What reaches the program: group actions, the end of the script's stderr, the loss of the donor. */
  datatype Event =
    | GroupAction
    | PrimaryConf(faults: P.Call -> int, ignored: nat -> bool, newPid: nat, threads: Threads)
    | LeaveConf(status: P.WaitStatus)
    | InconsistencyAction
    | StderrEof
    | DonorLost

  predicate ProperEvent(e: Event) {
    (e.PrimaryConf? ==> e.newPid > 0) && (e.LeaveConf? ==> P.ProperStatus(e.status))
  }

  /** The outcome of `execute` under the given faults. */
  ghost predicate ExecutedUnder(hasCmd: bool, p: Proc, c: Event, e: Executed)
    requires c.PrimaryConf?
  {
    var reaches := hasCmd && P.ReachesSpawn(P.ModeRW, c.faults, c.ignored);
    && (e.spawned <==> reaches && c.faults(P.Spawn) == 0)
    && e.proc.pid == (if e.spawned then c.newPid else if reaches then 0 else p.pid)
    && (!e.spawned ==> e.proc.err != 0)
    && e.proc.err == (if !hasCmd then P.ENOMEM
                      else if P.Attaches(P.ModeRW, c.faults, c.ignored) then P.StreamError(P.ModeRW, c.faults)
                      else P.ExecuteError(P.ModeRW, c.faults, c.ignored))
    && (if hasCmd && P.Attaches(P.ModeRW, c.faults, c.ignored)
        then e.proc.stream == (c.faults(P.FdOpen(0)) == 0) && e.proc.streamW == (c.faults(P.FdOpen(1)) == 0)
        else e.proc.stream == p.stream && e.proc.streamW == p.streamW)
  }

  /** The step of the state machine that an event makes. */
  ghost predicate Answers(hasCmd: bool, s: State, event: Event, step: Step) {
    match event
    case GroupAction => step == OtherAction
    case PrimaryConf(_, _, _, threads) =>
      if s.script then step.Prim? && step.t == threads && ExecutedUnder(hasCmd, s.proc, event, step.e)
      else step == PrimWithoutScript
    case LeaveConf(status) => step == SelfLeave(status)
    case InconsistencyAction => step == Inconsistency
    case StderrEof => step == if s.errThreads > 0 then StderrClosed else OtherAction
    case DonorLost => step == if s.statusThreads > 0 then DonorGone else OtherAction
  }

  function ProcOf(p: P.Process): Proc
    reads p
  {
    Proc(p.pid, p.err, p.io != P.NONE, p.ioW != P.NONE)
  }

  /** The locals of `loop`, the flags it shares with its threads, and the script's process. */
  class Loop {
    const p: P.Process
    var os: P.Os
    var sstEnded: bool
    var sstTerminated: bool
    var errThreads: nat
    var statusThreads: nat
    var main: Main
    /** All three thread handles are set. */
    ghost var handles: bool
    ghost var prims: nat
    ghost var children: set<nat>
    ghost var violations: Violations

    /** The streams are open as long as the loop runs; a return closes them unless an assertion fails. */
    ghost predicate Valid()
      reads this, p
    {
      && p.Valid() && (main.Looping? ==> p.Holds(os))
      && (main.Returned? && !violations.inEnd ==> p.Streams() !! os.open)
    }

    ghost function View(): State
      reads this, p
    {
      State(main, p.cmd != "", ProcOf(p), sstEnded, sstTerminated, errThreads, statusThreads,
            handles, prims, children, violations)
    }

    constructor (script: string, strdupWorks: bool, system: P.Os)
      ensures Valid() && Init(View()) && fresh(p) && p.cmd == script && p.hasCmd == strdupWorks
    {
      p := new P.Process(script, strdupWorks);
      os, main := system, Looping;
      sstEnded, sstTerminated, errThreads, statusThreads := false, false, 0, 0;
      handles, prims, children, violations := false, 0, {}, NO_VIOLATIONS;
    }

    /** `execute`, under the faults of the configuration. */
    method Execute(conf: Event) returns (ghost e: Executed)
      requires Valid() && main.Looping? && conf.PrimaryConf? && ProperEvent(conf) && p.cmd != ""
      modifies `os, p
      ensures Valid() && main.Looping? && View() == old(View()).(proc := e.proc)
      ensures Possible(old(ProcOf(p)), e) && ExecutedUnder(p.hasCmd, old(ProcOf(p)), conf, e)
    {
      var spawned, attached, actions, pipes;
      os, spawned, attached, actions, pipes := p.Execute(P.ModeRW, os, conf.faults, conf.ignored, conf.newPid);
      e := Executed(spawned, ProcOf(p));
    }

    /** The three creations of threads, whose results are not looked at. */
    method CreateThreads(ghost e: Executed, created: Threads)
      requires ProcOf(p) == e.proc
      modifies `errThreads, `statusThreads, `prims, `children, `handles
      ensures View() == Start(old(View()), e, created)
    {
      errThreads := errThreads + if created.err then 1 else 0;
      statusThreads := statusThreads + if created.status then 1 else 0;
      prims, children := prims + 1, children + if e.spawned then {e.proc.pid} else {};
      handles := AllCreated(created);
    }

    /** A primary configuration in state PRIM: starts the script and its helper threads. */
    method OnPrimary(conf: Event) returns (ghost step: Step)
      requires Valid() && main.Looping? && conf.PrimaryConf? && ProperEvent(conf)
      modifies this, p
      ensures Valid() && Enabled(old(View()), step) && View() == Apply(old(View()), step)
      ensures Answers(p.hasCmd, old(View()), conf, step)
    {
      if p.cmd != "" {
        ghost var e := Execute(conf);
        CreateThreads(e, conf.threads);
        step := Prim(e, conf.threads);
      } else {
        step := PrimWithoutScript;
      }
    }

    /** Returning destroys the process object, which closes its streams or fails an assertion. */
    method Finish(code: int, via: Exit)
      requires Valid() && main.Looping?
      modifies `main, `violations, `os
      ensures Valid() && View() == Return(old(View()), code, via)
    {
      violations := violations.(inEnd := Orphaned(ProcOf(p)));
      if (p.io == P.NONE && p.ioW == P.NONE) || p.pid != 0 {
        os := p.Destroy(os);
      }
      main := Returned(code, via);
    }

    /** The message about leaving the group: decides how to end from the two flags. */
    method OnSelfLeave(status: P.WaitStatus) returns (ghost step: Step)
      requires Valid() && main.Looping? && P.ProperStatus(status)
      modifies this, p
      ensures Valid() && step == SelfLeave(status)
      ensures Enabled(old(View()), step) && View() == Apply(old(View()), step)
    {
      step := SelfLeave(status);
      if p.cmd == "" {
        Finish(0, NoScript);
      } else if sstTerminated || sstEnded {
        var ret := Await(status);
        violations := violations.(joinedUnset := !handles);
        Finish(ret, ChildAwaited);
      } else {
        violations := violations.(joinedUnset := !handles);
        Finish(1, ScriptKilled);
      }
    }

    /** wait(), also where its assertion would fail: without a child it reports the last error. */
    method Await(status: P.WaitStatus) returns (ret: int)
      requires Valid() && main.Looping? && P.ProperStatus(status)
      modifies `os, `violations, p
      ensures Valid() && ProcOf(p) == Awaited(old(ProcOf(p)), status) && ret == p.err
      ensures violations == old(violations.(inWait := p.pid == 0 && p.io != P.NONE))
    {
      violations := violations.(inWait := p.pid == 0 && p.io != P.NONE);
      if p.pid == 0 && p.io != P.NONE {
        ret := p.err;
      } else {
        os, ret := p.Wait(os, status);
      }
    }

    /** One event: an action taken from the group, or what a helper thread does. */
    method OnEvent(event: Event) returns (ghost step: Step)
      requires Valid() && main.Looping? && ProperEvent(event)
      modifies this, p
      ensures Valid() && Enabled(old(View()), step) && View() == Apply(old(View()), step)
      ensures Answers(p.hasCmd, old(View()), event, step)
    {
      step := OtherAction;
      match event {
        case GroupAction =>
        case PrimaryConf(_, _, _, _) =>
          step := OnPrimary(event);
        case LeaveConf(status) =>
          step := OnSelfLeave(status);
        case InconsistencyAction =>
          Finish(0, Inconsistent);
          step := Inconsistency;
        case StderrEof =>
          if errThreads > 0 {
            sstEnded, errThreads, step := true, errThreads - 1, StderrClosed;
          }
        case DonorLost =>
          if statusThreads > 0 {
            sstTerminated, statusThreads, step := true, statusThreads - 1, DonorGone;
          }
      }
    }

    /**
     The loop under every sequence of events, until it returns.  It runs as the state machine does,
     so with a script it returns 0 only after an inconsistency or for a child of this run that
     exited with status 0.
     */
    method Handle(events: seq<Event>) returns (ghost run: seq<State>, ghost steps: seq<Step>)
      requires Valid() && Init(View()) && forall i | 0 <= i < |events| :: ProperEvent(events[i])
      modifies this, p
      ensures Valid() && Explains(p.hasCmd, events, run, steps) && run[0] == old(View()) && View() == run[|steps|]
      ensures main.Returned? && p.cmd != "" && main.code == 0 ==>
                main.via == Inconsistent || (main.via == ChildAwaited && exists k :: AwaitedAt(run, steps, k, 0))
      ensures main.Returned? && p.cmd != "" && main.via == ChildAwaited ==>
                exists k :: AwaitedAt(run, steps, k, main.code)
      ensures main.Returned? && p.cmd == "" ==> main.code == 0
    {
      run, steps := [View()], [];
      var i := 0;
      while i < |events| && main.Looping?
        invariant Valid() && Run(run, steps) && run[0] == old(View()) && View() == run[|steps|]
        invariant |steps| == i <= |events|
        invariant forall k | 0 <= k < |steps| :: Answers(p.hasCmd, run[k], events[k], steps[k])
        decreases |events| - i
      {
        ghost var s := View();
        ghost var step := OnEvent(events[i]);
        RunExtends(run, steps, step);
        run, steps := run + [Apply(s, step)], steps + [step];
        i := i + 1;
      }
      if main.Returned? && p.cmd != "" {
        RunKeepsInv(run, steps, |steps|);
        ZeroMeansChildSucceeded(run, steps);
      }
      if main.Returned? && p.cmd == "" {
        NoScriptReturnsZero(run, steps);
      }
    }
  }

  /** `steps` are what the loop does in response to `events`, until it returns. */
  ghost predicate Explains(hasCmd: bool, events: seq<Event>, run: seq<State>, steps: seq<Step>) {
    && Run(run, steps) && |steps| <= |events| && (|steps| < |events| ==> run[|steps|].main.Returned?)
    && forall i | 0 <= i < |steps| :: Answers(hasCmd, run[i], events[i], steps[i])
  }

  lemma RunExtends(run: seq<State>, steps: seq<Step>, a: Step)
    requires Run(run, steps) && Enabled(run[|steps|], a)
    ensures Run(run + [Apply(run[|steps|], a)], steps + [a])
  {
    var run', steps' := run + [Apply(run[|steps|], a)], steps + [a];
    forall i | 0 <= i < |steps'| ensures Moves(run', steps', i) {
      if i < |steps| {
        assert Moves(run, steps, i);
        assert run'[i] == run[i] && steps'[i] == steps[i] && run'[i + 1] == run[i + 1];
      }
    }
  }

  // ---------- Concrete runs of the loop ----------

  /** A start whose every call succeeds. */
  ghost predicate Starts(c: Event) {
    && c.PrimaryConf? && P.Attaches(P.ModeRW, c.faults, c.ignored) && AllCreated(c.threads)
    && c.faults(P.FdOpen(0)) == 0 && c.faults(P.FdOpen(1)) == 0
  }

  /** A start that fails in the spawn. */
  ghost predicate FailsInSpawn(c: Event) {
    c.PrimaryConf? && P.ReachesSpawn(P.ModeRW, c.faults, c.ignored) && c.faults(P.Spawn) != 0
  }

  ghost predicate Leaving(e: Event) {
    e.LeaveConf? || e.InconsistencyAction?
  }

  /** The loop with a script reaches this state by the given events. */
  ghost predicate Reached(l: Loop, events: seq<Event>)
    reads l, l.p
  {
    exists run: seq<State>, steps: seq<Step> ::
      Explains(true, events, run, steps) && run[0].script && run[|steps|] == l.View()
  }

  method After(system: P.Os, events: seq<Event>) returns (l: Loop, ghost run: seq<State>, ghost steps: seq<Step>)
    requires forall i | 0 <= i < |events| :: ProperEvent(events[i])
    ensures Explains(true, events, run, steps) && run[0].script
    ensures fresh(l) && run[|steps|] == l.View() && Reached(l, events)
  {
    l := new Loop("c", true, system);
    run, steps := l.Handle(events);
  }

  /** Leaving at once joins unset handles. */
  method LeaveAtOnce(system: P.Os, leave: Event) returns (l: Loop)
    requires leave.LeaveConf? && ProperEvent(leave)
    ensures fresh(l) && Reached(l, [leave]) && l.violations.joinedUnset
  {
    ghost var run, steps;
    l, run, steps := After(system, [leave]);
    assert Moves(run, steps, 0);
  }

  /** So does leaving after a start that could not create one of its threads. */
  method LeaveWithoutThreads(system: P.Os, start: Event, leave: Event) returns (l: Loop)
    requires start.PrimaryConf? && ProperEvent(start) && !AllCreated(start.threads)
    requires leave.LeaveConf? && ProperEvent(leave)
    ensures fresh(l) && Reached(l, [start, leave]) && l.violations.joinedUnset
  {
    ghost var run, steps;
    l, run, steps := After(system, [start, leave]);
    assert Moves(run, steps, 0);
    assert Moves(run, steps, 1);
  }

  lemma FailedRestart(run: seq<State>, steps: seq<Step>, events: seq<Event>)
    requires |events| == 3 && Starts(events[0]) && FailsInSpawn(events[1]) && Leaving(events[2])
    requires Explains(true, events, run, steps) && run[0].script
    ensures |steps| == 3 && run[3].violations.inEnd && !run[3].violations.inWait
    ensures run[3].main == if events[2].LeaveConf? then Returned(1, ScriptKilled) else Returned(0, Inconsistent)
  {
    assert Moves(run, steps, 0);
    assert Moves(run, steps, 1);
    assert steps[0].Prim? && steps[1].Prim? && Orphaned(run[2].proc);
    assert Moves(run, steps, 2);
  }

  /** After a failed restart every return fails the destructor's assertion, also when no flag is set. */
  method RestartThenReturn(system: P.Os, start: Event, restart: Event, last: Event) returns (l: Loop)
    requires Starts(start) && FailsInSpawn(restart) && Leaving(last)
    requires ProperEvent(start) && ProperEvent(restart) && ProperEvent(last)
    ensures fresh(l) && Reached(l, [start, restart, last]) && l.violations.inEnd && !l.violations.inWait
    ensures l.main == if last.LeaveConf? then Returned(1, ScriptKilled) else Returned(0, Inconsistent)
  {
    ghost var run, steps;
    l, run, steps := After(system, [start, restart, last]);
    FailedRestart(run, steps, [start, restart, last]);
  }

  lemma FailedRestartAfterEnd(run: seq<State>, steps: seq<Step>, events: seq<Event>)
    requires |events| == 4 && Starts(events[0]) && events[1] == StderrEof
    requires FailsInSpawn(events[2]) && events[3].LeaveConf?
    requires Explains(true, events, run, steps) && run[0].script
    ensures |steps| == 4 && run[4].violations.inWait && run[4].violations.inEnd
  {
    assert Moves(run, steps, 0);
    assert Moves(run, steps, 1);
    assert Moves(run, steps, 2);
    assert steps[1] == StderrClosed && steps[2].Prim? && Orphaned(run[3].proc);
    assert Moves(run, steps, 3);
  }

  /** With the end of the script's stderr between the starts, leaving also fails the assertion in wait(). */
  method RestartAfterEnd(system: P.Os, start: Event, restart: Event, leave: Event) returns (l: Loop)
    requires Starts(start) && FailsInSpawn(restart) && leave.LeaveConf?
    requires ProperEvent(start) && ProperEvent(restart) && ProperEvent(leave)
    ensures fresh(l) && Reached(l, [start, StderrEof, restart, leave])
    ensures l.violations.inWait && l.violations.inEnd
  {
    ghost var run, steps;
    l, run, steps := After(system, [start, StderrEof, restart, leave]);
    FailedRestartAfterEnd(run, steps, [start, StderrEof, restart, leave]);
  }

  /** There are such events: a start with every call succeeding, and a restart with only the spawn failing. */
  method StartAndRestart() returns (start: Event, restart: Event)
    ensures Starts(start) && FailsInSpawn(restart) && ProperEvent(start) && ProperEvent(restart)
    ensures start.newPid == 1 && forall c: P.Call :: start.faults(c) == 0
    ensures restart.newPid == 2 && forall c: P.Call :: restart.faults(c) == if c == P.Spawn then 11 else 0
  {
    var works: P.Call -> int, fails: P.Call -> int := c => 0, c => if c == P.Spawn then 11 else 0;
    var ignored: nat -> bool := sig => false;
    P.OnlySpawnCanFail(P.ModeRW, works, ignored);
    P.OnlySpawnCanFail(P.ModeRW, fails, ignored);
    start := PrimaryConf(works, ignored, 1, Threads(true, true, true));
    restart := PrimaryConf(fails, ignored, 2, Threads(true, true, true));
  }

  /**
   The loop has these runs, on concrete events: leaving at once; leaving, or an inconsistency, after a
   restart that failed in the spawn; and leaving after such a restart with the first script ended.
   */
  method UnguardedLeaves(system: P.Os)
    returns (start: Event, restart: Event, atOnce: Loop, left: Loop, inconsistent: Loop, ended: Loop)
    ensures Starts(start) && FailsInSpawn(restart)
    ensures Reached(atOnce, [LeaveConf(P.Exited(0))]) && atOnce.violations.joinedUnset
    ensures Reached(left, [start, restart, LeaveConf(P.Exited(0))])
    ensures left.main.Returned? && left.main.code == 1 && left.violations.inEnd && !left.violations.inWait
    ensures Reached(inconsistent, [start, restart, InconsistencyAction])
    ensures inconsistent.main.Returned? && inconsistent.main.code == 0 && inconsistent.violations.inEnd
    ensures Reached(ended, [start, StderrEof, restart, LeaveConf(P.Exited(0))]) && ended.violations.inWait
  {
    start, restart := StartAndRestart();
    var leave := LeaveConf(P.Exited(0));
    atOnce := LeaveAtOnce(system, leave);
    left := RestartThenReturn(system, start, restart, leave);
    inconsistent := RestartThenReturn(system, start, restart, InconsistencyAction);
    ended := RestartAfterEnd(system, start, restart, leave);
  }
}
