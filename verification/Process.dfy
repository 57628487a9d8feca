/**
 garbd's child-process helper (garb/process.cc, the posix_spawn branch).

 Every system call may fail; `faults` gives its error number, 0 for success.  The resources of
 the calling process are a value threaded through the operations: closing a descriptor that is
 not open, or releasing an object that is not live, would break a precondition.
 */
module Process {

  datatype Mode = ModeR | ModeW | ModeRW | BadMode

  datatype Call =
    | Pipe(i: nat) | Strdup(i: nat) | FdOpen(i: nat)
    | AttrInit | SetPgroup | SigEmptySet | SetSigMask | SigAddSet(sig: nat) | SetSigDefault | SetFlags
    | ActionsInit | AddAction(i: nat) | Spawn | ActionsDestroy | AttrDestroy

  /** Open descriptors; live spawn attributes, file-action lists and argv strings. */
  datatype Os = Os(open: set<nat>, attrs: nat, actions: nat, strings: nat)

  const NONE: int := -1
  const NSIG: nat := 65
  const ENOENT: int := 2
  const EINTR: int := 4
  const ECHILD: int := 10
  const ENOMEM: int := 12
  const EACCES: int := 13

  function CloseFd(os: Os, fd: nat): Os
    requires fd in os.open
  {
    os.(open := os.open - {fd})
  }

  /** Closing on cleanup skips the descriptors that are -1. */
  function CloseUnless(os: Os, fd: int): Os
    requires fd >= 0 ==> fd in os.open
  {
    if fd >= 0 then CloseFd(os, fd) else os
  }

  /** The descriptor of a stream, if there is one. */
  function Fd(stream: int): set<nat>
    requires stream >= NONE
  {
    if stream >= 0 then {stream} else {}
  }

  lemma FreshDescriptor(used: set<nat>)
    ensures exists fd: nat :: fd !in used
  {
    if used != {} {
      var m := Largest(used);
      assert m + 1 !in used;
    } else {
      assert 0 !in used;
    }
  }

  ghost function Largest(s: set<nat>): (m: nat)
    requires s != {}
    ensures m in s && forall x | x in s :: x <= m
  {
    var x :| x in s;
    if s == {x} then x else
      assert s - {x} != {} && forall z | z in s :: z == x || z in s - {x};
      var y := Largest(s - {x});
      if y < x then x else y
  }

  /** pipe(): two new distinct descriptors, whichever the kernel picks. */
  method OpenPipe(os: Os, faults: Call -> int, i: nat) returns (err: int, os': Os, r: int, w: int)
    ensures err == faults(Pipe(i))
    ensures err != 0 ==> os' == os && r == NONE && w == NONE
    ensures err == 0 ==> r >= 0 && w >= 0 && r != w && r !in os.open && w !in os.open &&
                         os' == os.(open := os.open + {r, w})
  {
    err := faults(Pipe(i));
    if err != 0 {
      return err, os, NONE, NONE;
    }
    FreshDescriptor(os.open);
    var x: nat :| x !in os.open;
    FreshDescriptor(os.open + {x});
    var y: nat :| y !in os.open + {x};
    r, w := x, y;
    os' := os.(open := os.open + {x, y});
  }

  // ---------- What the child does between fork and exec ----------

  datatype Action = Dup2(from: int, to: int) | CloseIn(fd: int)

  /** Both ends of the three pipes; the second pair exists only in mode "rw". */
  datatype Pipes = Pipes(r: int, w: int, inR: int, inW: int, errR: int, errW: int)

  /** Every member of `p` is -1 or a descriptor, and no descriptor occurs twice. */
  predicate Proper(p: Pipes) {
    && p.r >= NONE && p.w >= NONE && p.inR >= NONE && p.inW >= NONE && p.errR >= NONE && p.errW >= NONE
    && Fd(p.r) !! Fd(p.w) !! Fd(p.inR) !! Fd(p.inW) !! Fd(p.errR) !! Fd(p.errW)
  }

  function PipeFds(p: Pipes): set<nat>
    requires Proper(p)
  {
    Fd(p.r) + Fd(p.w) + Fd(p.inR) + Fd(p.inW) + Fd(p.errR) + Fd(p.errW)
  }

  /** The pipes that the mode needs are open. */
  predicate Complete(mode: Mode, p: Pipes) {
    && p.r >= 0 && p.w >= 0 && p.errR >= 0 && p.errW >= 0
    && if mode == ModeRW then p.inR >= 0 && p.inW >= 0 else p.inR == p.inW == NONE
  }

  /** cleanup_pipe */
  function CloseAll(os: Os, p: Pipes): (os': Os)
    requires Proper(p) && PipeFds(p) <= os.open
    ensures os' == os.(open := os.open - PipeFds(p))
  {
    var o1 := CloseUnless(os, p.r);
    var o2 := CloseUnless(o1, p.w);
    var o3 := CloseUnless(o2, p.inR);
    var o4 := CloseUnless(o3, p.inW);
    var o5 := CloseUnless(o4, p.errR);
    CloseUnless(o5, p.errW)
  }

  function WantedActions(mode: Mode, p: Pipes): seq<Action> {
    (if mode == ModeW then [Dup2(p.r, 0), CloseIn(p.r), CloseIn(p.w)]
     else [Dup2(p.w, 1), CloseIn(p.w), CloseIn(p.r)])
    + (if mode == ModeRW then [Dup2(p.inR, 0), CloseIn(p.inR), CloseIn(p.inW)] else [])
    + [Dup2(p.errW, 2), CloseIn(p.errW), CloseIn(p.errR)]
  }

  /** The calls that configure the spawn attribute succeed; signals ignored by the parent get default handling. */
  ghost predicate AttrSucceeds(faults: Call -> int, ignored: nat -> bool) {
    && faults(SetPgroup) == 0 && faults(SigEmptySet) == 0 && faults(SetSigMask) == 0
    && (forall sig: nat | 1 <= sig < NSIG && ignored(sig) :: faults(SigAddSet(sig)) == 0)
    && ((exists sig: nat :: 1 <= sig < NSIG && ignored(sig)) ==> faults(SetSigDefault) == 0)
    && faults(SetFlags) == 0
  }

  /** Every call before posix_spawnp succeeds. */
  ghost predicate ReachesSpawn(mode: Mode, faults: Call -> int, ignored: nat -> bool) {
    && faults(Pipe(0)) == 0 && (mode == ModeRW ==> faults(Pipe(1)) == 0) && faults(Pipe(2)) == 0
    && faults(Strdup(0)) == 0 && faults(Strdup(1)) == 0 && faults(Strdup(2)) == 0
    && LaunchReachesSpawn(mode, faults, ignored)
  }

  ghost predicate LaunchReachesSpawn(mode: Mode, faults: Call -> int, ignored: nat -> bool) {
    && faults(AttrInit) == 0 && AttrSucceeds(faults, ignored) && faults(ActionsInit) == 0
    && forall i: nat | i < (if mode == ModeRW then 9 else 6) :: faults(AddAction(i)) == 0
  }

  // ---------- Which error is reported ----------

  function First(e: int, later: int): int {
    if e != 0 then e else later
  }

  /** The error of the first failing sigaddset, over the ignored signals below `sig` in order. */
  ghost function SignalError(faults: Call -> int, ignored: nat -> bool, sig: nat): int {
    if sig <= 1 then 0 else
      First(SignalError(faults, ignored, sig - 1), if ignored(sig - 1) then faults(SigAddSet(sig - 1)) else 0)
  }

  /** Some signal below `sig` is ignored. */
  ghost predicate AnyIgnored(ignored: nat -> bool, sig: nat) {
    exists k: nat :: 1 <= k < sig && ignored(k)
  }

  ghost function AttrError(faults: Call -> int, ignored: nat -> bool): int {
    var setDefault := if AnyIgnored(ignored, NSIG) then faults(SetSigDefault) else 0;
    First(faults(SetPgroup), First(faults(SigEmptySet), First(faults(SetSigMask),
      First(SignalError(faults, ignored, NSIG), First(setDefault, faults(SetFlags))))))
  }

  /** The error of the first of `n` file actions that could not be added. */
  ghost function ActionError(faults: Call -> int, n: nat): int {
    if n == 0 then 0 else First(ActionError(faults, n - 1), faults(AddAction(n - 1)))
  }

  ghost function LaunchError(mode: Mode, faults: Call -> int, ignored: nat -> bool): int {
    var actions := ActionError(faults, if mode == ModeRW then 9 else 6);
    First(faults(AttrInit), First(AttrError(faults, ignored), First(faults(ActionsInit), First(actions,
      First(faults(Spawn), First(faults(ActionsDestroy), faults(AttrDestroy)))))))
  }

  /** The error of the first call of `execute` that fails, in the order of the calls, before the streams are opened. */
  ghost function ExecuteError(mode: Mode, faults: Call -> int, ignored: nat -> bool): int {
    var second := if mode == ModeRW then faults(Pipe(1)) else 0;
    var strings := if faults(Strdup(0)) == 0 && faults(Strdup(1)) == 0 && faults(Strdup(2)) == 0 then 0 else 12;
    First(faults(Pipe(0)), First(second, First(faults(Pipe(2)), First(strings, LaunchError(mode, faults, ignored)))))
  }

  /** The error of the last stream that could not be opened. */
  function StreamError(mode: Mode, faults: Call -> int): int {
    First(faults(FdOpen(2)), First(if mode == ModeRW then faults(FdOpen(1)) else 0, faults(FdOpen(0))))
  }

  /** The calls that `execute` makes in a mode before it opens the streams. */
  ghost predicate Makes(mode: Mode, ignored: nat -> bool, c: Call) {
    match c
    case Pipe(i) => i == 0 || i == 2 || (i == 1 && mode == ModeRW)
    case Strdup(i) => i < 3
    case FdOpen(_) => false
    case SigAddSet(sig) => 1 <= sig < 65 && ignored(sig)
    case SetSigDefault => exists sig: nat :: 1 <= sig < 65 && ignored(sig)
    case AddAction(i) => i < if mode == ModeRW then 9 else 6
    case _ => true
  }

  /** Whichever of them fails alone, its error is reported; that of an allocation is ENOMEM. */
  lemma SingleFailureIsReported(mode: Mode, faults: Call -> int, ignored: nat -> bool, c: Call)
    requires Makes(mode, ignored, c) && faults(c) != 0 && forall d: Call :: d != c ==> faults(d) == 0
    ensures ExecuteError(mode, faults, ignored) == if c.Strdup? then 12 else faults(c)
  {
    LaunchErrorOf(mode, faults, ignored, c);
  }

  ghost predicate InAttr(c: Call) {
    c.SetPgroup? || c.SigEmptySet? || c.SetSigMask? || c.SigAddSet? || c.SetSigDefault? || c.SetFlags?
  }

  lemma AttrErrorOf(mode: Mode, faults: Call -> int, ignored: nat -> bool, c: Call)
    requires Makes(mode, ignored, c) && forall d: Call :: d != c ==> faults(d) == 0
    ensures AttrError(faults, ignored) == if InAttr(c) then faults(c) else 0
  {
    SignalErrorOf(faults, ignored, c, NSIG);
    if c.SetSigDefault? {
      var sig: nat :| 1 <= sig < 65 && ignored(sig);
      assert AnyIgnored(ignored, NSIG);
    }
  }

  lemma LaunchErrorOf(mode: Mode, faults: Call -> int, ignored: nat -> bool, c: Call)
    requires Makes(mode, ignored, c) && forall d: Call :: d != c ==> faults(d) == 0
    ensures LaunchError(mode, faults, ignored) == if c.Pipe? || c.Strdup? then 0 else faults(c)
  {
    AttrErrorOf(mode, faults, ignored, c);
    ActionErrorOf(faults, c, if mode == ModeRW then 9 else 6);
  }

  lemma {:induction false} SignalErrorOf(faults: Call -> int, ignored: nat -> bool, c: Call, sig: nat)
    requires forall d: Call :: d != c ==> faults(d) == 0
    ensures SignalError(faults, ignored, sig) ==
              if c.SigAddSet? && 1 <= c.sig < sig && ignored(c.sig) then faults(c) else 0
  {
    if sig > 1 {
      SignalErrorOf(faults, ignored, c, sig - 1);
    }
  }

  lemma {:induction false} ActionErrorOf(faults: Call -> int, c: Call, n: nat)
    requires forall d: Call :: d != c ==> faults(d) == 0
    ensures ActionError(faults, n) == if c.AddAction? && c.i < n then faults(c) else 0
  {
    if n > 0 {
      ActionErrorOf(faults, c, n - 1);
    }
  }

  lemma {:induction false} SignalErrorStays(faults: Call -> int, ignored: nat -> bool, sig: nat, end: nat)
    requires sig <= end && SignalError(faults, ignored, sig) != 0
    ensures SignalError(faults, ignored, end) == SignalError(faults, ignored, sig)
    decreases end
  {
    if sig < end {
      SignalErrorStays(faults, ignored, sig, end - 1);
    }
  }

  lemma {:induction false} ActionErrorStays(faults: Call -> int, n: nat, end: nat)
    requires n <= end && ActionError(faults, n) != 0
    ensures ActionError(faults, end) == ActionError(faults, n)
    decreases end
  {
    if n < end {
      ActionErrorStays(faults, n, end - 1);
    }
  }

  class Process {
    /** str_, whose allocation may have failed. */
    const cmd: string
    const hasCmd: bool
    /** Streams are the descriptor they own, or NONE for a null FILE pointer. */
    var io: int
    var ioW: int
    var ioErr: int
    var err: int
    var pid: nat

    predicate Valid()
      reads this
    {
      io >= NONE && ioW >= NONE && ioErr >= NONE
    }

    function Streams(): set<nat>
      reads this
      requires Valid()
    {
      Fd(io) + Fd(ioW) + Fd(ioErr)
    }

    predicate Runnable(mode: Mode) {
      hasCmd && cmd != "" && mode != BadMode
    }

    /** The streams that `Execute` sets in this mode. */
    function NewStreams(mode: Mode): set<nat>
      reads this
      requires Valid()
    {
      Fd(io) + Fd(ioErr) + if mode == ModeRW then Fd(ioW) else {}
    }

    /** Every stream of the mode is there. */
    predicate AllStreams(mode: Mode)
      reads this
    {
      io != NONE && ioErr != NONE && (mode == ModeRW ==> ioW != NONE)
    }

    predicate DistinctStreams(mode: Mode)
      reads this
      requires Valid()
    {
      Fd(io) !! Fd(ioErr) && (mode == ModeRW ==> Fd(ioW) !! Fd(io) + Fd(ioErr))
    }

    constructor (command: string, strdupWorks: bool)
      ensures Valid() && cmd == command && hasCmd == strdupWorks
      ensures io == ioW == ioErr == NONE && err == 0 && pid == 0
    {
      cmd, hasCmd := command, strdupWorks;
      io, ioW, ioErr, err, pid := NONE, NONE, NONE, 0, 0;
    }

    /** The calls that configure an initialised spawn attribute; stops at the first error. */
    static method ConfigureAttr(faults: Call -> int, ignored: nat -> bool) returns (e: int)
      ensures e == AttrError(faults, ignored) && (e == 0 <==> AttrSucceeds(faults, ignored))
    {
      e := faults(SetPgroup);
      if e != 0 {
        return;
      }
      e := faults(SigEmptySet);
      if e != 0 {
        return;
      }
      e := faults(SetSigMask);
      if e != 0 {
        return;
      }
      var setDefault := false;
      for sig := 1 to NSIG
        invariant e == 0 == SignalError(faults, ignored, sig)
        invariant forall k: nat | 1 <= k < sig && ignored(k) :: faults(SigAddSet(k)) == 0
        invariant setDefault <==> AnyIgnored(ignored, sig)
      {
        if ignored(sig) {
          e := faults(SigAddSet(sig));
          if e != 0 {
            SignalErrorStays(faults, ignored, sig + 1, NSIG);
            return;
          }
          setDefault := true;
        }
      }
      if setDefault {
        e := faults(SetSigDefault);
        if e != 0 {
          return;
        }
      }
      e := faults(SetFlags);
    }

    /** The calls that fill an initialised file-actions list; stops at the first error. */
    static method AddActions(faults: Call -> int, wanted: seq<Action>) returns (e: int, actions: seq<Action>)
      ensures e == ActionError(faults, |wanted|)
      ensures e == 0 <==> forall i: nat | i < |wanted| :: faults(AddAction(i)) == 0
      ensures e == 0 ==> actions == wanted
    {
      e, actions := 0, [];
      for i := 0 to |wanted|
        invariant e == 0 == ActionError(faults, i) && actions == wanted[..i]
        invariant forall k: nat | k < i :: faults(AddAction(k)) == 0
      {
        e := faults(AddAction(i));
        if e != 0 {
          ActionErrorStays(faults, i + 1, |wanted|);
          return;
        }
        actions := actions + [wanted[i]];
      }
    }

    /**
     The spawning part: whatever fails, each attribute and action list initialised here is
     destroyed exactly once.  `done` means that all of it succeeded.
     */
    method Launch(mode: Mode, pipes: Pipes, os: Os, faults: Call -> int, ignored: nat -> bool, newPid: nat)
      returns (os': Os, spawned: bool, done: bool, actions: seq<Action>)
      modifies `err, `pid
      ensures os' == os
      ensures err == LaunchError(mode, faults, ignored) && (done <==> err == 0)
      ensures spawned <==> LaunchReachesSpawn(mode, faults, ignored) && faults(Spawn) == 0
      ensures done <==> spawned && faults(ActionsDestroy) == 0 && faults(AttrDestroy) == 0
      ensures spawned ==> actions == WantedActions(mode, pipes)
      ensures pid == if spawned then newPid else if LaunchReachesSpawn(mode, faults, ignored) then 0 else old(pid)
    {
      os', spawned, done, actions := os, false, false, [];
      label CleanupPipe: {
        err := faults(AttrInit);
        if err != 0 {
          break CleanupPipe;
        }
        os' := os'.(attrs := os'.attrs + 1);
        label CleanupAttr: {
          err := ConfigureAttr(faults, ignored);
          if err != 0 {
            break CleanupAttr;
          }
          err := faults(ActionsInit);
          if err != 0 {
            break CleanupAttr;
          }
          os' := os'.(actions := os'.actions + 1);
          label CleanupActions: {
            err, actions := AddActions(faults, WantedActions(mode, pipes));
            if err != 0 {
              break CleanupActions;
            }
            err := faults(Spawn);
            if err != 0 {
              pid := 0;
              break CleanupActions;
            }
            pid, spawned := newPid, true;
            err := faults(ActionsDestroy);
            os' := os'.(actions := os'.actions - 1);
            if err != 0 {
              break CleanupAttr;
            }
            err := faults(AttrDestroy);
            os' := os'.(attrs := os'.attrs - 1);
            done := err == 0;
            break CleanupPipe;
          }
          // cleanup_actions:
          os' := os'.(actions := os'.actions - 1);
        }
        // cleanup_attr:
        os' := os'.(attrs := os'.attrs - 1);
      }
    }

    /** How many of the three argv strings could be allocated. */
    static function Strings(faults: Call -> int): (n: nat)
      ensures n <= 3
    {
      (if faults(Strdup(0)) == 0 then 1 else 0) + (if faults(Strdup(1)) == 0 then 1 else 0)
      + (if faults(Strdup(2)) == 0 then 1 else 0)
    }

    /** fdopen: the stream takes over the descriptor, or stays null. */
    static function OpenStream(faults: Call -> int, i: nat, fd: int): int {
      if faults(FdOpen(i)) == 0 then fd else NONE
    }

    /** The parent opens its ends as streams; `left` are the descriptors cleanup still has to close. */
    method AttachStreams(mode: Mode, pipes: Pipes, faults: Call -> int) returns (left: Pipes)
      requires Valid() && Proper(pipes) && Complete(mode, pipes) && err == 0
      modifies `io, `ioW, `ioErr, `err
      ensures Valid() && Proper(left) && (err == 0 <==> AllStreams(mode)) && err == StreamError(mode, faults)
      ensures NewStreams(mode) <= PipeFds(pipes) && PipeFds(left) == PipeFds(pipes) - NewStreams(mode)
      ensures io == OpenStream(faults, 0, if mode == ModeW then pipes.w else pipes.r)
      ensures ioW == if mode == ModeRW then OpenStream(faults, 1, pipes.inW) else old(ioW)
      ensures ioErr == OpenStream(faults, 2, pipes.errR)
      ensures DistinctStreams(mode)
    {
      left := pipes;
      io := OpenStream(faults, 0, if mode == ModeW then pipes.w else pipes.r);
      if io != NONE {
        if mode == ModeW {
          left := left.(w := NONE);
        } else {
          left := left.(r := NONE);
        }
      } else {
        err := faults(FdOpen(0));
      }
      if mode == ModeRW {
        ioW := OpenStream(faults, 1, pipes.inW);
        if ioW != NONE {
          left := left.(inW := NONE);
        } else {
          err := faults(FdOpen(1));
        }
      }
      ioErr := OpenStream(faults, 2, pipes.errR);
      if ioErr != NONE {
        left := left.(errR := NONE);
      } else {
        err := faults(FdOpen(2));
      }
    }

    /** The second pipe, for mode "rw", and the error pipe. */
    static method OpenMorePipes(mode: Mode, os: Os, faults: Call -> int, first: Pipes)
      returns (e: int, os': Os, all: Pipes)
      requires Proper(first) && PipeFds(first) <= os.open && first.r >= 0 && first.w >= 0
      requires first.inR == first.inW == first.errR == first.errW == NONE
      ensures Proper(all) && os' == os.(open := os.open + PipeFds(all))
      ensures PipeFds(first) <= PipeFds(all) && (PipeFds(all) - PipeFds(first)) !! os.open
      ensures e == 0 ==> Complete(mode, all)
      ensures e == First(if mode == ModeRW then faults(Pipe(1)) else 0, faults(Pipe(2)))
    {
      os', all := os, first;
      var r, w;
      if mode == ModeRW {
        e, os', r, w := OpenPipe(os', faults, 1);
        all := all.(inR := r, inW := w);
        if e != 0 {
          return;
        }
      }
      e, os', r, w := OpenPipe(os', faults, 2);
      all := all.(errR := r, errW := w);
    }

    /** Spawning, and opening the streams once that succeeded. */
    method LaunchAndAttach(mode: Mode, pipes: Pipes, os: Os, faults: Call -> int, ignored: nat -> bool, newPid: nat)
      returns (os': Os, spawned: bool, attached: bool, actions: seq<Action>, left: Pipes)
      requires Valid() && Proper(pipes) && Complete(mode, pipes)
      modifies this
      ensures Valid() && os' == os && Proper(left)
      ensures PipeFds(left) == PipeFds(pipes) - if attached then NewStreams(mode) else {}
      ensures !attached ==> unchanged(`io, `ioW, `ioErr)
      ensures attached ==> NewStreams(mode) <= PipeFds(pipes) && DistinctStreams(mode)
      ensures attached ==> io == OpenStream(faults, 0, if mode == ModeW then pipes.w else pipes.r)
      ensures attached ==> ioW == if mode == ModeRW then OpenStream(faults, 1, pipes.inW) else old(ioW)
      ensures attached ==> ioErr == OpenStream(faults, 2, pipes.errR)
      ensures spawned ==> actions == WantedActions(mode, pipes)
      ensures err == if attached then StreamError(mode, faults) else LaunchError(mode, faults, ignored)
      ensures spawned ==> (err == 0 <==> attached && AllStreams(mode))
      ensures !spawned ==> err != 0
      ensures spawned <==> LaunchReachesSpawn(mode, faults, ignored) && faults(Spawn) == 0
      ensures attached <==> spawned && faults(ActionsDestroy) == 0 && faults(AttrDestroy) == 0
      ensures pid == if spawned then newPid else if LaunchReachesSpawn(mode, faults, ignored) then 0 else old(pid)
    {
      os', spawned, attached, actions := Launch(mode, pipes, os, faults, ignored, newPid);
      left := pipes;
      if attached {
        left := AttachStreams(mode, pipes, faults);
      }
    }

    /** Everything after the first pipe, down to cleanup_pipe, which also closes that pipe. */
    method ExecutePiped(mode: Mode, os: Os, faults: Call -> int, ignored: nat -> bool, newPid: nat,
                        first: Pipes, strings: nat)
      returns (os': Os, spawned: bool, attached: bool, actions: seq<Action>, pipes: Pipes)
      requires Valid() && Proper(first) && PipeFds(first) <= os.open && first.r >= 0 && first.w >= 0
      requires first.inR == first.inW == first.errR == first.errW == NONE
      requires faults(Pipe(0)) == 0 && strings == Strings(faults)
      modifies this
      ensures Valid() && (attached ==> spawned)
      ensures os' == os.(open := os.open - PipeFds(first) + if attached then NewStreams(mode) else {})
      ensures !attached ==> unchanged(`io, `ioW, `ioErr)
      ensures attached ==> NewStreams(mode) !! os.open - PipeFds(first) && DistinctStreams(mode)
      ensures attached ==> io == OpenStream(faults, 0, if mode == ModeW then pipes.w else pipes.r)
      ensures attached ==> ioW == if mode == ModeRW then OpenStream(faults, 1, pipes.inW) else old(ioW)
      ensures attached ==> ioErr == OpenStream(faults, 2, pipes.errR)
      ensures spawned ==> actions == WantedActions(mode, pipes) && Proper(pipes) && Complete(mode, pipes)
      ensures spawned ==> PipeFds(pipes) !! os.open - PipeFds(first)
      ensures spawned ==> (err == 0 <==> attached && AllStreams(mode))
      ensures err == if attached then StreamError(mode, faults) else ExecuteError(mode, faults, ignored)
      ensures !spawned ==> err != 0
      ensures spawned <==> ReachesSpawn(mode, faults, ignored) && faults(Spawn) == 0
      ensures attached <==> spawned && faults(ActionsDestroy) == 0 && faults(AttrDestroy) == 0
      ensures pid == if spawned then newPid else if ReachesSpawn(mode, faults, ignored) then 0 else old(pid)
    {
      spawned, attached, actions, pipes := false, false, [], first;
      var e, left;
      e, os', left := OpenMorePipes(mode, os, faults, first);
      label CleanupPipe: {
        if e != 0 {
          err := e;
          break CleanupPipe;
        }
        if strings < 3 {
          err := ENOMEM;
          break CleanupPipe;
        }
        pipes := left;
        os', spawned, attached, actions, left := LaunchAndAttach(mode, pipes, os', faults, ignored, newPid);
      }
      // cleanup_pipe:
      os' := CloseAll(os', left);
    }

    /**
     Starts the command.  Whatever fails, every descriptor opened here is closed again or owned
     by exactly one stream, and every spawn attribute, action list and argv string is released.
     `spawned` tells whether a child was started, `attached` whether the stream fields were set.
     */
    method Execute(mode: Mode, os: Os, faults: Call -> int, ignored: nat -> bool, newPid: nat)
      returns (os': Os, spawned: bool, attached: bool, actions: seq<Action>, pipes: Pipes)
      requires Valid() && newPid > 0
      modifies this
      ensures Valid() && (attached ==> spawned)
      ensures os' == os.(open := os.open + if attached then NewStreams(mode) else {})
      ensures !attached ==> unchanged(`io, `ioW, `ioErr)
      ensures attached ==> NewStreams(mode) !! os.open && DistinctStreams(mode)
      ensures attached ==> io == OpenStream(faults, 0, if mode == ModeW then pipes.w else pipes.r)
      ensures attached ==> ioW == if mode == ModeRW then OpenStream(faults, 1, pipes.inW) else old(ioW)
      ensures attached ==> ioErr == OpenStream(faults, 2, pipes.errR)
      ensures spawned ==> actions == WantedActions(mode, pipes) && Proper(pipes) && Complete(mode, pipes)
      ensures spawned ==> PipeFds(pipes) !! os.open
      ensures spawned ==> (err == 0 <==> attached && AllStreams(mode))
      ensures !spawned && Runnable(mode) ==> err != 0
      ensures Runnable(mode) ==>
                err == if attached then StreamError(mode, faults) else ExecuteError(mode, faults, ignored)
      ensures spawned <==> Runnable(mode) && ReachesSpawn(mode, faults, ignored) && faults(Spawn) == 0
      ensures attached <==> spawned && faults(ActionsDestroy) == 0 && faults(AttrDestroy) == 0
      ensures !Runnable(mode) ==> unchanged(`pid) && err == if hasCmd then old(err) else 12
      ensures Runnable(mode) ==>
                pid == if spawned then newPid else if ReachesSpawn(mode, faults, ignored) then 0 else old(pid)
    {
      os', spawned, attached, actions := os, false, false, [];
      pipes := Pipes(NONE, NONE, NONE, NONE, NONE, NONE);
      if !hasCmd {
        err := ENOMEM;
        return;
      }
      if cmd == "" || mode == BadMode {
        return;
      }
      var e, r, w;
      e, os', r, w := OpenPipe(os, faults, 0);
      if e != 0 {
        err := e;
        return;
      }
      var strings := Strings(faults);
      os' := os'.(strings := os'.strings + strings);
      os', spawned, attached, actions, pipes :=
        ExecutePiped(mode, os', faults, ignored, newPid, Pipes(r, w, NONE, NONE, NONE, NONE), strings);
      os' := os'.(strings := os'.strings - strings);
      assert os.open + {r, w} - {r, w} == os.open;
    }

    /** The streams are open descriptors, no two of them the same. */
    predicate Holds(os: Os)
      reads this
    {
      Valid() && Streams() <= os.open && DistinctStreams(ModeRW)
    }

    /** Besides, a stream has a process, as `close_write_pipe` and the destructor assert. */
    predicate Owns(os: Os)
      reads this
    {
      Holds(os) && (io != NONE || ioW != NONE ==> pid != 0)
    }

    method CloseWritePipe(os: Os) returns (os': Os)
      requires Holds(os) && (ioW != NONE ==> pid != 0)
      modifies `ioW
      ensures Holds(os') && (old(Owns(os)) ==> Owns(os')) && os' == os.(open := os.open - old(Fd(ioW))) && ioW == NONE
      ensures Streams() == old(Streams() - Fd(ioW))
    {
      os' := os;
      if ioW != NONE {
        assert pid != 0;
        os' := CloseFd(os', ioW);
        ioW := NONE;
      }
    }

    /**
     Waits for the child.  The result is 0 only when waitpid reported exit status 0, or when there
     was no child to wait for and no error either.
     */
    method Wait(os: Os, status: WaitStatus) returns (os': Os, ret: int)
      requires Holds(os) && (io != NONE ==> pid != 0) && ProperStatus(status)
      modifies this
      ensures Holds(os') && (old(Owns(os)) ==> Owns(os')) && ret == err
      ensures (pid, err) == Waited(old(pid), old(err), status)
      ensures old(pid) != 0 && !status.WaitFailed? ==>
                var e := if status.Exited? then status.code else if status.errno == 0 then 10 else status.errno;
                pid == 0 && err == if e == 126 then 13 else if e == 127 then 2 else if e == 143 then 4 else e
      ensures old(pid) != 0 && status.WaitFailed? ==> pid == old(pid) && err == status.errno
      ensures old(pid) == 0 ==> pid == 0 && err == old(err)
      ensures os' == os.(open := os.open - (if old(pid) != 0 && !status.WaitFailed? then old(Streams()) else {}))
      ensures if old(pid) != 0 && !status.WaitFailed? then io == ioW == ioErr == NONE else unchanged(`io, `ioW, `ioErr)
      ensures Streams() == if old(pid) != 0 && !status.WaitFailed? then {} else old(Streams())
    {
      os' := os;
      if pid != 0 {
        if status.WaitFailed? {
          err := status.errno;
        } else {
          err := if status.Exited? then status.code else if status.errno != 0 then status.errno else ECHILD;
          if err != 0 {
            err := Translate(err);
          }
          pid := 0;
          os' := CloseUnless(os', io);
          io := NONE;
          os' := CloseUnless(os', ioW);
          ioW := NONE;
          os' := CloseUnless(os', ioErr);
          ioErr := NONE;
        }
      } else {
        assert io == NONE;
      }
      ret := err;
    }

    /** The destructor's closing of the streams. */
    method Destroy(os: Os) returns (os': Os)
      requires Owns(os)
      ensures os' == os.(open := os.open - Streams())
    {
      os' := os;
      if io != NONE {
        assert pid != 0;
        os' := CloseFd(os', io);
      }
      if ioW != NONE {
        assert pid != 0;
        os' := CloseFd(os', ioW);
      }
      if ioErr != NONE {
        os' := CloseFd(os', ioErr);
      }
    }
  }

  datatype WaitStatus = WaitFailed(errno: int) | Exited(code: nat) | Aborted(errno: int)

  /** A failing waitpid sets errno. */
  predicate ProperStatus(s: WaitStatus) {
    s.WaitFailed? ==> s.errno != 0
  }

  function Translate(code: int): int {
    if code == 126 then EACCES else if code == 127 then ENOENT else if code == 143 then EINTR else code
  }

  /** pid and err after `wait`. */
  function Waited(pid: nat, err: int, status: WaitStatus): (nat, int) {
    if pid == 0 then (pid, err) else
      match status
      case WaitFailed(errno) => (pid, errno)
      case Exited(code) => (0, Translate(code))
      case Aborted(errno) => (0, Translate(if errno != 0 then errno else ECHILD))
  }

  /** What `wait` reports of a child: its exit status, with three of them translated; or an error number. */
  lemma WaitReportsStatus(pid: nat, err: int, status: WaitStatus)
    requires pid != 0
    ensures status == Exited(126) ==> Waited(pid, err, status) == (0, 13)
    ensures status == Exited(127) ==> Waited(pid, err, status) == (0, 2)
    ensures status == Exited(143) ==> Waited(pid, err, status) == (0, 4)
    ensures status.Exited? && status.code !in {126, 127, 143} ==> Waited(pid, err, status) == (0, status.code)
    ensures status == Aborted(0) ==> Waited(pid, err, status) == (0, 10)
    ensures status.Aborted? && status.errno !in {0, 126, 127, 143} ==> Waited(pid, err, status) == (0, status.errno)
    ensures status.WaitFailed? ==> Waited(pid, err, status) == (pid, status.errno)
    ensures Waited(0, err, status) == (0, err)
  {
  }

  /** `wait` reports 0 exactly for a child that exited with status 0, or for no child and no error. */
  lemma WaitReportsZero(pid: nat, err: int, status: WaitStatus)
    requires ProperStatus(status)
    ensures Waited(pid, err, status).1 == 0 <==> if pid != 0 then status == Exited(0) else err == 0
  {
  }

  /**
   The invariant that `wait` and the destructor assert, a stream has a process, survives `Execute`
   exactly unless posix_spawnp itself fails while streams of an earlier child are still held.
   */
  method ExecuteKeepsOwnership(p: Process, mode: Mode, os: Os, faults: Call -> int, ignored: nat -> bool, newPid: nat)
    returns (os': Os)
    requires p.Owns(os) && newPid > 0
    modifies p
    ensures p.Owns(os') <==> !(&& old(p.io != NONE || p.ioW != NONE)
                               && p.Runnable(mode) && ReachesSpawn(mode, faults, ignored) && faults(Spawn) != 0)
  {
    var spawned, attached, actions, pipes;
    os', spawned, attached, actions, pipes := p.Execute(mode, os, faults, ignored, newPid);
  }

  /** An `Execute` gets past the spawn and sets the stream fields. */
  ghost predicate Attaches(mode: Mode, faults: Call -> int, ignored: nat -> bool) {
    && ReachesSpawn(mode, faults, ignored) && faults(Spawn) == 0
    && faults(ActionsDestroy) == 0 && faults(AttrDestroy) == 0
  }

  // ---------- Every life of a process object ----------

  datatype Op =
    | Start(mode: Mode, faults: Call -> int, ignored: nat -> bool, newPid: nat)
    | CloseWrite
    | Await(status: WaitStatus)

  predicate ProperOp(op: Op) {
    (op.Start? ==> op.newPid > 0) && (op.Await? ==> ProperStatus(op.status))
  }

  /** Among the first `i` operations, the last start was not followed by a wait that reaped its child. */
  predicate Busy(ops: seq<Op>, i: nat)
    requires i <= |ops|
  {
    i > 0 &&
    match ops[i - 1]
    case Start(_, _, _, _) => true
    case Await(status) => status.WaitFailed? && Busy(ops, i - 1)
    case CloseWrite => Busy(ops, i - 1)
  }

  /** Before starting again, the caller waits for the child. */
  predicate Disciplined(ops: seq<Op>) {
    forall i | 0 <= i < |ops| :: ops[i].Start? ==> !Busy(ops, i)
  }

  /** What decides the fate of a process object: which streams it has, and whether it has a child. */
  datatype Brief = Brief(io: bool, ioW: bool, ioErr: bool, child: bool)

  function BriefOf(p: Process): Brief
    reads p
  {
    Brief(p.io != NONE, p.ioW != NONE, p.ioErr != NONE, p.pid != 0)
  }

  function One(b: bool): nat {
    if b then 1 else 0
  }

  /** An assertion of the source fails: a stream is there without a child. */
  predicate AssertFails(b: Brief, op: Op) {
    (op.CloseWrite? && b.ioW && !b.child) || (op.Await? && b.io && !b.child)
  }

  predicate EndFails(b: Brief) {
    (b.io || b.ioW) && !b.child
  }

  /** The operation sets the stream fields; `canRun` tells that there is a command. */
  ghost predicate Sets(canRun: bool, op: Op) {
    op.Start? && canRun && op.mode != BadMode && Attaches(op.mode, op.faults, op.ignored)
  }

  ghost function Next(canRun: bool, b: Brief, op: Op): Brief {
    match op
    case Start(mode, faults, ignored, _) =>
      if !canRun || mode == BadMode || !ReachesSpawn(mode, faults, ignored) then b
      else if !Sets(canRun, op) then b.(child := faults(Spawn) == 0)
      else Brief(faults(FdOpen(0)) == 0, if mode == ModeRW then faults(FdOpen(1)) == 0 else b.ioW,
                 faults(FdOpen(2)) == 0, true)
    case CloseWrite => b.(ioW := false)
    case Await(status) => if b.child && !status.WaitFailed? then Brief(false, false, false, false) else b
  }

  /** How many streams the operation forgets without closing them. */
  ghost function Forgets(canRun: bool, b: Brief, op: Op): nat {
    if Sets(canRun, op) then One(b.io) + One(b.ioErr) + One(b.ioW && op.mode == ModeRW) else 0
  }

  ghost predicate Lives(canRun: bool, ops: seq<Op>, life: seq<Brief>, i: nat)
    requires i < |ops| && i + 1 < |life|
  {
    !AssertFails(life[i], ops[i]) && life[i + 1] == Next(canRun, life[i], ops[i])
  }

  /** The brief states before and after each of the first `n` operations, none of which fails an assertion. */
  ghost predicate Life(canRun: bool, ops: seq<Op>, n: nat, life: seq<Brief>) {
    && n <= |ops| && |life| == n + 1 && life[0] == Brief(false, false, false, false)
    && forall i | 0 <= i < n :: Lives(canRun, ops, life, i)
  }

  /** How many streams the first `i` operations forget. */
  ghost function Forgotten(canRun: bool, ops: seq<Op>, life: seq<Brief>, i: nat): nat
    requires i <= |ops| && i <= |life|
  {
    if i == 0 then 0 else Forgotten(canRun, ops, life, i - 1) + Forgets(canRun, life[i - 1], ops[i - 1])
  }

  /** Open descriptors before and after an operation: the streams held change, and those lost are closed by none. */
  ghost predicate Turnover(open: set<nat>, held: set<nat>, lost: set<nat>, open': set<nat>, held': set<nat>) {
    && held' <= open' && lost <= held && held' - held !! open
    && open' - held' == open - held + lost
  }

  lemma Releasing(open: set<nat>, held: set<nat>, closed: set<nat>)
    requires closed <= held <= open
    ensures Turnover(open, held, {}, open - closed, held - closed)
  {
  }

  /**
   An `Execute` that gets past the spawn forgets, without closing, exactly the streams held before
   in the fields it sets.
   */
  method ExecuteAgainLoses(p: Process, mode: Mode, os: Os, faults: Call -> int, ignored: nat -> bool, newPid: nat)
    returns (os': Os)
    requires p.Holds(os) && newPid > 0
    modifies p
    ensures p.Holds(os') && os' == os.(open := os'.open)
    ensures BriefOf(p) == Next(p.hasCmd && p.cmd != "", old(BriefOf(p)), Start(mode, faults, ignored, newPid))
    ensures var lost := if p.Runnable(mode) && Attaches(mode, faults, ignored) then old(p.NewStreams(mode)) else {};
            Turnover(os.open, old(p.Streams()), lost, os'.open, p.Streams())
  {
    var spawned, attached, actions, pipes;
    os', spawned, attached, actions, pipes := p.Execute(mode, os, faults, ignored, newPid);
  }

  /** One operation; it fails when an assertion of the source does. */
  method Perform(p: Process, os: Os, op: Op) returns (os': Os, failed: bool, ghost lost: set<nat>)
    requires p.Holds(os) && ProperOp(op)
    modifies p
    ensures p.Holds(os') && os' == os.(open := os'.open)
    ensures failed <==> AssertFails(old(BriefOf(p)), op)
    ensures failed <==> old(p.pid) == 0 && ((op.CloseWrite? && old(p.ioW) != NONE) || (op.Await? && old(p.io) != NONE))
    ensures !failed ==> BriefOf(p) == Next(p.hasCmd && p.cmd != "", old(BriefOf(p)), op)
    ensures lost == if Sets(p.hasCmd && p.cmd != "", op) then old(p.NewStreams(op.mode)) else {}
    ensures !failed ==> Turnover(os.open, old(p.Streams()), lost, os'.open, p.Streams())
  {
    os', failed, lost := os, AssertFails(BriefOf(p), op), {};
    if failed {
      return;
    }
    match op {
      case Start(mode, faults, ignored, newPid) =>
        lost := if p.Runnable(mode) && Attaches(mode, faults, ignored) then p.NewStreams(mode) else {};
        os' := ExecuteAgainLoses(p, mode, os, faults, ignored, newPid);
      case CloseWrite =>
        Releasing(os.open, p.Streams(), Fd(p.ioW));
        os' := p.CloseWritePipe(os);
      case Await(status) =>
        Releasing(os.open, p.Streams(), if p.pid != 0 && !status.WaitFailed? then p.Streams() else {});
        var ret;
        os', ret := p.Wait(os, status);
    }
  }

  lemma StreamsHeld(p: Process, mode: Mode, os: Os)
    requires p.Holds(os)
    ensures |p.NewStreams(mode)| == One(p.io != NONE) + One(p.ioErr != NONE) + One(p.ioW != NONE && mode == ModeRW)
  {
    assert Fd(p.io) * Fd(p.ioErr) == {};
    assert (Fd(p.io) + Fd(p.ioErr)) * Fd(p.ioW) == {};
  }

  /** The open descriptors are those of others, the streams held and `n` lost ones. */
  ghost predicate Accounted(others: set<nat>, lost: set<nat>, n: nat, held: set<nat>, open: set<nat>) {
    |lost| == n && open == others + lost + held && lost !! others && lost !! held && held !! others
  }

  lemma Account(others: set<nat>, lost: set<nat>, held: set<nat>, open: set<nat>,
                more: set<nat>, held': set<nat>, open': set<nat>)
    requires Accounted(others, lost, |lost|, held, open) && Turnover(open, held, more, open', held')
    ensures Accounted(others, lost + more, |lost| + |more|, held', open')
  {
    assert open - held == others + lost;
    assert open' == (open' - held') + held';
    assert lost * more == {};
  }

  lemma Settle(others: set<nat>, lost: set<nat>, n: nat, held: set<nat>, open: set<nat>)
    requires Accounted(others, lost, n, held, open)
    ensures others <= open - held && |(open - held) - others| == n
  {
    assert (open - held) - others == lost;
  }

  method PerformAccounted(p: Process, ghost start: Os, os: Os, op: Op, ghost lost: set<nat>, ghost n: nat)
    returns (os': Os, failed: bool, ghost lost': set<nat>)
    requires p.Holds(os) && ProperOp(op) && Accounted(start.open, lost, n, p.Streams(), os.open)
    modifies p
    ensures p.Holds(os') && os' == os.(open := os'.open)
    ensures failed <==> AssertFails(old(BriefOf(p)), op)
    ensures !failed ==> BriefOf(p) == Next(p.hasCmd && p.cmd != "", old(BriefOf(p)), op)
    ensures !failed ==> Accounted(start.open, lost', n + Forgets(p.hasCmd && p.cmd != "", old(BriefOf(p)), op),
                                  p.Streams(), os'.open)
  {
    ghost var more, held := {}, p.Streams();
    if op.Start? {
      StreamsHeld(p, op.mode, os);
    }
    os', failed, more := Perform(p, os, op);
    if !failed {
      Account(start.open, lost, held, os.open, more, p.Streams(), os'.open);
    }
    lost' := lost + more;
  }

  lemma LifeGrows(canRun: bool, ops: seq<Op>, n: nat, life: seq<Brief>, b: Brief)
    requires Life(canRun, ops, n, life) && n < |ops| && !AssertFails(life[n], ops[n])
    requires b == Next(canRun, life[n], ops[n])
    ensures Life(canRun, ops, n + 1, life + [b])
    ensures Forgotten(canRun, ops, life + [b], n + 1)
            == Forgotten(canRun, ops, life, n) + Forgets(canRun, life[n], ops[n])
  {
    var longer := life + [b];
    forall i | 0 <= i < n + 1 ensures Lives(canRun, ops, longer, i) {
      if i < n {
        assert Lives(canRun, ops, life, i);
        assert longer[i] == life[i] && longer[i + 1] == life[i + 1];
      }
    }
    SameForgotten(canRun, ops, life, longer, n);
  }

  lemma {:induction false} SameForgotten(canRun: bool, ops: seq<Op>, life: seq<Brief>, longer: seq<Brief>, i: nat)
    requires i <= |ops| && i <= |life| && life <= longer
    ensures Forgotten(canRun, ops, longer, i) == Forgotten(canRun, ops, life, i)
  {
    if i > 0 {
      SameForgotten(canRun, ops, life, longer, i - 1);
    }
  }

  /** The object is alive after `n` operations. */
  ghost predicate Living(p: Process, start: Os, os: Os, ops: seq<Op>, n: nat, life: seq<Brief>, lost: set<nat>)
    reads p
  {
    && p.Holds(os) && os == start.(open := os.open)
    && Life(p.hasCmd && p.cmd != "", ops, n, life) && life[n] == BriefOf(p)
    && Accounted(start.open, lost, Forgotten(p.hasCmd && p.cmd != "", ops, life, n), p.Streams(), os.open)
  }

  method LiveOn(p: Process, ghost start: Os, os: Os, ops: seq<Op>, n: nat, ghost life: seq<Brief>, ghost lost: set<nat>)
    returns (os': Os, failed: bool, ghost life': seq<Brief>, ghost lost': set<nat>)
    requires n < |ops| && ProperOp(ops[n]) && Living(p, start, os, ops, n, life, lost)
    modifies p
    ensures failed <==> AssertFails(life[n], ops[n])
    ensures if failed then life' == life else Living(p, start, os', ops, n + 1, life', lost')
  {
    ghost var canRun := p.hasCmd && p.cmd != "";
    os', failed, lost' := PerformAccounted(p, start, os, ops[n], lost, Forgotten(canRun, ops, life, n));
    life' := life;
    if !failed {
      LifeGrows(canRun, ops, n, life, BriefOf(p));
      life' := life + [BriefOf(p)];
    }
  }

  /**
   Over every sequence of operations with any failures, up to the destructor: an assertion fails
   exactly where the brief states say so; otherwise as many descriptors stay open as they count
   streams forgotten, and everything else is released.
   */
  method Lifecycle(cmd: string, strdupWorks: bool, os: Os, ops: seq<Op>)
    returns (os': Os, done: nat, failed: bool, ghost life: seq<Brief>)
    requires forall i | 0 <= i < |ops| :: ProperOp(ops[i])
    ensures Life(strdupWorks && cmd != "", ops, done, life)
    ensures done < |ops| ==> AssertFails(life[done], ops[done])
    ensures failed <==> done < |ops| || ((life[done].io || life[done].ioW) && !life[done].child)
    ensures !failed ==> os.open <= os'.open && os' == os.(open := os'.open)
    ensures !failed ==> |os'.open - os.open| == Forgotten(strdupWorks && cmd != "", ops, life, done)
  {
    var p := new Process(cmd, strdupWorks);
    ghost var canRun, lost: set<nat> := strdupWorks && cmd != "", {};
    os', done, failed, life := os, 0, false, [BriefOf(p)];
    while done < |ops|
      invariant done <= |ops| && fresh(p) && !failed && Living(p, os, os', ops, done, life, lost)
    {
      os', failed, life, lost := LiveOn(p, os, os', ops, done, life, lost);
      if failed {
        return;
      }
      done := done + 1;
    }
    failed := EndFails(BriefOf(p));
    if failed {
      return;
    }
    Settle(os.open, lost, Forgotten(canRun, ops, life, done), p.Streams(), os'.open);
    os' := p.Destroy(os');
  }

  /**
   If the caller waits for each child before starting another, no assertion fails and nothing is
   forgotten, whatever the system calls do.
   */
  lemma {:induction false} DisciplinedLife(canRun: bool, ops: seq<Op>, life: seq<Brief>, n: nat, i: nat)
    requires Disciplined(ops) && Life(canRun, ops, n, life) && i <= n
    ensures Forgotten(canRun, ops, life, i) == 0 && !EndFails(life[i])
    ensures i < |ops| ==> !AssertFails(life[i], ops[i])
    ensures !life[i].child || !Busy(ops, i) ==> !life[i].io && !life[i].ioW && !life[i].ioErr
  {
    if i > 0 {
      DisciplinedLife(canRun, ops, life, n, i - 1);
      assert Lives(canRun, ops, life, i - 1);
    }
  }

  /** Starting and successfully waiting by turns is disciplined. */
  lemma {:induction false} TurnsAreDisciplined(ops: seq<Op>)
    requires forall i | 0 <= i < |ops| ::
               if i % 2 == 0 then ops[i].Start? else ops[i].Await? && !ops[i].status.WaitFailed?
    ensures Disciplined(ops)
  {
  }

  /** So no disciplined life fails or leaves a descriptor behind. */
  method DisciplinedLifecycle(cmd: string, strdupWorks: bool, os: Os, ops: seq<Op>) returns (os': Os, failed: bool)
    requires Disciplined(ops) && forall i | 0 <= i < |ops| :: ProperOp(ops[i])
    ensures !failed && os' == os
  {
    var done;
    ghost var life;
    os', done, failed, life := Lifecycle(cmd, strdupWorks, os, ops);
    DisciplinedLife(strdupWorks && cmd != "", ops, life, done, done);
    assert os'.open == os.open + (os'.open - os.open);
  }

  lemma OnlySpawnCanFail(mode: Mode, faults: Call -> int, ignored: nat -> bool)
    requires forall c: Call :: c != Spawn ==> faults(c) == 0
    ensures ReachesSpawn(mode, faults, ignored)
    ensures faults(Spawn) == 0 ==> Attaches(mode, faults, ignored)
  {
  }

  /** A process whose child is running, with all calls made so far successful. */
  method Running(os: Os, faults: Call -> int, ignored: nat -> bool) returns (p: Process, os': Os)
    requires Attaches(ModeRW, faults, ignored)
    requires faults(FdOpen(0)) == 0 && faults(FdOpen(1)) == 0 && faults(FdOpen(2)) == 0
    ensures fresh(p) && p.Owns(os') && p.Runnable(ModeRW) && p.AllStreams(ModeRW)
    ensures os' == os.(open := os.open + p.Streams()) && p.Streams() !! os.open
  {
    p := new Process("c", true);
    var spawned, attached, actions, pipes;
    os', spawned, attached, actions, pipes := p.Execute(ModeRW, os, faults, ignored, 1);
  }

  /** Executing twice without a failure leaves three descriptors open that no stream owns, those of the first child. */
  method RunTwice(os: Os, faults: Call -> int, ignored: nat -> bool) returns (p: Process, os': Os, ghost lost: seq<nat>)
    requires Attaches(ModeRW, faults, ignored)
    requires faults(FdOpen(0)) == 0 && faults(FdOpen(1)) == 0 && faults(FdOpen(2)) == 0
    ensures fresh(p) && p.Holds(os')
    ensures |lost| == 3 && lost[0] != lost[1] && lost[0] != lost[2] && lost[1] != lost[2]
    ensures forall fd | fd in lost :: fd in os'.open && fd !in os.open && fd !in p.Streams()
  {
    p, os' := Running(os, faults, ignored);
    lost := [p.io, p.ioW, p.ioErr];
    os' := ExecuteAgainLoses(p, ModeRW, os', faults, ignored, 1);
  }

  /** Concretely, with every call succeeding. */
  method ExecuteTwice(os: Os) returns (p: Process, os': Os, ghost lost: seq<nat>)
    ensures fresh(p) && p.Holds(os')
    ensures |lost| == 3 && lost[0] != lost[1] && lost[0] != lost[2] && lost[1] != lost[2]
    ensures forall fd | fd in lost :: fd in os'.open && fd !in os.open && fd !in p.Streams()
  {
    var faults: Call -> int, ignored: nat -> bool := c => 0, sig => false;
    OnlySpawnCanFail(ModeRW, faults, ignored);
    p, os', lost := RunTwice(os, faults, ignored);
  }

  /** Concretely: when the second spawn fails, streams are left without a process. */
  method SecondSpawnFails(os: Os) returns (p: Process, os': Os)
    ensures fresh(p) && p.Holds(os') && p.AllStreams(ModeRW) && p.pid == 0
  {
    var none: Call -> int, faults: Call -> int := c => 0, c => if c == Spawn then 11 else 0;
    var ignored: nat -> bool := sig => false;
    OnlySpawnCanFail(ModeRW, none, ignored);
    OnlySpawnCanFail(ModeRW, faults, ignored);
    p, os' := Running(os, none, ignored);
    var spawned, attached, actions, pipes;
    os', spawned, attached, actions, pipes := p.Execute(ModeRW, os', faults, ignored, 1);
  }

  // ---------- The child's descriptors ----------

  /** A descriptor table: which of the parent's descriptors each one stands for. */
  type Table = map<int, int>

  /** A dup2 needs an open source; posix_spawnp fails otherwise. */
  predicate SourceOpen(t: Table, a: Action) {
    a.Dup2? ==> a.from in t
  }

  function Act(t: Table, a: Action): Table {
    match a
    case Dup2(from, to) => if from in t then t[to := t[from]] else t
    case CloseIn(fd) => t - {fd}
  }

  function ActFirst(t: Table, actions: seq<Action>, n: nat): Table
    requires n <= |actions|
  {
    if n == 0 then t else Act(ActFirst(t, actions, n - 1), actions[n - 1])
  }

  /** Moving a pipe end to a standard descriptor and closing the other end. */
  function Moved(t: Table, from: int, to: int, other: int): Table {
    (Act(t, Dup2(from, to)) - {from}) - {other}
  }

  lemma MovedByThree(t: Table, a: seq<Action>, i: nat, from: int, to: int, other: int)
    requires i + 3 <= |a| && a[i] == Dup2(from, to) && a[i + 1] == CloseIn(from) && a[i + 2] == CloseIn(other)
    requires from in ActFirst(t, a, i)
    ensures ActFirst(t, a, i + 3) == Moved(ActFirst(t, a, i), from, to, other)
    ensures forall k | i <= k < i + 3 :: SourceOpen(ActFirst(t, a, k), a[k])
  {
    assert ActFirst(t, a, i + 1) == Act(ActFirst(t, a, i), Dup2(from, to));
    assert ActFirst(t, a, i + 2) == ActFirst(t, a, i + 1) - {from};
  }

  /** The standard descriptors that the mode redirects. */
  function Standard(mode: Mode): set<int> {
    if mode == ModeRW then {0, 1, 2} else if mode == ModeR then {1, 2} else {0, 2}
  }

  /** The redirected standard descriptors are the child's pipe ends, and no other descriptor is one. */
  ghost predicate Wired(mode: Mode, t: Table, p: Pipes)
    requires Proper(p)
  {
    && (if mode == ModeW then 0 in t && t[0] == p.r else 1 in t && t[1] == p.w)
    && (mode == ModeRW ==> 0 in t && t[0] == p.inR)
    && 2 in t && t[2] == p.errW
    && forall fd | fd in t && t[fd] in PipeFds(p) :: fd in Standard(mode)
  }

  /** No pipe descriptor is a standard one that the actions overwrite or close again. */
  predicate Clear(mode: Mode, p: Pipes) {
    && (if mode == ModeW then p.r != 0 && p.w != 0 else p.w != 1 && p.r != 1)
    && (mode == ModeRW ==> p.inR !in {0, 1} && p.inW !in {0, 1})
    && p.errR !in Standard(mode) && p.errW !in Standard(mode)
  }

  /** The child starts with the descriptors of its parent. */
  function Inherited(open: set<nat>): Table {
    map fd: int | fd in open :: fd
  }

  /** No action fails, and the child is wired correctly exactly when the pipe descriptors are clear. */
  lemma ChildWiring(mode: Mode, open: set<nat>, p: Pipes)
    requires mode != BadMode && Proper(p) && Complete(mode, p) && PipeFds(p) <= open
    ensures var t, a := Inherited(open), WantedActions(mode, p);
            && (forall i | 0 <= i < |a| :: SourceOpen(ActFirst(t, a, i), a[i]))
            && (Wired(mode, ActFirst(t, a, |a|), p) <==> Clear(mode, p))
  {
    var t, a := Inherited(open), WantedActions(mode, p);
    if mode == ModeRW {
      MovedByThree(t, a, 0, p.w, 1, p.r);
      MovedByThree(t, a, 3, p.inR, 0, p.inW);
      MovedByThree(t, a, 6, p.errW, 2, p.errR);
      WiringRW(open, p);
    } else if mode == ModeR {
      MovedByThree(t, a, 0, p.w, 1, p.r);
      MovedByThree(t, a, 3, p.errW, 2, p.errR);
      WiringR(open, p);
    } else {
      MovedByThree(t, a, 0, p.r, 0, p.w);
      MovedByThree(t, a, 3, p.errW, 2, p.errR);
      WiringW(open, p);
    }
  }

  lemma WiringRW(open: set<nat>, p: Pipes)
    requires Proper(p) && Complete(ModeRW, p) && PipeFds(p) <= open
    ensures var t := Moved(Moved(Moved(Inherited(open), p.w, 1, p.r), p.inR, 0, p.inW), p.errW, 2, p.errR);
            Wired(ModeRW, t, p) <==> Clear(ModeRW, p)
  {
  }

  lemma WiringR(open: set<nat>, p: Pipes)
    requires Proper(p) && Complete(ModeR, p) && PipeFds(p) <= open
    ensures var t := Moved(Moved(Inherited(open), p.w, 1, p.r), p.errW, 2, p.errR);
            Wired(ModeR, t, p) <==> Clear(ModeR, p)
  {
  }

  lemma WiringW(open: set<nat>, p: Pipes)
    requires Proper(p) && Complete(ModeW, p) && PipeFds(p) <= open
    ensures var t := Moved(Moved(Inherited(open), p.r, 0, p.w), p.errW, 2, p.errR);
            Wired(ModeW, t, p) <==> Clear(ModeW, p)
  {
  }

  /** A child of a parent with the redirected standard descriptors open has them on the pipes. */
  method ExecuteWires(p: Process, mode: Mode, os: Os, faults: Call -> int, ignored: nat -> bool, newPid: nat)
    returns (os': Os, spawned: bool, actions: seq<Action>, pipes: Pipes)
    requires p.Valid() && newPid > 0 && Standard(mode) <= os.open
    modifies p
    ensures spawned ==> Proper(pipes)
    ensures spawned ==> Wired(mode, ActFirst(Inherited(os.open + PipeFds(pipes)), actions, |actions|), pipes)
  {
    var attached;
    os', spawned, attached, actions, pipes := p.Execute(mode, os, faults, ignored, newPid);
    if spawned {
      ChildWiring(mode, os.open + PipeFds(pipes), pipes);
    }
  }

  /** Concretely: a parent without descriptor 1 starts a child that has no stdout either. */
  lemma ClosedStdout()
    ensures var p := Pipes(1, 3, 4, 5, 6, 7);
            Proper(p) && 1 !in ActFirst(Inherited({0, 2} + PipeFds(p)), WantedActions(ModeRW, p), 9)
  {
    var p := Pipes(1, 3, 4, 5, 6, 7);
    var t, a := Inherited({0, 2} + PipeFds(p)), WantedActions(ModeRW, p);
    MovedByThree(t, a, 0, 3, 1, 1);
    MovedByThree(t, a, 3, 4, 0, 5);
    MovedByThree(t, a, 6, 7, 2, 6);
  }
}
