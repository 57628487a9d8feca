/**
 Coroutine bodies as they are written (asio/asio/coroutine.hpp:57-230): statements, sequences, if
 and while, with yields and forks among them.

 `Exec` says what such a body does, without reference to the flow graph it is compiled to.  The
 main result: the coroutine made of the graph completes exactly when the body ends, and has then
 executed exactly the statements that the body executes, in order.
 */
module CoroutineBodies {
  import opened Coroutine

  datatype Stmt =
    | Act(id: nat)
    | Pause(id: nat)
    | Split(id: nat)
    | Stop(yielding: bool)
    | Seq(first: Stmt, second: Stmt)
    | If(cond: nat, yes: Stmt, no: Stmt)
    | While(cond: nat, loop: Stmt)

  /** How a body goes on: past its end, out of the coroutine, or longer than was looked. */
  datatype Outcome = Went(log: seq<nat>) | Left(log: seq<nat>) | Longer

  /**
   What a statement does after `log`, looking at most `depth` iterations deep.  To the caller that
   resumes it, a yielded or forking statement is executed like any other.
   */
  function Exec(s: Stmt, cond: Conditions, log: seq<nat>, depth: nat): Outcome
    decreases depth, s
  {
    match s
    case Act(id) => Went(log + [id])
    case Pause(id) => Went(log + [id])
    case Split(id) => Went(log + [id])
    case Stop(_) => Left(log)
    case Seq(first, second) =>
      var r := Exec(first, cond, log, depth);
      if r.Went? then Exec(second, cond, r.log, depth) else r
    case If(c, yes, no) => if cond(c, log, false) then Exec(yes, cond, log, depth) else Exec(no, cond, log, depth)
    case While(c, loop) =>
      if !cond(c, log, false) then Went(log)
      else if depth == 0 then Longer
      else
        var r := Exec(loop, cond, log, depth - 1);
        if r.Went? then Exec(s, cond, r.log, depth - 1) else r
  }

  // ---------- The flow graph ----------

  function Size(s: Stmt): (n: nat)
    ensures n > 0
  {
    match s
    case Seq(first, second) => Size(first) + Size(second)
    case If(_, yes, no) => Size(yes) + Size(no) + 2
    case While(_, loop) => Size(loop) + 3
    case _ => 1
  }

  /** The statement placed at index `at`; a label is 2 more than the index of its yield or fork. */
  function Compile(s: Stmt, at: nat): (code: seq<Instr>)
    ensures |code| == Size(s)
  {
    match s
    case Act(id) => [Do(id)]
    case Pause(id) => [Yield(at + 2, id)]
    case Split(id) => [Fork(at + 2, id)]
    case Stop(yielding) => if yielding then [YieldBreak(at + 2)] else [Return]
    case Seq(first, second) => Compile(first, at) + Compile(second, at + Size(first))
    case If(c, yes, no) => IfCode(c, Compile(no, at + 1), Compile(yes, at + Size(no) + 2), at)
    case While(c, loop) => WhileCode(c, Compile(loop, at + 2), at)
  }

  function IfCode(c: nat, no: seq<Instr>, yes: seq<Instr>, at: nat): seq<Instr> {
    [Branch(c, at + |no| + 2)] + no + [Jump(at + |no| + |yes| + 2)] + yes
  }

  function WhileCode(c: nat, loop: seq<Instr>, at: nat): seq<Instr> {
    [Branch(c, at + 2), Jump(at + |loop| + 3)] + loop + [Jump(at)]
  }

  /** Labels are by place, and jumps stay within the code or go to its end. */
  ghost predicate Placed(i: Instr, index: nat, end: nat) {
    && (HasLabel(i) ==> i.lbl == index + 2)
    && (i.Jump? || i.Branch? ==> i.target <= end)
  }

  ghost predicate AllPlaced(code: seq<Instr>, at: nat, end: nat) {
    forall k | 0 <= k < |code| :: Placed(code[k], at + k, end)
  }

  lemma PlacedConcat(a: seq<Instr>, b: seq<Instr>, at: nat, end: nat)
    requires AllPlaced(a, at, end) && AllPlaced(b, at + |a|, end)
    ensures AllPlaced(a + b, at, end)
  {
    forall k | 0 <= k < |a + b| ensures Placed((a + b)[k], at + k, end) {
      if k >= |a| {
        assert Placed(b[k - |a|], at + |a| + (k - |a|), end);
      }
    }
  }

  lemma IfPlaced(c: nat, no: seq<Instr>, yes: seq<Instr>, at: nat, end: nat)
    requires at + |no| + |yes| + 2 <= end
    requires AllPlaced(no, at + 1, end) && AllPlaced(yes, at + |no| + 2, end)
    ensures AllPlaced(IfCode(c, no, yes, at), at, end)
  {
    var branch, jump := [Branch(c, at + |no| + 2)], [Jump(at + |no| + |yes| + 2)];
    PlacedConcat(branch, no, at, end);
    PlacedConcat(branch + no, jump, at, end);
    PlacedConcat(branch + no + jump, yes, at, end);
  }

  lemma WhilePlaced(c: nat, loop: seq<Instr>, at: nat, end: nat)
    requires at + |loop| + 3 <= end && AllPlaced(loop, at + 2, end)
    ensures AllPlaced(WhileCode(c, loop, at), at, end)
  {
    var head := [Branch(c, at + 2), Jump(at + |loop| + 3)];
    PlacedConcat(head, loop, at, end);
    PlacedConcat(head + loop, [Jump(at)], at, end);
  }

  lemma {:induction false} CompilePlaced(s: Stmt, at: nat, end: nat)
    requires at + Size(s) <= end
    ensures AllPlaced(Compile(s, at), at, end)
    decreases s, 1
  {
    if s.Seq? {
      SeqPlaced(s, at, end);
    } else if s.If? {
      CompilePlaced(s.no, at + 1, end);
      CompilePlaced(s.yes, at + Size(s.no) + 2, end);
      IfPlaced(s.cond, Compile(s.no, at + 1), Compile(s.yes, at + Size(s.no) + 2), at, end);
    } else if s.While? {
      CompilePlaced(s.loop, at + 2, end);
      WhilePlaced(s.cond, Compile(s.loop, at + 2), at, end);
    } else {
      assert |Compile(s, at)| == 1 && Placed(Compile(s, at)[0], at, end);
    }
  }

  lemma {:induction false} SeqPlaced(s: Stmt, at: nat, end: nat)
    requires s.Seq? && at + Size(s) <= end
    ensures AllPlaced(Compile(s, at), at, end)
    decreases s, 0
  {
    CompilePlaced(s.first, at, end);
    CompilePlaced(s.second, at + Size(s.first), end);
    PlacedConcat(Compile(s.first, at), Compile(s.second, at + Size(s.first)), at, end);
  }

  lemma CompileWellFormed(s: Stmt)
    ensures WellFormed(Compile(s, 0))
  {
    CompilePlaced(s, 0, Size(s));
    var body := Compile(s, 0);
    assert forall k | 0 <= k < |body| :: Placed(body[k], k, Size(s));
  }

  // ---------- The graph does what the statement does ----------

  /** The code lies in the body at index `at`. */
  ghost predicate Within(body: seq<Instr>, at: nat, code: seq<Instr>) {
    at + |code| <= |body| && forall i | 0 <= i < |code| :: body[at + i] == code[i]
  }

  lemma WithinParts(body: seq<Instr>, at: nat, a: seq<Instr>, b: seq<Instr>)
    requires Within(body, at, a + b)
    ensures Within(body, at, a) && Within(body, at + |a|, b)
  {
    forall i | 0 <= i < |a| ensures body[at + i] == a[i] {
      assert (a + b)[i] == a[i];
    }
    forall i | 0 <= i < |b| ensures body[at + |a| + i] == b[i] {
      assert (a + b)[|a| + i] == b[i];
    }
  }

  /** After `k` steps from index `at` the graph is where the outcome says; `Longer` takes `depth` steps or more. */
  ghost predicate Reaches(body: seq<Instr>, cond: Conditions, at: nat, log: seq<nat>, k: nat,
                          end: nat, r: Outcome, depth: nat)
  {
    var f := FlatSteps(body, cond, Running(at, false, log), k);
    match r
    case Went(l) => f == Running(end, false, l)
    case Left(l) => f == Done(l)
    case Longer => k >= depth && f.Running?
  }

  /** First `j` steps to another place, then `k` from there. */
  lemma Then(body: seq<Instr>, cond: Conditions, at: nat, log: seq<nat>, j: nat, at': nat, log': seq<nat>,
             k: nat, end: nat, r: Outcome, depth: nat, depth': nat)
    requires Reaches(body, cond, at, log, j, at', Went(log'), depth)
    requires Reaches(body, cond, at', log', k, end, r, depth') && depth <= j + depth'
    ensures Reaches(body, cond, at, log, j + k, end, r, depth)
  {
    FlatChain(body, cond, Running(at, false, log), j, k);
  }

  lemma {:induction false} ExecRuns(body: seq<Instr>, s: Stmt, at: nat, cond: Conditions, log: seq<nat>, depth: nat)
    returns (k: nat)
    requires Within(body, at, Compile(s, at))
    ensures Reaches(body, cond, at, log, k, at + Size(s), Exec(s, cond, log, depth), depth)
    decreases depth, s
  {
    match s
    case Seq(first, second) => k := SeqRuns(body, s, at, cond, log, depth);
    case If(_, _, _) => k := IfRuns(body, s, at, cond, log, depth);
    case While(_, _) => k := WhileRuns(body, s, at, cond, log, depth);
    case _ =>
      assert body[at + 0] == Compile(s, at)[0];
      k := 1;
      assert FlatSteps(body, cond, Running(at, false, log), 1) == FlatStep(body, cond, Running(at, false, log));
  }

  lemma {:induction false} SeqRuns(body: seq<Instr>, s: Stmt, at: nat, cond: Conditions, log: seq<nat>, depth: nat)
    returns (k: nat)
    requires s.Seq? && Within(body, at, Compile(s, at))
    ensures Reaches(body, cond, at, log, k, at + Size(s), Exec(s, cond, log, depth), depth)
    decreases depth, s, 0
  {
    WithinParts(body, at, Compile(s.first, at), Compile(s.second, at + Size(s.first)));
    k := ExecRuns(body, s.first, at, cond, log, depth);
    var r := Exec(s.first, cond, log, depth);
    if r.Went? {
      var mid := at + Size(s.first);
      var j := ExecRuns(body, s.second, mid, cond, r.log, depth);
      Then(body, cond, at, log, k, mid, r.log, j, at + Size(s), Exec(s, cond, log, depth), depth, depth);
      k := k + j;
    }
  }

  /** A jump or branch at `at` that goes to `to`. */
  lemma Goes(body: seq<Instr>, cond: Conditions, at: nat, log: seq<nat>, to: nat, depth: nat)
    requires at < |body|
    requires body[at] == Jump(to) ||
             (body[at].Branch? && to == if cond(body[at].cond, log, false) then body[at].target else at + 1)
    ensures Reaches(body, cond, at, log, 1, to, Went(log), depth)
  {
    assert FlatSteps(body, cond, Running(at, false, log), 1) == FlatStep(body, cond, Running(at, false, log));
  }

  lemma {:induction false} IfRuns(body: seq<Instr>, s: Stmt, at: nat, cond: Conditions, log: seq<nat>, depth: nat)
    returns (k: nat)
    requires s.If? && Within(body, at, Compile(s, at))
    ensures Reaches(body, cond, at, log, k, at + Size(s), Exec(s, cond, log, depth), depth)
    decreases depth, s, 0
  {
    var no, yes, end := at + 1, at + Size(s.no) + 2, at + Size(s);
    IfParts(body, s, at);
    var r := Exec(s, cond, log, depth);
    if cond(s.cond, log, false) {
      k := ExecRuns(body, s.yes, yes, cond, log, depth);
      Goes(body, cond, at, log, yes, depth);
      Then(body, cond, at, log, 1, yes, log, k, end, r, depth, depth);
    } else {
      k := ExecRuns(body, s.no, no, cond, log, depth);
      if r.Went? {
        Goes(body, cond, yes - 1, r.log, end, depth);
        Then(body, cond, no, log, k, yes - 1, r.log, 1, end, r, depth, depth);
        k := k + 1;
      }
      Goes(body, cond, at, log, no, depth);
      Then(body, cond, at, log, 1, no, log, k, end, r, depth, depth);
    }
    k := 1 + k;
  }

  lemma IfParts(body: seq<Instr>, s: Stmt, at: nat)
    requires s.If? && Within(body, at, Compile(s, at))
    ensures at + Size(s) <= |body| && body[at] == Branch(s.cond, at + Size(s.no) + 2)
    ensures Within(body, at + 1, Compile(s.no, at + 1))
    ensures body[at + Size(s.no) + 1] == Jump(at + Size(s))
    ensures Within(body, at + Size(s.no) + 2, Compile(s.yes, at + Size(s.no) + 2))
  {
    var branch, no := [Branch(s.cond, at + Size(s.no) + 2)], Compile(s.no, at + 1);
    var jump, yes := [Jump(at + Size(s))], Compile(s.yes, at + Size(s.no) + 2);
    WithinParts(body, at, branch + no + jump, yes);
    WithinParts(body, at, branch + no, jump);
    WithinParts(body, at, branch, no);
    assert body[at + 0] == branch[0] && body[at + |branch + no| + 0] == jump[0];
  }

  lemma {:induction false} WhileRuns(body: seq<Instr>, s: Stmt, at: nat, cond: Conditions, log: seq<nat>, depth: nat)
    returns (k: nat)
    requires s.While? && Within(body, at, Compile(s, at))
    ensures Reaches(body, cond, at, log, k, at + Size(s), Exec(s, cond, log, depth), depth)
    decreases depth, s, 0
  {
    var end, r := at + Size(s), Exec(s, cond, log, depth);
    WhileParts(body, s, at);
    if !cond(s.cond, log, false) {
      Goes(body, cond, at, log, at + 1, depth);
      Goes(body, cond, at + 1, log, end, depth);
      Then(body, cond, at, log, 1, at + 1, log, 1, end, r, depth, depth);
      k := 2;
    } else if depth == 0 {
      k := 0;
    } else {
      var once := Exec(s.loop, cond, log, depth - 1);
      k := ExecRuns(body, s.loop, at + 2, cond, log, depth - 1);
      if once.Went? {
        var j := ExecRuns(body, s, at, cond, once.log, depth - 1);
        Goes(body, cond, end - 1, once.log, at, depth - 1);
        Then(body, cond, end - 1, once.log, 1, at, once.log, j, end, r, depth - 1, depth - 1);
        Then(body, cond, at + 2, log, k, end - 1, once.log, 1 + j, end, r, depth - 1, depth - 1);
        k := k + (1 + j);
      }
      Goes(body, cond, at, log, at + 2, depth);
      Then(body, cond, at, log, 1, at + 2, log, k, end, r, depth, depth - 1);
      k := 1 + k;
    }
  }

  lemma WhileParts(body: seq<Instr>, s: Stmt, at: nat)
    requires s.While? && Within(body, at, Compile(s, at))
    ensures at + Size(s) <= |body| && body[at] == Branch(s.cond, at + 2) && body[at + 1] == Jump(at + Size(s))
    ensures Within(body, at + 2, Compile(s.loop, at + 2))
    ensures body[at + Size(s) - 1] == Jump(at)
  {
    var head, loop, back := [Branch(s.cond, at + 2), Jump(at + Size(s))], Compile(s.loop, at + 2), [Jump(at)];
    WithinParts(body, at, head + loop, back);
    WithinParts(body, at, head, loop);
    assert body[at + 0] == head[0] && body[at + 1] == head[1] && body[at + |head + loop| + 0] == back[0];
  }

  /** The statement, past its end or by leaving, ends with this log. */
  ghost predicate EndsWithin(s: Stmt, cond: Conditions, log: seq<nat>, depth: nat) {
    Exec(s, cond, [], depth) == Went(log) || Exec(s, cond, [], depth) == Left(log)
  }

  ghost predicate Ends(s: Stmt, cond: Conditions, log: seq<nat>) {
    exists depth: nat :: EndsWithin(s, cond, log, depth)
  }

  /** The graph ends with a log exactly when the statement does. */
  lemma GraphEnds(s: Stmt, cond: Conditions, log: seq<nat>)
    ensures FlatEnds(Compile(s, 0), cond, Running(0, false, []), log) <==> Ends(s, cond, log)
  {
    var body, start := Compile(s, 0), Running(0, false, []);
    if depth: nat :| EndsWithin(s, cond, log, depth) {
      var k := GraphEndsWith(s, cond, depth);
      assert FlatSteps(body, cond, start, k) == Done(log);
    }
    if j: nat :| FlatSteps(body, cond, start, j) == Done(log) {
      var k := GraphEndsWith(s, cond, j + 1);
      if k < j {
        assert Exec(s, cond, [], j + 1) != Longer;
        FlatStaysDone(body, cond, start, k, j);
      } else {
        FlatStaysDone(body, cond, start, j, k);
      }
      assert EndsWithin(s, cond, log, j + 1);
    }
  }

  /** A statement that ends takes the graph to the end, with its log; one that is longer keeps it running. */
  lemma GraphEndsWith(s: Stmt, cond: Conditions, depth: nat) returns (k: nat)
    ensures var f := FlatSteps(Compile(s, 0), cond, Running(0, false, []), k);
            match Exec(s, cond, [], depth)
            case Went(log) => f == Done(log)
            case Left(log) => f == Done(log)
            case Longer => f.Running? && k >= depth
  {
    var body, start := Compile(s, 0), Running(0, false, []);
    k := ExecRuns(body, s, 0, cond, [], depth);
    if Exec(s, cond, [], depth).Went? {
      k := k + 1;
      assert FlatSteps(body, cond, start, k) == FlatStep(body, cond, FlatSteps(body, cond, start, k - 1));
    }
  }

  /**
   The coroutine made of a body, entered again and again, completes exactly when the body ends, and
   its log is then what the body executes: no statement is skipped, repeated or reordered by any
   of the yields and forks.
   */
  lemma CoroutineRunsBody(s: Stmt, cond: Conditions, log: seq<nat>)
    ensures Completes(Compile(s, 0), cond, Outside(0, []), log) <==> Ends(s, cond, log)
  {
    CompileWellFormed(s);
    CompletesTogether(Compile(s, 0), cond, Outside(0, []), log);
    GraphEnds(s, cond, log);
  }

  // ---------- Straight-line bodies ----------

  /** Only statements and yields. */
  ghost predicate Straight(body: seq<Instr>) {
    forall i | 0 <= i < |body| :: body[i].Do? || body[i].Yield?
  }

  /** The statements of a straight-line body, in order. */
  function Ids(body: seq<Instr>, n: nat): (ids: seq<nat>)
    requires n <= |body| && forall i | 0 <= i < n :: body[i].Do? || body[i].Yield?
    ensures |ids| == n && forall i | 0 <= i < n :: ids[i] == body[i].id
  {
    if n == 0 then [] else Ids(body, n - 1) + [body[n - 1].id]
  }

  lemma {:induction false} StraightSteps(body: seq<Instr>, cond: Conditions, i: nat)
    requires Straight(body) && i <= |body|
    ensures FlatSteps(body, cond, Running(0, false, []), i) == Running(i, false, Ids(body, i))
  {
    if i > 0 {
      StraightSteps(body, cond, i - 1);
    }
  }

  /** Re-entry ends at -1 and has executed every statement once, in order. */
  lemma StraightRuns(body: seq<Instr>, cond: Conditions)
    requires Straight(body) && WellFormed(body)
    ensures Completes(body, cond, Outside(0, []), Ids(body, |body|))
  {
    StraightSteps(body, cond, |body|);
    assert FlatSteps(body, cond, Running(0, false, []), |body| + 1) == Done(Ids(body, |body|));
    assert FlatEnds(body, cond, Running(0, false, []), Ids(body, |body|));
    CompletesTogether(body, cond, Outside(0, []), Ids(body, |body|));
  }
}
