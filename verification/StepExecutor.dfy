/** The step executor: retries, skipping of non-blocking steps, and resumption, where any read or write of the steps table
    may fail. The executor never consults the step transition table; exactly when every status it writes is a legal
    successor is proved here. */
module StepExecutor {
  import opened Hsm

  datatype PlanStep = PlanStep(index: int, blocking: bool, status: StepStatus)

  /** One UPDATE of a step's status. */
  datatype Write = Write(index: int, from: StepStatus, to: StepStatus)

  /** A write, or a run of a step's command and whether it succeeded. */
  datatype Event = Wrote(write: Write) | Ran(index: int, succeeded: bool)

  /** The steps table, with the history of what was done to it and of the commands run. */
  datatype Exec = Exec(status: map<int, StepStatus>, log: seq<Event>)

  /** What one attempt meets: whether the write that marks the step running lands, whether the command then succeeds, and
      whether the write that records its outcome lands. */
  datatype Try = Try(started: bool, succeeds: bool, recorded: bool)

  /** What a call meets: each attempt, by step index and attempt number; whether the table can be read before a step; and
      whether the write that marks a step skipped lands. */
  datatype World = World(attempt: (int, nat) -> Try, readable: int -> bool, skips: int -> bool)

  /** How the attempts at a step end: one succeeded, all failed, or an error of the table cut them short. */
  datatype Ending = Succeeded | Exhausted | Aborted

  function SetStatus(e: Exec, i: int, to: StepStatus, lands: bool): Exec {
    if lands && i in e.status then Exec(e.status[i := to], e.log + [Wrote(Write(i, e.status[i], to))]) else e
  }

  /** The step is marked running, and its command is run. */
  function StartAttempt(e: Exec, i: int, succeeds: bool): Exec {
    var marked := SetStatus(e, i, StepRunning, true);
    marked.(log := marked.log + [Ran(i, succeeds)])
  }

  /** The attempt loop: `left` attempts remain, `n` is the next one's number. The write that marks a step failed is the
      one whose error is ignored. */
  function Attempt(e: Exec, i: int, left: nat, n: nat, w: World): (Exec, Ending)
    decreases left
  {
    if left == 0 then (e, Exhausted)
    else
      var t := w.attempt(i, n);
      var running := StartAttempt(e, i, t.succeeds);
      if !t.started then (e, Aborted)
      else if !t.succeeds then Attempt(SetStatus(running, i, StepFailed, t.recorded), i, left - 1, n + 1, w)
      else (SetStatus(running, i, StepDone, t.recorded), if t.recorded then Succeeded else Aborted)
  }

  predicate IsSettled(s: StepStatus) {
    s == StepDone || s == StepSkipped
  }

  predicate Settled(status: map<int, StepStatus>, i: int) {
    i in status && IsSettled(status[i])
  }

  /** The error of the write that marks a step skipped is ignored too. */
  function ExecuteStep(e: Exec, step: PlanStep, retries: nat, w: World): (Exec, bool) {
    if step.status == StepDone then (e, true)
    else if !w.readable(step.index) then (e, false)
    else if Settled(e.status, step.index) then (e, true)
    else
      var (e', ending) := Attempt(e, step.index, retries + 1, 1, w);
      if ending == Exhausted && !step.blocking then (SetStatus(e', step.index, StepSkipped, w.skips(step.index)), true)
      else (e', ending == Succeeded)
  }

  function ExecutePlan(e: Exec, plan: seq<PlanStep>, retries: nat, w: World): (Exec, bool)
    decreases |plan|
  {
    if |plan| == 0 then (e, true)
    else
      var (e', ok) := ExecuteStep(e, plan[0], retries, w);
      if ok then ExecutePlan(e', plan[1..], retries, w) else (e', false)
  }

  // ----- Histories of status writes -----

  /** `log` leads from `before` to `after`: each write starts from the stored status and never touches a settled step, and
      commands are run of steps that are stored as running. */
  ghost predicate Traced(before: map<int, StepStatus>, log: seq<Event>, after: map<int, StepStatus>)
    decreases |log|
  {
    if |log| == 0 then before == after
    else match log[0]
      case Wrote(u) => u.index in before && before[u.index] == u.from && !IsSettled(u.from) && Traced(before[u.index := u.to], log[1..], after)
      case Ran(i, _) => i in before && before[i] == StepRunning && Traced(before, log[1..], after)
  }

  /** The table after one event. */
  function Stored(before: map<int, StepStatus>, event: Event): map<int, StepStatus> {
    if event.Wrote? then before[event.write.index := event.write.to] else before
  }

  /** Each write moves along an edge of the step transition table. */
  ghost predicate Legal(log: seq<Event>) {
    forall u :: Wrote(u) in log ==> CanTransitionStep(u.from, u.to)
  }

  function RunsIn(log: seq<Event>): seq<int> {
    if |log| == 0 then [] else if log[0].Ran? then [log[0].index] + RunsIn(log[1..]) else RunsIn(log[1..])
  }

  lemma {:induction false} RunsConcat(a: seq<Event>, b: seq<Event>)
    ensures RunsIn(a + b) == RunsIn(a) + RunsIn(b)
    decreases |a|
  {
    if |a| == 0 {
      assert a + b == b;
    } else {
      assert (a + b)[0] == a[0] && (a + b)[1..] == a[1..] + b;
      RunsConcat(a[1..], b);
      assert a[0].Ran? ==> [a[0].index] + (RunsIn(a[1..]) + RunsIn(b)) == ([a[0].index] + RunsIn(a[1..])) + RunsIn(b);
    }
  }

  lemma {:induction false} TracedThrough(a: map<int, StepStatus>, w1: seq<Event>, b: map<int, StepStatus>, w2: seq<Event>, c: map<int, StepStatus>)
    requires Traced(a, w1, b) && Traced(b, w2, c)
    ensures Traced(a, w1 + w2, c)
    decreases |w1|
  {
    if |w1| == 0 {
      assert w1 + w2 == w2;
    } else {
      TracedThrough(Stored(a, w1[0]), w1[1..], b, w2, c);
      assert (w1 + w2)[1..] == w1[1..] + w2;
    }
  }

  /** What a call adds to the history: writes to unsettled steps, and commands of running ones. */
  ghost predicate Extends(e: Exec, e': Exec) {
    e.log <= e'.log && Traced(e.status, Added(e, e'), e'.status)
  }

  function Added(e: Exec, e': Exec): seq<Event>
    requires e.log <= e'.log
  {
    e'.log[|e.log|..]
  }

  function Tried(e: Exec, e': Exec): seq<int>
    requires e.log <= e'.log
  {
    RunsIn(Added(e, e'))
  }

  lemma AddedThrough(a: Exec, b: Exec, c: Exec)
    requires a.log <= b.log <= c.log
    ensures a.log <= c.log && Added(a, c) == Added(a, b) + Added(b, c) && Tried(a, c) == Tried(a, b) + Tried(b, c)
  {
    assert Added(a, c) == Added(a, b) + Added(b, c);
    RunsConcat(Added(a, b), Added(b, c));
  }

  lemma ExtendsThrough(a: Exec, b: Exec, c: Exec)
    requires Extends(a, b) && Extends(b, c)
    ensures Extends(a, c) && Added(a, c) == Added(a, b) + Added(b, c) && Tried(a, c) == Tried(a, b) + Tried(b, c)
  {
    AddedThrough(a, b, c);
    TracedThrough(a.status, Added(a, b), b.status, Added(b, c), c.status);
  }

  lemma ExtendsSelf(e: Exec)
    ensures Extends(e, e) && Added(e, e) == [] && Tried(e, e) == []
  {}

  /** One write to an unsettled step. */
  lemma OneWrite(e: Exec, i: int, to: StepStatus, lands: bool)
    requires i in e.status && !Settled(e.status, i)
    ensures var e' := SetStatus(e, i, to, lands);
            Extends(e, e') && Tried(e, e') == [] && Added(e, e') == if lands then [Wrote(Write(i, e.status[i], to))] else []
  {
    ExtendsSelf(e);
    if lands {
      var e' := SetStatus(e, i, to, true);
      assert Added(e, e') == [Wrote(Write(i, e.status[i], to))];
      assert [Wrote(Write(i, e.status[i], to))][1..] == [];
    }
  }

  /** One attempt at an unsettled step: two legal writes, or one if the second is lost. */
  lemma OneAttempt(e: Exec, i: int, succeeds: bool, lands: bool)
    requires i in e.status && !Settled(e.status, i)
    ensures var to := if succeeds then StepDone else StepFailed;
            var e' := SetStatus(StartAttempt(e, i, succeeds), i, to, lands);
            && Extends(e, e') && Legal(Added(e, e')) && Tried(e, e') == [i]
            && e'.status == e.status[i := if lands then to else StepRunning]
  {
    var running := StartAttempt(e, i, succeeds);
    StartExtends(e, i, succeeds);
    var e' := SetStatus(running, i, if succeeds then StepDone else StepFailed, lands);
    OneWrite(running, i, if succeeds then StepDone else StepFailed, lands);
    ExtendsThrough(e, running, e');
  }

  lemma StartExtends(e: Exec, i: int, succeeds: bool)
    requires i in e.status && !Settled(e.status, i)
    ensures var running := StartAttempt(e, i, succeeds);
            && Extends(e, running) && Tried(e, running) == [i]
            && Added(e, running) == [Wrote(Write(i, e.status[i], StepRunning)), Ran(i, succeeds)]
            && running.status == e.status[i := StepRunning]
  {
    var marked, running := SetStatus(e, i, StepRunning, true), StartAttempt(e, i, succeeds);
    OneWrite(e, i, StepRunning, true);
    assert Added(marked, running) == [Ran(i, succeeds)] && [Ran(i, succeeds)][1..] == [];
    assert RunsIn([Ran(i, succeeds)]) == [i] + RunsIn([]);
    ExtendsThrough(e, marked, running);
  }

  /** What is tried is one step, at most `bound` times. */
  ghost predicate TriesOnly(tries: seq<int>, i: int, bound: nat) {
    |tries| <= bound && forall j :: j in tries ==> j == i
  }

  /** An attempt loop starts from an unsettled step, makes legal writes, and tries that step and nothing else, at most
      `left` times. */
  lemma {:induction false} AttemptExtends(e: Exec, i: int, left: nat, n: nat, w: World)
    requires i in e.status && !Settled(e.status, i)
    ensures var e' := Attempt(e, i, left, n, w).0;
            Extends(e, e') && Legal(Added(e, e')) && TriesOnly(Tried(e, e'), i, left)
    decreases left
  {
    ExtendsSelf(e);
    if left > 0 && w.attempt(i, n).started {
      var t := w.attempt(i, n);
      OneAttempt(e, i, t.succeeds, t.recorded);
      if !t.succeeds {
        var e1 := SetStatus(StartAttempt(e, i, false), i, StepFailed, t.recorded);
        AttemptExtends(e1, i, left - 1, n + 1, w);
        LegalThrough(e, e1, Attempt(e1, i, left - 1, n + 1, w).0);
      }
    }
  }

  lemma LegalThrough(a: Exec, b: Exec, c: Exec)
    requires Extends(a, b) && Extends(b, c)
    ensures Extends(a, c) && Added(a, c) == Added(a, b) + Added(b, c) && Tried(a, c) == Tried(a, b) + Tried(b, c)
    ensures Legal(Added(a, c)) <==> Legal(Added(a, b)) && Legal(Added(b, c))
  {
    ExtendsThrough(a, b, c);
    forall u | u in Added(a, b) || u in Added(b, c)
      ensures u in Added(a, c)
    {}
  }

  // ----- What the attempts come to -----

  /** Attempt `n` runs and its command fails. */
  predicate Fails(w: World, i: int, n: nat) {
    w.attempt(i, n).started && !w.attempt(i, n).succeeds
  }

  /** The first attempt from `n` on that does not run and fail, or `last` when there is none before it. */
  function FirstNotFailing(w: World, i: int, n: nat, last: nat): (a: nat)
    requires n <= last
    ensures n <= a <= last && (a < last ==> !Fails(w, i, a)) && forall b: nat :: n <= b < a ==> Fails(w, i, b)
    decreases last - n
  {
    if n < last && Fails(w, i, n) then FirstNotFailing(w, i, n + 1, last) else n
  }

  /** How a step that was `from` stands once the attempts from `first` up to `n` have failed: failed, or running when the
      last of those failures went unrecorded. */
  function AfterFailures(w: World, i: int, from: StepStatus, first: nat, n: nat): StepStatus {
    if n <= first then from else if w.attempt(i, n - 1).recorded then StepFailed else StepRunning
  }

  /** Where the attempt loop ends, and how it leaves its step, read off the first attempt that does not run and fail. */
  lemma {:induction false} AttemptMeaning(e: Exec, i: int, left: nat, n: nat, w: World)
    requires i in e.status
    ensures var (e', ending) := Attempt(e, i, left, n, w);
            var a := FirstNotFailing(w, i, n, n + left);
            var t := w.attempt(i, a);
            && ending == (if a == n + left then Exhausted else if t.started && t.recorded then Succeeded else Aborted)
            && e'.status == e.status[i := if a == n + left || !t.started then AfterFailures(w, i, e.status[i], n, a)
                                          else if t.recorded then StepDone else StepRunning]
    decreases left
  {
    if left > 0 && Fails(w, i, n) {
      var failed := SetStatus(StartAttempt(e, i, false), i, StepFailed, w.attempt(i, n).recorded);
      AttemptMeaning(failed, i, left - 1, n + 1, w);
    }
  }

  /** All attempts at the step run and fail. */
  predicate FailsAll(step: PlanStep, retries: nat, w: World) {
    forall a: nat :: 1 <= a <= retries + 1 ==> Fails(w, step.index, a)
  }

  /** Some attempt at the step succeeds and is recorded, all attempts before it having failed. */
  ghost predicate SucceedsOnce(step: PlanStep, retries: nat, w: World) {
    exists a: nat :: 1 <= a <= retries + 1 && RecordsSuccess(step, w, a)
  }

  predicate RecordsSuccess(step: PlanStep, w: World, a: nat) {
    w.attempt(step.index, a) == Try(true, true, true) && forall b: nat :: 1 <= b < a ==> Fails(w, step.index, b)
  }

  /** The step, stored as `s`, is attempted when its turn comes. */
  predicate Attempted(step: PlanStep, s: StepStatus, w: World) {
    step.status != StepDone && w.readable(step.index) && !IsSettled(s)
  }

  /** A step, stored as `s`, lets the plan go on: it is done in the plan, or the table can be read and has it settled or one
      of its attempts is recorded a success or, if it is not blocking, all of them fail. */
  ghost predicate Passes(step: PlanStep, s: StepStatus, retries: nat, w: World) {
    || step.status == StepDone
    || (w.readable(step.index) && (IsSettled(s) || SucceedsOnce(step, retries, w) || (!step.blocking && FailsAll(step, retries, w))))
  }

  /** How a step's turn leaves it. */
  ghost predicate Leaves(step: PlanStep, s: StepStatus, s': StepStatus, retries: nat, w: World) {
    if !Attempted(step, s, w) then s' == s
    else if SucceedsOnce(step, retries, w) then s' == StepDone
    else if FailsAll(step, retries, w) then
      s' == if !step.blocking && w.skips(step.index) then StepSkipped
            else if w.attempt(step.index, retries + 1).recorded then StepFailed else StepRunning
    else AbortedAt(step, s, s', retries, w)
  }

  ghost predicate AbortedAt(step: PlanStep, s: StepStatus, s': StepStatus, retries: nat, w: World) {
    exists a: nat :: 1 <= a <= retries + 1 && LeftAt(step, s, s', w, a)
  }

  /** Attempt `a` is cut short after failures only: it cannot be marked running, and the step stays as the attempts before
      left it, or it succeeds without being recorded, and the step stays running. */
  ghost predicate LeftAt(step: PlanStep, s: StepStatus, s': StepStatus, w: World, a: nat) {
    var t := w.attempt(step.index, a);
    && (forall b: nat :: 1 <= b < a ==> Fails(w, step.index, b))
    && if t.started then t.succeeds && !t.recorded && s' == StepRunning else s' == AfterFailures(w, step.index, s, 1, a)
  }

  /** The write of `skipped` that the table of legal transitions does not have: the step is not blocking, all its attempts
      fail, the last `failed` is lost, and `skipped` is written over `running`. */
  ghost predicate SkipsRunning(step: PlanStep, s: StepStatus, retries: nat, w: World) {
    && Attempted(step, s, w) && !step.blocking && FailsAll(step, retries, w)
    && !w.attempt(step.index, retries + 1).recorded && w.skips(step.index)
  }

  /** The first attempt that does not run and fail decides between the three endings. */
  lemma FirstDecides(step: PlanStep, retries: nat, w: World)
    ensures var a := FirstNotFailing(w, step.index, 1, retries + 2);
            && (FailsAll(step, retries, w) <==> a == retries + 2)
            && (SucceedsOnce(step, retries, w) <==> a < retries + 2 && w.attempt(step.index, a) == Try(true, true, true))
  {
    var a := FirstNotFailing(w, step.index, 1, retries + 2);
    if SucceedsOnce(step, retries, w) {
      var b: nat :| 1 <= b <= retries + 1 && RecordsSuccess(step, w, b);
      assert !Fails(w, step.index, b);
      assert a == b;
    }
    if a < retries + 2 && w.attempt(step.index, a) == Try(true, true, true) {
      assert RecordsSuccess(step, w, a);
    }
  }

  /** How the attempts at a step of a plan end, and what they leave untouched. */
  lemma AttemptEnding(e: Exec, step: PlanStep, retries: nat, w: World)
    requires step.index in e.status
    ensures var (e', ending) := Attempt(e, step.index, retries + 1, 1, w);
            && (ending == Succeeded <==> SucceedsOnce(step, retries, w))
            && (ending == Exhausted <==> FailsAll(step, retries, w))
            && e'.status.Keys == e.status.Keys && (forall j :: j in e.status && j != step.index ==> e'.status[j] == e.status[j])
            && (ending == Exhausted ==> e'.status[step.index] == if w.attempt(step.index, retries + 1).recorded then StepFailed else StepRunning)
  {
    AttemptMeaning(e, step.index, retries + 1, 1, w);
    FirstDecides(step, retries, w);
  }

  /** How attempts that end early leave the step. */
  lemma AttemptLeaves(e: Exec, step: PlanStep, retries: nat, w: World)
    requires step.index in e.status
    ensures var (e', ending) := Attempt(e, step.index, retries + 1, 1, w);
            && step.index in e'.status
            && (ending == Succeeded ==> e'.status[step.index] == StepDone)
            && (ending == Aborted ==> AbortedAt(step, e.status[step.index], e'.status[step.index], retries, w))
  {
    var (e', ending) := Attempt(e, step.index, retries + 1, 1, w);
    var a := FirstNotFailing(w, step.index, 1, retries + 2);
    AttemptMeaning(e, step.index, retries + 1, 1, w);
    if ending == Aborted {
      assert LeftAt(step, e.status[step.index], e'.status[step.index], w, a);
    }
  }

  /** The plan goes on exactly if the step passes; the step is left as `Leaves` says, and no other row changes. */
  lemma StepMeaning(e: Exec, step: PlanStep, retries: nat, w: World)
    requires step.index in e.status
    ensures var (e', ok) := ExecuteStep(e, step, retries, w);
            && e'.status.Keys == e.status.Keys && (forall j :: j in e.status && j != step.index ==> e'.status[j] == e.status[j])
            && (ok <==> Passes(step, e.status[step.index], retries, w))
            && Leaves(step, e.status[step.index], e'.status[step.index], retries, w)
  {
    if Attempted(step, e.status[step.index], w) {
      AttemptEnding(e, step, retries, w);
      AttemptLeaves(e, step, retries, w);
    }
  }

  /** A step that is skipped after legal writes is skipped legally unless it was left running. */
  lemma SkipExtends(e: Exec, tried: Exec, i: int, bound: nat, lands: bool)
    requires Extends(e, tried) && Legal(Added(e, tried)) && TriesOnly(Tried(e, tried), i, bound)
    requires i in tried.status && (tried.status[i] == StepFailed || tried.status[i] == StepRunning)
    ensures var e' := SetStatus(tried, i, StepSkipped, lands);
            && Extends(e, e') && TriesOnly(Tried(e, e'), i, bound)
            && (Legal(Added(e, e')) <==> !(lands && tried.status[i] == StepRunning))
  {
    var e' := SetStatus(tried, i, StepSkipped, lands);
    OneWrite(tried, i, StepSkipped, lands);
    LegalThrough(e, tried, e');
    assert lands ==> Added(tried, e')[0] == Wrote(Write(i, tried.status[i], StepSkipped));
  }

  /** One step: at most retries+1 attempts, its own row only, and illegal writes exactly if it skips while running. */
  lemma StepExtends(e: Exec, step: PlanStep, retries: nat, w: World)
    requires step.index in e.status
    ensures var e' := ExecuteStep(e, step, retries, w).0;
            && Extends(e, e') && TriesOnly(Tried(e, e'), step.index, retries + 1)
            && (Legal(Added(e, e')) <==> !SkipsRunning(step, e.status[step.index], retries, w))
  {
    var i := step.index;
    if Attempted(step, e.status[i], w) {
      var (tried, ending) := Attempt(e, i, retries + 1, 1, w);
      AttemptExtends(e, i, retries + 1, 1, w);
      AttemptEnding(e, step, retries, w);
      if ending == Exhausted && !step.blocking {
        SkipExtends(e, tried, i, retries + 1, w.skips(i));
      }
    } else {
      ExtendsSelf(e);
    }
  }

  // ----- Whole plans -----

  /** The plan's steps are distinct rows of the table, and a step it has as done is stored as done: true of a plan just
      saved, and of one read back by a resume. */
  ghost predicate Consistent(plan: seq<PlanStep>, status: map<int, StepStatus>) {
    && (forall a, b :: 0 <= a < b < |plan| ==> plan[a].index != plan[b].index)
    && (forall k :: 0 <= k < |plan| ==> plan[k].index in status && (plan[k].status == StepDone ==> status[plan[k].index] == StepDone))
  }

  /** The plan comes as far as position `k`: every step before it passes. */
  ghost predicate Reached(plan: seq<PlanStep>, status: map<int, StepStatus>, retries: nat, w: World, k: nat)
    requires Consistent(plan, status) && k <= |plan|
  {
    forall j :: 0 <= j < k ==> Passes(plan[j], status[plan[j].index], retries, w)
  }

  /** How a call leaves the table, row by row: the steps it comes to are left as their own turn leaves them, and no other
      row changes. */
  ghost predicate LeavesPlan(plan: seq<PlanStep>, before: map<int, StepStatus>, after: map<int, StepStatus>, retries: nat, w: World)
    requires Consistent(plan, before)
  {
    && after.Keys == before.Keys
    && (forall j :: j in before && (forall k :: 0 <= k < |plan| ==> plan[k].index != j) ==> after[j] == before[j])
    && forall k :: 0 <= k < |plan| ==> StepLeft(plan, before, after, retries, w, k)
  }

  ghost predicate StepLeft(plan: seq<PlanStep>, before: map<int, StepStatus>, after: map<int, StepStatus>, retries: nat, w: World, k: nat)
    requires Consistent(plan, before) && k < |plan| && after.Keys == before.Keys
  {
    var i := plan[k].index;
    if Reached(plan, before, retries, w, k) then Leaves(plan[k], before[i], after[i], retries, w) else after[i] == before[i]
  }

  /** The rest of the plan, and the rows it will meet, stand as before the first step. */
  lemma RestIsUntouched(plan: seq<PlanStep>, before: map<int, StepStatus>, mid: map<int, StepStatus>)
    requires |plan| > 0 && Consistent(plan, before) && mid.Keys == before.Keys
    requires forall j :: j in before && j != plan[0].index ==> mid[j] == before[j]
    ensures Consistent(plan[1..], mid)
    ensures forall k :: 0 < k < |plan| ==> plan[1..][k - 1] == plan[k] && mid[plan[k].index] == before[plan[k].index]
  {
    forall k | 0 < k < |plan|
      ensures plan[1..][k - 1] == plan[k] && mid[plan[k].index] == before[plan[k].index]
    {
      assert plan[0].index != plan[k].index;
    }
  }

  /** Once the first step has passed, the rest comes as far as the whole plan. */
  lemma RestReaches(plan: seq<PlanStep>, before: map<int, StepStatus>, mid: map<int, StepStatus>, retries: nat, w: World, k: nat)
    requires |plan| > 0 && Consistent(plan, before) && mid.Keys == before.Keys && 0 < k <= |plan|
    requires forall j :: j in before && j != plan[0].index ==> mid[j] == before[j]
    requires Passes(plan[0], before[plan[0].index], retries, w)
    ensures Consistent(plan[1..], mid)
    ensures Reached(plan[1..], mid, retries, w, k - 1) <==> Reached(plan, before, retries, w, k)
  {
    RestIsUntouched(plan, before, mid);
    if Reached(plan[1..], mid, retries, w, k - 1) {
      forall j | 0 <= j < k
        ensures Passes(plan[j], before[plan[j].index], retries, w)
      {
        if j > 0 { assert Passes(plan[1..][j - 1], mid[plan[1..][j - 1].index], retries, w); }
      }
    }
  }

  /** A call of the executor on any table, whatever fails: it succeeds exactly when every step passes, and `LeavesPlan`
      says how it leaves the table. */
  lemma {:induction false} PlanMeaning(e: Exec, plan: seq<PlanStep>, retries: nat, w: World)
    requires Consistent(plan, e.status)
    ensures var (e', ok) := ExecutePlan(e, plan, retries, w);
            && (ok <==> Reached(plan, e.status, retries, w, |plan|))
            && LeavesPlan(plan, e.status, e'.status, retries, w)
    decreases |plan|
  {
    if |plan| > 0 {
      var (e1, ok) := ExecuteStep(e, plan[0], retries, w);
      StepMeaning(e, plan[0], retries, w);
      if ok {
        RestIsUntouched(plan, e.status, e1.status);
        RestReaches(plan, e.status, e1.status, retries, w, |plan|);
        PlanMeaning(e1, plan[1..], retries, w);
        PlanStepLeaves(plan, e.status, e1.status, ExecutePlan(e1, plan[1..], retries, w).0.status, retries, w);
      } else {
        forall k | 0 < k < |plan|
          ensures !Reached(plan, e.status, retries, w, k) && plan[k].index != plan[0].index
        {
          assert !Passes(plan[0], e.status[plan[0].index], retries, w);
        }
      }
    }
  }

  lemma PlanStepLeaves(plan: seq<PlanStep>, before: map<int, StepStatus>, mid: map<int, StepStatus>,
                       after: map<int, StepStatus>, retries: nat, w: World)
    requires |plan| > 0 && Consistent(plan, before) && mid.Keys == before.Keys
    requires forall j :: j in before && j != plan[0].index ==> mid[j] == before[j]
    requires Passes(plan[0], before[plan[0].index], retries, w) && Leaves(plan[0], before[plan[0].index], mid[plan[0].index], retries, w)
    requires Consistent(plan[1..], mid) && LeavesPlan(plan[1..], mid, after, retries, w)
    ensures LeavesPlan(plan, before, after, retries, w)
  {
    var rest := plan[1..];
    RestIsUntouched(plan, before, mid);
    forall k | 0 <= k < |plan|
      ensures StepLeft(plan, before, after, retries, w, k)
    {
      if k == 0 {
        forall j | 0 <= j < |rest| ensures rest[j].index != plan[0].index { assert rest[j] == plan[j + 1]; }
      } else {
        RestReaches(plan, before, mid, retries, w, k);
        assert StepLeft(rest, mid, after, retries, w, k - 1);
      }
    }
    forall j | j in before && (forall k :: 0 <= k < |plan| ==> plan[k].index != j)
      ensures after[j] == before[j]
    {
      assert j != plan[0].index;
      forall k | 0 <= k < |rest| ensures rest[k].index != j { assert rest[k] == plan[k + 1]; }
    }
  }

  /** The step at position `k` is reached, and skipped while the table has it running. */
  ghost predicate SkipsRunningAt(plan: seq<PlanStep>, status: map<int, StepStatus>, retries: nat, w: World, k: nat)
    requires Consistent(plan, status) && k < |plan|
  {
    Reached(plan, status, retries, w, k) && SkipsRunning(plan[k], status[plan[k].index], retries, w)
  }

  /** Past the first step the rest of the plan skips a running step exactly if the plan does. */
  lemma RestSkips(plan: seq<PlanStep>, before: map<int, StepStatus>, mid: map<int, StepStatus>, retries: nat, w: World)
    requires |plan| > 0 && Consistent(plan, before) && mid.Keys == before.Keys
    requires forall j :: j in before && j != plan[0].index ==> mid[j] == before[j]
    requires Passes(plan[0], before[plan[0].index], retries, w)
    ensures Consistent(plan[1..], mid)
    ensures (forall k :: 0 < k < |plan| ==> !SkipsRunningAt(plan, before, retries, w, k)) <==>
            (forall k :: 0 <= k < |plan[1..]| ==> !SkipsRunningAt(plan[1..], mid, retries, w, k))
  {
    RestIsUntouched(plan, before, mid);
    forall k | 0 <= k < |plan[1..]|
      ensures SkipsRunningAt(plan[1..], mid, retries, w, k) == SkipsRunningAt(plan, before, retries, w, k + 1)
    {
      RestReaches(plan, before, mid, retries, w, k + 1);
    }
    if forall k :: 0 <= k < |plan[1..]| ==> !SkipsRunningAt(plan[1..], mid, retries, w, k) {
      forall k | 0 < k < |plan| ensures !SkipsRunningAt(plan, before, retries, w, k) {
        assert !SkipsRunningAt(plan[1..], mid, retries, w, k - 1);
      }
    }
  }

  /** A call writes to unsettled steps only. Every write follows the table of legal transitions if and only if no step
      that is reached, does not block and fails all its attempts loses the write of its last failure while the write that
      skips it lands. */
  lemma {:induction false} WritesAreLegalExactly(e: Exec, plan: seq<PlanStep>, retries: nat, w: World)
    requires Consistent(plan, e.status)
    ensures var e' := ExecutePlan(e, plan, retries, w).0;
            && Extends(e, e')
            && (Legal(Added(e, e')) <==> forall k :: 0 <= k < |plan| ==> !SkipsRunningAt(plan, e.status, retries, w, k))
    decreases |plan|
  {
    if |plan| == 0 {
      ExtendsSelf(e);
    } else {
      var (e1, ok) := ExecuteStep(e, plan[0], retries, w);
      StepMeaning(e, plan[0], retries, w);
      StepExtends(e, plan[0], retries, w);
      assert SkipsRunningAt(plan, e.status, retries, w, 0) == SkipsRunning(plan[0], e.status[plan[0].index], retries, w);
      if ok {
        RestIsUntouched(plan, e.status, e1.status);
        WritesAreLegalExactly(e1, plan[1..], retries, w);
        LegalThrough(e, e1, ExecutePlan(e1, plan[1..], retries, w).0);
        RestSkips(plan, e.status, e1.status, retries, w);
      } else {
        forall k | 0 < k < |plan|
          ensures !SkipsRunningAt(plan, e.status, retries, w, k)
        {
          assert !Passes(plan[0], e.status[plan[0].index], retries, w);
        }
      }
    }
  }

  /** The illegal edge: one step that does not block, no retries, and a failure whose write is lost. */
  lemma LostFailureIsSkippedRunning() returns (plan: seq<PlanStep>, w: World)
    ensures var e := Exec(map[0 := StepPending], []);
            && Consistent(plan, e.status)
            && ExecutePlan(e, plan, 0, w).0.log == [Wrote(Write(0, StepPending, StepRunning)), Ran(0, false), Wrote(Write(0, StepRunning, StepSkipped))]
    ensures !CanTransitionStep(StepRunning, StepSkipped)
  {
    plan, w := [PlanStep(0, false, StepPending)], World((i, n) => Try(true, false, false), i => true, i => true);
    var e := Exec(map[0 := StepPending], []);
    var running := StartAttempt(e, 0, false);
    var skipped := SetStatus(running, 0, StepSkipped, true);
    assert w.attempt(0, 1) == Try(true, false, false);
    assert Attempt(e, 0, 1, 1, w) == Attempt(running, 0, 0, 2, w) == (running, Exhausted);
    assert ExecuteStep(e, plan[0], 0, w) == (skipped, true);
    assert ExecutePlan(e, plan, 0, w) == ExecutePlan(skipped, plan[1..], 0, w) == (skipped, true);
  }

  /** No step is tried more than retries+1 times, and none outside the plan. */
  lemma {:induction false} TriesAreBounded(e: Exec, plan: seq<PlanStep>, retries: nat, w: World, i: int)
    requires Consistent(plan, e.status)
    ensures var e' := ExecutePlan(e, plan, retries, w).0;
            && e.log <= e'.log
            && multiset(Tried(e, e'))[i] <= retries + 1
            && (i in Tried(e, e') ==> exists k :: 0 <= k < |plan| && plan[k].index == i)
    decreases |plan|
  {
    if |plan| > 0 {
      var (e1, ok) := ExecuteStep(e, plan[0], retries, w);
      StepMeaning(e, plan[0], retries, w);
      StepExtends(e, plan[0], retries, w);
      TriesOnlyCounts(Tried(e, e1), plan[0].index, retries + 1, i);
      if ok {
        RestIsUntouched(plan, e.status, e1.status);
        TriesAreBounded(e1, plan[1..], retries, w, i);
        TriesTogether(e, e1, ExecutePlan(e1, plan[1..], retries, w).0, i);
        if i in Tried(e1, ExecutePlan(e1, plan[1..], retries, w).0) {
          var k :| 0 <= k < |plan[1..]| && plan[1..][k].index == i;
          assert plan[k + 1].index == i && plan[0].index != plan[k + 1].index;
        }
      }
    }
  }

  lemma TriesTogether(a: Exec, b: Exec, c: Exec, i: int)
    requires a.log <= b.log <= c.log
    ensures a.log <= c.log && multiset(Tried(a, c))[i] == multiset(Tried(a, b))[i] + multiset(Tried(b, c))[i]
    ensures i in Tried(a, c) <==> i in Tried(a, b) || i in Tried(b, c)
    ensures i !in Tried(b, c) ==> multiset(Tried(b, c))[i] == 0
  {
    AddedThrough(a, b, c);
  }

  lemma TriesOnlyCounts(tries: seq<int>, i: int, bound: nat, j: int)
    requires TriesOnly(tries, i, bound)
    ensures multiset(tries)[j] <= if j == i then bound else 0
  {
    if j == i {
      assert multiset(tries)[j] <= |multiset(tries)|;
    } else {
      assert j !in tries;
    }
  }

  /** A successful call settles every step, except exactly those it should have skipped and could not mark so. */
  lemma SuccessSettlesExactly(e: Exec, plan: seq<PlanStep>, retries: nat, w: World, k: nat)
    requires Consistent(plan, e.status) && k < |plan| && ExecutePlan(e, plan, retries, w).1
    ensures Settled(ExecutePlan(e, plan, retries, w).0.status, plan[k].index) <==>
            !(Attempted(plan[k], e.status[plan[k].index], w) && FailsAll(plan[k], retries, w) && !w.skips(plan[k].index))
  {
    PlanMeaning(e, plan, retries, w);
    assert StepLeft(plan, e.status, ExecutePlan(e, plan, retries, w).0.status, retries, w, k);
    FirstDecides(plan[k], retries, w);
  }

  /** Every read and write of the table succeeds. */
  ghost predicate Reliable(w: World) {
    && (forall i :: w.readable(i) && w.skips(i))
    && forall i, n :: w.attempt(i, n).started && w.attempt(i, n).recorded
  }

  /** Position `k` failed: everything before it is settled, it is blocking and failed, everything after it is untouched. */
  ghost predicate FailedAt(plan: seq<PlanStep>, before: map<int, StepStatus>, after: map<int, StepStatus>, k: nat) {
    && k < |plan| && before.Keys == after.Keys && (forall j :: 0 <= j < |plan| ==> plan[j].index in after)
    && plan[k].blocking && after[plan[k].index] == StepFailed
    && (forall j :: 0 <= j < k ==> Settled(after, plan[j].index))
    && (forall j :: k < j < |plan| ==> after[plan[j].index] == before[plan[j].index])
  }

  lemma FirstStopping(plan: seq<PlanStep>, status: map<int, StepStatus>, retries: nat, w: World) returns (k: nat)
    requires Consistent(plan, status) && !Reached(plan, status, retries, w, |plan|)
    ensures k < |plan| && Reached(plan, status, retries, w, k) && !Passes(plan[k], status[plan[k].index], retries, w)
  {
    k := 0;
    while Passes(plan[k], status[plan[k].index], retries, w)
      invariant k < |plan| && Reached(plan, status, retries, w, k)
      decreases |plan| - k
    {
      k := k + 1;
    }
  }

  lemma ReliableStep(step: PlanStep, s: StepStatus, s': StepStatus, retries: nat, w: World)
    requires Reliable(w) && Leaves(step, s, s', retries, w) && (step.status == StepDone ==> s == StepDone)
    ensures if Passes(step, s, retries, w) then IsSettled(s') else step.blocking && s' == StepFailed
  {
    FirstDecides(step, retries, w);
  }

  /** While the table can be read and written, only commands fail: every write is legal, success settles every step, and
      failure leaves a settled prefix, one failed blocking step and an untouched suffix. */
  lemma ReliablePlan(e: Exec, plan: seq<PlanStep>, retries: nat, w: World)
    requires Consistent(plan, e.status) && Reliable(w)
    ensures var (e', ok) := ExecutePlan(e, plan, retries, w);
            && Extends(e, e') && Legal(Added(e, e'))
            && if ok then forall k :: 0 <= k < |plan| ==> Settled(e'.status, plan[k].index)
               else exists k: nat :: FailedAt(plan, e.status, e'.status, k)
  {
    var (e', ok) := ExecutePlan(e, plan, retries, w);
    WritesAreLegalExactly(e, plan, retries, w);
    PlanMeaning(e, plan, retries, w);
    var stop := |plan|;
    if !ok {
      stop := FirstStopping(plan, e.status, retries, w);
    }
    forall j | 0 <= j < |plan|
      ensures j < stop ==> Settled(e'.status, plan[j].index)
      ensures j == stop ==> plan[j].blocking && e'.status[plan[j].index] == StepFailed
      ensures j > stop ==> e'.status[plan[j].index] == e.status[plan[j].index]
    {
      assert StepLeft(plan, e.status, e'.status, retries, w, j);
      if j <= stop {
        assert Reached(plan, e.status, retries, w, j);
        ReliableStep(plan[j], e.status[plan[j].index], e'.status[plan[j].index], retries, w);
      }
    }
    if !ok {
      assert FailedAt(plan, e.status, e'.status, stop);
    }
  }

  // ----- The transition table -----

  /** A call whose reads and writes all succeed makes the move from `a` to `b`. */
  ghost predicate Makes(a: StepStatus, b: StepStatus) {
    exists status, plan, retries, w, i :: MakesIn(status, plan, retries, w, i, a, b)
  }

  ghost predicate MakesIn(status: map<int, StepStatus>, plan: seq<PlanStep>, retries: nat, w: World, i: int, a: StepStatus, b: StepStatus) {
    Consistent(plan, status) && Reliable(w) && Wrote(Write(i, a, b)) in ExecutePlan(Exec(status, []), plan, retries, w).0.log
  }

  /** A world in which every read and write succeeds and a command fails or succeeds as said. */
  ghost function Steady(succeeds: bool): World {
    World((i, n) => Try(true, succeeds, true), i => true, i => true)
  }

  /** What is logged of one step that does not block, tried once, from any status it is tried from. */
  ghost function TryLog(s: StepStatus, succeeds: bool): seq<Event> {
    [Wrote(Write(0, s, StepRunning)), Ran(0, succeeds)] +
    if succeeds then [Wrote(Write(0, StepRunning, StepDone))]
    else [Wrote(Write(0, StepRunning, StepFailed)), Wrote(Write(0, StepFailed, StepSkipped))]
  }

  lemma OneTry(s: StepStatus, succeeds: bool)
    requires !IsSettled(s)
    ensures ExecutePlan(Exec(map[0 := s], []), [PlanStep(0, false, StepPending)], 0, Steady(succeeds)).0.log == TryLog(s, succeeds)
  {
    var plan, e, w := [PlanStep(0, false, StepPending)], Exec(map[0 := s], []), Steady(succeeds);
    var to := if succeeds then StepDone else StepFailed;
    var tried := SetStatus(StartAttempt(e, 0, succeeds), 0, to, true);
    var ended := if succeeds then tried else SetStatus(tried, 0, StepSkipped, true);
    assert w.attempt(0, 1) == Try(true, succeeds, true);
    assert Attempt(e, 0, 1, 1, w) == (tried, if succeeds then Succeeded else Exhausted) by {
      assert !succeeds ==> Attempt(tried, 0, 0, 2, w) == (tried, Exhausted);
    }
    assert ExecuteStep(e, plan[0], 0, w) == (ended, true);
    assert ExecutePlan(e, plan, 0, w) == ExecutePlan(ended, plan[1..], 0, w) == (ended, true);
  }

  lemma TryMakes(s: StepStatus, succeeds: bool, a: StepStatus, b: StepStatus)
    requires !IsSettled(s) && Wrote(Write(0, a, b)) in TryLog(s, succeeds)
    ensures Makes(a, b)
  {
    OneTry(s, succeeds);
    assert MakesIn(map[0 := s], [PlanStep(0, false, StepPending)], 0, Steady(succeeds), 0, a, b);
  }

  /** Nothing is skipped that was not tried. */
  ghost predicate SkipsTried(log: seq<Event>) {
    forall u: Write :: Wrote(u) in log && u.to == StepSkipped ==> u.from != StepPending
  }

  lemma {:induction false} AttemptSkipsNone(e: Exec, i: int, left: nat, n: nat, w: World)
    requires i in e.status && !Settled(e.status, i)
    ensures var e' := Attempt(e, i, left, n, w).0;
            Extends(e, e') && forall u: Write :: Wrote(u) in Added(e, e') ==> u.to != StepSkipped
    decreases left
  {
    ExtendsSelf(e);
    if left > 0 && w.attempt(i, n).started {
      var t := w.attempt(i, n);
      OneAttempt(e, i, t.succeeds, t.recorded);
      OneAttemptWrites(e, i, t.succeeds, t.recorded);
      if !t.succeeds {
        var e1 := SetStatus(StartAttempt(e, i, false), i, StepFailed, t.recorded);
        AttemptSkipsNone(e1, i, left - 1, n + 1, w);
        ExtendsThrough(e, e1, Attempt(e1, i, left - 1, n + 1, w).0);
      }
    }
  }

  lemma OneAttemptWrites(e: Exec, i: int, succeeds: bool, lands: bool)
    requires i in e.status && !Settled(e.status, i)
    ensures var to := if succeeds then StepDone else StepFailed;
            var e' := SetStatus(StartAttempt(e, i, succeeds), i, to, lands);
            e.log <= e'.log && forall u: Write :: Wrote(u) in Added(e, e') ==> u.to != StepSkipped
  {
    var running := StartAttempt(e, i, succeeds);
    StartExtends(e, i, succeeds);
    OneWrite(running, i, if succeeds then StepDone else StepFailed, lands);
    ExtendsThrough(e, running, SetStatus(running, i, if succeeds then StepDone else StepFailed, lands));
  }

  lemma StepSkipsTried(e: Exec, step: PlanStep, retries: nat, w: World)
    requires step.index in e.status
    ensures var e' := ExecuteStep(e, step, retries, w).0; Extends(e, e') && SkipsTried(Added(e, e'))
  {
    var i := step.index;
    ExtendsSelf(e);
    if Attempted(step, e.status[i], w) {
      var (tried, ending) := Attempt(e, i, retries + 1, 1, w);
      AttemptSkipsNone(e, i, retries + 1, 1, w);
      AttemptEnding(e, step, retries, w);
      if ending == Exhausted && !step.blocking {
        OneWrite(tried, i, StepSkipped, w.skips(i));
        ExtendsThrough(e, tried, SetStatus(tried, i, StepSkipped, w.skips(i)));
      }
    }
  }

  lemma {:induction false} PlanSkipsTried(e: Exec, plan: seq<PlanStep>, retries: nat, w: World)
    requires Consistent(plan, e.status)
    ensures var e' := ExecutePlan(e, plan, retries, w).0; Extends(e, e') && SkipsTried(Added(e, e'))
    decreases |plan|
  {
    ExtendsSelf(e);
    if |plan| > 0 {
      var (e1, ok) := ExecuteStep(e, plan[0], retries, w);
      StepMeaning(e, plan[0], retries, w);
      StepSkipsTried(e, plan[0], retries, w);
      if ok {
        RestIsUntouched(plan, e.status, e1.status);
        PlanSkipsTried(e1, plan[1..], retries, w);
        ExtendsThrough(e, e1, ExecutePlan(e1, plan[1..], retries, w).0);
      }
    }
  }

  /** The transition table has the moves a call makes while the table can be read and written, and one no call makes: from pending
      to skipped. */
  lemma MovesMadeExactly(a: StepStatus, b: StepStatus)
    requires a != b
    ensures CanTransitionStep(a, b) <==> Makes(a, b) || (a == StepPending && b == StepSkipped)
    ensures !Makes(StepPending, StepSkipped)
  {
    if CanTransitionStep(a, b) && !(a == StepPending && b == StepSkipped) { MoveIsMade(a, b); }
    MadeIsLegal(a, b);
    MadeIsLegal(StepPending, StepSkipped);
  }

  lemma MoveIsMade(a: StepStatus, b: StepStatus)
    requires a != b && CanTransitionStep(a, b) && !(a == StepPending && b == StepSkipped)
    ensures Makes(a, b)
  {
    var s, succeeds := if b == StepRunning then a else StepPending, b == StepDone;
    assert TryLog(s, succeeds)[0] == Wrote(Write(0, s, StepRunning));
    assert TryLog(s, succeeds)[2] == Wrote(Write(0, StepRunning, if succeeds then StepDone else StepFailed));
    assert !succeeds ==> TryLog(s, succeeds)[3] == Wrote(Write(0, StepFailed, StepSkipped));
    TryMakes(s, succeeds, a, b);
  }

  lemma MadeIsLegal(a: StepStatus, b: StepStatus)
    ensures Makes(a, b) ==> CanTransitionStep(a, b) && !(a == StepPending && b == StepSkipped)
  {
    if Makes(a, b) {
      var status, plan, retries, w, i :| MakesIn(status, plan, retries, w, i, a, b);
      var e := Exec(status, []);
      ReliablePlan(e, plan, retries, w);
      PlanSkipsTried(e, plan, retries, w);
      assert Added(e, ExecutePlan(e, plan, retries, w).0) == ExecutePlan(e, plan, retries, w).0.log;
    }
  }

  // ----- Runs of calls, cut off anywhere -----

  predicate IsDoneWrite(event: Event, i: int) {
    event.Wrote? && event.write.index == i && event.write.to == StepDone
  }

  function DoneWrites(log: seq<Event>, i: int): nat {
    if |log| == 0 then 0 else (if IsDoneWrite(log[0], i) then 1 else 0) + DoneWrites(log[1..], i)
  }

  /** Over any history of writes to unsettled steps a step is recorded done at most once, and never again once it is settled. */
  lemma {:induction false} DoneAtMostOnce(before: map<int, StepStatus>, log: seq<Event>, after: map<int, StepStatus>, i: int)
    requires Traced(before, log, after)
    ensures DoneWrites(log, i) <= 1
    ensures Settled(before, i) ==> DoneWrites(log, i) == 0 && Settled(after, i) && after[i] == before[i]
    decreases |log|
  {
    if |log| > 0 { DoneAtMostOnce(Stored(before, log[0]), log[1..], after, i); }
  }

  lemma {:induction false} TracedPrefix(before: map<int, StepStatus>, log: seq<Event>, after: map<int, StepStatus>, k: nat)
    returns (mid: map<int, StepStatus>)
    requires Traced(before, log, after) && k <= |log|
    ensures Traced(before, log[..k], mid)
    decreases |log|
  {
    mid := before;
    if k > 0 {
      mid := TracedPrefix(Stored(before, log[0]), log[1..], after, k - 1);
      assert log[..k][1..] == log[1..][..k - 1];
    }
  }

  /** One call of Run or Resume: the plan it executes, what it meets, and after how many events a crash cut it off. */
  datatype Invocation = Invocation(plan: seq<PlanStep>, retries: nat, world: World, cut: nat)

  /** What a call gets done. */
  function LogOf(status: map<int, StepStatus>, call: Invocation): seq<Event> {
    var log := ExecutePlan(Exec(status, []), call.plan, call.retries, call.world).0.log;
    if call.cut < |log| then log[..call.cut] else log
  }

  /** A chain of calls, each starting from the table the one before left behind. */
  ghost predicate CallChain(before: map<int, StepStatus>, calls: seq<Invocation>, log: seq<Event>)
    decreases |calls|
  {
    if |calls| == 0 then log == []
    else
      Consistent(calls[0].plan, before) &&
      var first := LogOf(before, calls[0]);
      exists mid :: Traced(before, first, mid) && first <= log && CallChain(mid, calls[1..], log[|first|..])
  }

  /** The history of a call, cut off anywhere, writes to unsettled steps only; so a chain of calls can always go on. */
  lemma CallIsTraced(status: map<int, StepStatus>, call: Invocation) returns (mid: map<int, StepStatus>)
    requires Consistent(call.plan, status)
    ensures Traced(status, LogOf(status, call), mid)
  {
    var e := Exec(status, []);
    WritesAreLegalExactly(e, call.plan, call.retries, call.world);
    var e' := ExecutePlan(e, call.plan, call.retries, call.world).0;
    assert e'.log[0..] == e'.log;
    mid := TracedPrefix(status, e'.log, e'.status, |LogOf(status, call)|);
    assert e'.log[..|e'.log|] == e'.log;
  }

  /** Across any sequence of Run and Resume calls, crashed or not, and whatever reads and writes fail in them, each step is
      recorded done at most once. */
  lemma RecordedAtMostOnce(before: map<int, StepStatus>, calls: seq<Invocation>, log: seq<Event>, i: int)
    requires CallChain(before, calls, log)
    ensures DoneWrites(log, i) <= 1 && exists after :: Traced(before, log, after)
  {
    ChainIsTraced(before, calls, log);
    var after :| Traced(before, log, after);
    DoneAtMostOnce(before, log, after, i);
  }

  lemma {:induction false} ChainIsTraced(before: map<int, StepStatus>, calls: seq<Invocation>, log: seq<Event>)
    requires CallChain(before, calls, log)
    ensures exists after :: Traced(before, log, after)
    decreases |calls|
  {
    if |calls| == 0 {
      assert Traced(before, [], before);
    } else {
      var first := LogOf(before, calls[0]);
      var mid :| Traced(before, first, mid) && first <= log && CallChain(mid, calls[1..], log[|first|..]);
      ChainIsTraced(mid, calls[1..], log[|first|..]);
      TracedFrom(before, first, mid, log);
    }
  }

  lemma TracedFrom(before: map<int, StepStatus>, first: seq<Event>, mid: map<int, StepStatus>, log: seq<Event>)
    requires Traced(before, first, mid) && first <= log && exists after :: Traced(mid, log[|first|..], after)
    ensures exists after :: Traced(before, log, after)
  {
    var after :| Traced(mid, log[|first|..], after);
    TracedThrough(before, first, mid, log[|first|..], after);
    assert log == first + log[|first|..];
  }

  // ----- Commands that succeed -----

  function Successes(log: seq<Event>, i: int): nat {
    if |log| == 0 then 0 else (if log[0] == Ran(i, true) then 1 else 0) + Successes(log[1..], i)
  }

  /** Successes that are not recorded at once: the write was lost, or a crash came before it. */
  function Unrecorded(log: seq<Event>, i: int): nat {
    if |log| == 0 then 0
    else (if log[0] == Ran(i, true) && !(|log| > 1 && IsDoneWrite(log[1], i)) then 1 else 0) + Unrecorded(log[1..], i)
  }

  lemma {:induction false} SuccessesAreWritten(log: seq<Event>, i: int)
    ensures Successes(log, i) <= DoneWrites(log, i) + Unrecorded(log, i)
    decreases |log|
  {
    if |log| > 1 && log[0] == Ran(i, true) && IsDoneWrite(log[1], i) {
      SuccessesAreWritten(log[2..], i);
      assert log[1..][1..] == log[2..];
    } else if |log| > 0 {
      SuccessesAreWritten(log[1..], i);
    }
  }

  /** Across any sequence of calls, a step's command succeeds at most once, and once more for each success whose record was lost
      or cut off by a crash. */
  lemma CommandSucceedsAtMost(before: map<int, StepStatus>, calls: seq<Invocation>, log: seq<Event>, i: int)
    requires CallChain(before, calls, log)
    ensures Successes(log, i) <= 1 + Unrecorded(log, i)
  {
    RecordedAtMostOnce(before, calls, log, i);
    SuccessesAreWritten(log, i);
  }

  /** It happens: a command succeeds, its record is lost, and the next call runs it again. */
  lemma CommandSucceedsAgain() returns (calls: seq<Invocation>, log: seq<Event>)
    ensures CallChain(map[0 := StepPending], calls, log) && Successes(log, 0) == 2 && Unrecorded(log, 0) == 1
  {
    var plan := [PlanStep(0, false, StepPending)];
    var lost, kept := World((i, n) => Try(true, true, false), i => true, i => true), World((i, n) => Try(true, true, true), i => true, i => true);
    var a, b := Invocation(plan, 0, lost, 9), Invocation(plan, 0, kept, 9);
    var pending, running, done := map[0 := StepPending], map[0 := StepRunning], map[0 := StepDone];
    var first := [Wrote(Write(0, StepPending, StepRunning)), Ran(0, true)];
    var second := [Wrote(Write(0, StepRunning, StepRunning)), Ran(0, true), Wrote(Write(0, StepRunning, StepDone))];
    OneSuccess(a, pending, first, running);
    OneSuccess(b, running, second, done);
    ChainOfTwo(a, pending, first, running, b, second, done);
    calls, log := [a, b], first + second;
    CountsOfTwo(first, second);
  }

  lemma ChainOfTwo(a: Invocation, before: map<int, StepStatus>, first: seq<Event>, mid: map<int, StepStatus>,
                   b: Invocation, second: seq<Event>, after: map<int, StepStatus>)
    requires Consistent(a.plan, before) && LogOf(before, a) == first && Traced(before, first, mid)
    requires Consistent(b.plan, mid) && LogOf(mid, b) == second && Traced(mid, second, after)
    ensures CallChain(before, [a, b], first + second)
  {
    assert [a, b][1..] == [b] && [b][1..] == [] && (first + second)[|first|..] == second && second[|second|..] == [];
    assert CallChain(after, [], []);
    assert CallChain(mid, [b], second);
  }

  lemma CountsOfTwo(first: seq<Event>, second: seq<Event>)
    requires |first| == 2 && first[0].Wrote? && first[1] == Ran(0, true)
    requires |second| == 3 && second[0].Wrote? && !IsDoneWrite(second[0], 0) && second[1] == Ran(0, true) && IsDoneWrite(second[2], 0)
    ensures Successes(first + second, 0) == 2 && Unrecorded(first + second, 0) == 1
  {
    var log := first + second;
    assert log[1..][1..] == second && log[1..][0] == first[1] && log[1..][1] == second[0];
    assert second[1..][1..] == [second[2]] && [second[2]][1..] == [];
    assert Successes([second[2]], 0) == 0 && Unrecorded([second[2]], 0) == 0;
    assert Successes(second[1..], 0) == 1 && Unrecorded(second[1..], 0) == 0;
    assert Successes(second, 0) == 1 && Unrecorded(second, 0) == 0;
    assert Successes(log[1..], 0) == 2 && Unrecorded(log[1..], 0) == 1;
  }

  lemma OneSuccess(call: Invocation, before: map<int, StepStatus>, log: seq<Event>, after: map<int, StepStatus>)
    requires call.plan == [PlanStep(0, false, StepPending)] && call.retries == 0 && call.cut == 9
    requires 0 in before && !IsSettled(before[0]) && call.world.readable(0)
    requires var t := call.world.attempt(0, 1);
             && t.started && t.succeeds && after == before[0 := if t.recorded then StepDone else StepRunning]
             && log == [Wrote(Write(0, before[0], StepRunning)), Ran(0, true)] + if t.recorded then [Wrote(Write(0, StepRunning, StepDone))] else []
    ensures Consistent(call.plan, before) && LogOf(before, call) == log && Traced(before, log, after)
  {
    var e, step, t := Exec(before, []), call.plan[0], call.world.attempt(0, 1);
    var running := StartAttempt(e, 0, true);
    OneAttempt(e, 0, true, t.recorded);
    var e' := SetStatus(running, 0, StepDone, t.recorded);
    assert Attempt(e, 0, 1, 1, call.world).0 == e';
    assert ExecuteStep(e, step, 0, call.world).0 == e';
    assert ExecutePlan(e, call.plan, 0, call.world).0 == e' by { assert call.plan[1..] == []; }
    assert e'.log == log && Added(e, e') == log;
  }

  /** The steps table as the executor changes it. */
  class StepTable {
    var status: map<int, StepStatus>
    ghost var log: seq<Event>

    ghost function State(): Exec
      reads this
    {
      Exec(status, log)
    }

    constructor (status: map<int, StepStatus>)
      ensures State() == Exec(status, [])
    {
      this.status, log := status, [];
    }

    /** The error result tells whether the write landed. */
    method UpdateStepStatus(i: int, to: StepStatus, lands: bool) returns (ok: bool)
      modifies this
      ensures State() == SetStatus(old(State()), i, to, lands) && ok == lands
    {
      ok := lands;
      if lands && i in status {
        log := log + [Wrote(Write(i, status[i], to))];
        status := status[i := to];
      }
    }

    /** The attempts at one step, until one succeeds, an error of the table ends them, or there are none left. */
    method TryStep(index: int, attempts: nat, w: World) returns (ending: Ending)
      modifies this
      ensures (State(), ending) == Attempt(old(State()), index, attempts, 1, w)
    {
      ghost var start := State();
      for n := 1 to attempts + 1
        invariant Attempt(start, index, attempts, 1, w) == Attempt(State(), index, attempts + 1 - n, n, w)
      {
        var t := w.attempt(index, n);
        var ok := UpdateStepStatus(index, StepRunning, t.started);
        if !ok { return Aborted; }
        log := log + [Ran(index, t.succeeds)];
        if t.succeeds {
          ok := UpdateStepStatus(index, StepDone, t.recorded);
          return if ok then Succeeded else Aborted;
        }
        var _ := UpdateStepStatus(index, StepFailed, t.recorded);
      }
      ending := Exhausted;
    }

    /** executeSteps. */
    method ExecuteSteps(plan: seq<PlanStep>, retries: nat, w: World) returns (ok: bool)
      modifies this
      ensures (State(), ok) == ExecutePlan(old(State()), plan, retries, w)
    {
      for k := 0 to |plan|
        invariant ExecutePlan(State(), plan[k..], retries, w) == ExecutePlan(old(State()), plan, retries, w)
      {
        assert plan[k..][1..] == plan[k + 1..];
        var step := plan[k];
        if step.status != StepDone {
          if !w.readable(step.index) { return false; }
          if !(step.index in status && IsSettled(status[step.index])) {
            var ending := TryStep(step.index, retries + 1, w);
            if ending == Aborted || (ending == Exhausted && step.blocking) { return false; }
            if ending == Exhausted {
              var _ := UpdateStepStatus(step.index, StepSkipped, w.skips(step.index));
            }
          }
        }
      }
      ok := true;
    }
  }
}
