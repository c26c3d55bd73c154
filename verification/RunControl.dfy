/** The run lifecycle: every operation that moves a run's status, the bootstrap gate among them, with crashes anywhere.
    The operations are shown to write legal edges of the transition table only. */
module RunControl {
  import opened Hsm
  import S = ControlSignals

  // ----- The bootstrap gate -----

  datatype Agent = Agent(name: string, failed: bool)

  predicate AnyFailed(agents: seq<Agent>) {
    exists i :: 0 <= i < |agents| && agents[i].failed
  }

  predicate AnyPending(agents: seq<Agent>, states: map<string, S.AgentState>) {
    exists i :: 0 <= i < |agents| && agents[i].name in states && states[agents[i].name].pending
  }

  predicate AllComplete(agents: seq<Agent>, states: map<string, S.AgentState>) {
    |agents| > 0 && forall i :: 0 <= i < |agents| ==>
      agents[i].name in states && states[agents[i].name].completed && states[agents[i].name].validation == S.Passed
  }

  /** The statuses syncBootstrapSignals writes, in order. */
  function SyncPath(status: RunStatus, agents: seq<Agent>, states: map<string, S.AgentState>): seq<RunStatus> {
    if status != Running && status != AwaitingGuidance then []
    else if AnyFailed(agents) then [Failed]
    else
      var pending, complete := AnyPending(agents, states), AllComplete(agents, states);
      if status == Running && pending then [AwaitingGuidance]
      else if status == AwaitingGuidance && !pending && !complete then [Running]
      else if !pending && complete then (if status == Running then [Complete] else [Running, Complete])
      else []
  }

  function LastOf(status: RunStatus, path: seq<RunStatus>): RunStatus {
    if |path| == 0 then status else path[|path| - 1]
  }

  function Sync(status: RunStatus, agents: seq<Agent>, states: map<string, S.AgentState>): RunStatus {
    LastOf(status, SyncPath(status, agents, states))
  }

  /** Where a run belongs, told from the agents' control threads alone. */
  ghost function Verdict(runId: string, agents: seq<Agent>, threads: map<string, seq<S.Post>>): RunStatus
    requires forall i :: 0 <= i < |agents| ==> agents[i].name in threads
  {
    if exists i :: 0 <= i < |agents| && S.Unanswered(threads[agents[i].name], runId, agents[i].name) then AwaitingGuidance
    else if |agents| > 0 && forall i :: 0 <= i < |agents| ==>
              S.Completed(threads[agents[i].name], runId, agents[i].name) &&
              S.LastValidationPassed(threads[agents[i].name], runId, agents[i].name) then Complete
    else Running
  }

  /** `states` are the folds of the agents' threads. */
  predicate Folded(runId: string, agents: seq<Agent>, threads: map<string, seq<S.Post>>, states: map<string, S.AgentState>)
    requires forall i :: 0 <= i < |agents| ==> agents[i].name in threads
  {
    forall i :: 0 <= i < |agents| ==> agents[i].name in states && states[agents[i].name] == S.Fold(threads[agents[i].name], runId, agents[i].name)
  }

  lemma FoldedMeaning(runId: string, agents: seq<Agent>, threads: map<string, seq<S.Post>>, states: map<string, S.AgentState>)
    requires (forall i :: 0 <= i < |agents| ==> agents[i].name in threads) && Folded(runId, agents, threads, states)
    ensures AnyPending(agents, states) <==> Verdict(runId, agents, threads) == AwaitingGuidance
    ensures !AnyPending(agents, states) ==> (AllComplete(agents, states) <==> Verdict(runId, agents, threads) == Complete)
  {
    forall i | 0 <= i < |agents|
      ensures states[agents[i].name].pending <==> S.Unanswered(threads[agents[i].name], runId, agents[i].name)
      ensures states[agents[i].name].completed <==> S.Completed(threads[agents[i].name], runId, agents[i].name)
      ensures states[agents[i].name].validation == S.Passed <==> S.LastValidationPassed(threads[agents[i].name], runId, agents[i].name)
    {
      S.PendingMeansUnanswered(threads[agents[i].name], runId, agents[i].name);
      S.CompletedMeans(threads[agents[i].name], runId, agents[i].name);
      S.PassedMeans(threads[agents[i].name], runId, agents[i].name);
    }
  }

  /** From running or awaiting guidance, with no failed agent, the gate lands where the control threads say, by legal edges,
      and a second look changes nothing. */
  lemma GateDecidesBySignals(status: RunStatus, runId: string, agents: seq<Agent>, threads: map<string, seq<S.Post>>, states: map<string, S.AgentState>)
    requires status == Running || status == AwaitingGuidance
    requires !AnyFailed(agents)
    requires (forall i :: 0 <= i < |agents| ==> agents[i].name in threads) && Folded(runId, agents, threads, states)
    ensures Sync(status, agents, states) == Verdict(runId, agents, threads)
    ensures SyncPath(Sync(status, agents, states), agents, states) == []
    ensures LegalPath(status, SyncPath(status, agents, states))
  {
    FoldedMeaning(runId, agents, threads, states);
  }

  // ----- What the gate does not see -----

  /** The threads as the store lists them. */
  function Windows(threads: map<string, seq<S.Post>>): map<string, seq<S.Post>> {
    map name | name in threads :: S.Window(threads[name])
  }

  /** Some agent asks for guidance, or after the posts beyond its window still or newly does. */
  ghost predicate SomeAsks(runId: string, agents: seq<Agent>, threads: map<string, seq<S.Post>>, late: bool)
    requires forall i :: 0 <= i < |agents| ==> agents[i].name in threads
  {
    exists i :: 0 <= i < |agents| && Asks(threads[agents[i].name], runId, agents[i].name, late)
  }

  ghost predicate Asks(posts: seq<S.Post>, runId: string, agent: string, late: bool) {
    var seen := S.Unanswered(S.Window(posts), runId, agent);
    if late then S.Or(S.LastGuidance(S.Beyond(posts), runId, agent), seen) else seen
  }

  /** Every agent has completed and validated, within its window or by what comes after it. */
  ghost predicate AllDone(runId: string, agents: seq<Agent>, threads: map<string, seq<S.Post>>, late: bool)
    requires forall i :: 0 <= i < |agents| ==> agents[i].name in threads
  {
    |agents| > 0 && forall i :: 0 <= i < |agents| ==> IsDone(threads[agents[i].name], runId, agents[i].name, late)
  }

  ghost predicate IsDone(posts: seq<S.Post>, runId: string, agent: string, late: bool) {
    var completed, passed := S.Completed(S.Window(posts), runId, agent), S.LastValidationPassed(S.Window(posts), runId, agent);
    if late then
      && (completed || S.Completed(S.Beyond(posts), runId, agent))
      && S.Or(S.LastValidation(S.Beyond(posts), runId, agent), passed)
    else completed && passed
  }

  /** The gate decides from the windows. It decides as the whole threads would exactly when the posts beyond them do not
      change whether some agent asks for guidance, nor, if none does, whether all agents are done. */
  lemma GateWindowExactly(runId: string, agents: seq<Agent>, threads: map<string, seq<S.Post>>)
    requires forall i :: 0 <= i < |agents| ==> agents[i].name in threads
    ensures Verdict(runId, agents, Windows(threads)) == Verdict(runId, agents, threads) <==>
            && (SomeAsks(runId, agents, threads, false) <==> SomeAsks(runId, agents, threads, true))
            && (SomeAsks(runId, agents, threads, false) || (AllDone(runId, agents, threads, false) <==> AllDone(runId, agents, threads, true)))
  {
    forall i | 0 <= i < |agents|
      ensures S.Unanswered(threads[agents[i].name], runId, agents[i].name) == Asks(threads[agents[i].name], runId, agents[i].name, true)
      ensures S.Unanswered(Windows(threads)[agents[i].name], runId, agents[i].name) == Asks(threads[agents[i].name], runId, agents[i].name, false)
      ensures (S.Completed(threads[agents[i].name], runId, agents[i].name) && S.LastValidationPassed(threads[agents[i].name], runId, agents[i].name)) ==
              IsDone(threads[agents[i].name], runId, agents[i].name, true)
      ensures (S.Completed(Windows(threads)[agents[i].name], runId, agents[i].name) &&
               S.LastValidationPassed(Windows(threads)[agents[i].name], runId, agents[i].name)) ==
              IsDone(threads[agents[i].name], runId, agents[i].name, false)
    {
      S.WholeThread(threads[agents[i].name], runId, agents[i].name);
    }
  }

  /** A run whose only agent is done within its first thousand posts and asks for guidance after them is completed. */
  lemma GateMissesLateRequest(runId: string, agent: string, posts: seq<S.Post>, question: string, states: map<string, S.AgentState>)
    requires |posts| == 1000 && S.Completed(posts, runId, agent) && S.LastValidationPassed(posts, runId, agent)
    requires !S.Unanswered(posts, runId, agent)
    requires Folded(runId, [Agent(agent, false)], map[agent := posts], states)
    ensures var agents, all := [Agent(agent, false)], posts + [S.Control(runId, agent, S.GuidanceRequest(question))];
            && Folded(runId, agents, Windows(map[agent := all]), states)
            && Sync(Running, agents, states) == Complete
            && Verdict(runId, agents, map[agent := all]) == AwaitingGuidance
  {
    var agents, all := [Agent(agent, false)], posts + [S.Control(runId, agent, S.GuidanceRequest(question))];
    assert S.Window(all) == posts;
    S.PendingMeansUnanswered(posts, runId, agent);
    S.LateRequestUnseen(posts, runId, agent, question);
    assert S.Unanswered(map[agent := all][agents[0].name], runId, agents[0].name);
    GateDecidesBySignals(Running, runId, agents, map[agent := posts], states);
    assert !S.Unanswered(map[agent := posts][agents[0].name], runId, agents[0].name);
  }

  // ----- Operations -----

  /** An operation on a run, with what the outside world answers: commands, checks, the fold, and user input. */
  datatype Op =
    | Execute(dryRun: bool, planSaved: bool, stepsOk: bool, bootstrap: bool)
    | Resume(stepsOk: bool, bootstrap: bool)
    | Stop(agentsRead: bool)
    | Restart(dryRun: bool, anyAgent: bool)
    | Cleanup(dryRun: bool, deleted: bool)
    | Guide(answered: bool)
    | Close(checksOk: bool, commandsOk: bool, dryRun: bool)
    | SyncSignals(agents: seq<Agent>, states: map<string, S.AgentState>)

  /** The statuses an operation writes. */
  function PathOf(status: RunStatus, op: Op): seq<RunStatus> {
    match op
    case Execute(dryRun, planSaved, stepsOk, bootstrap) =>
      if status != Created then []
      else if !planSaved then [Planning]
      else if dryRun then [Planning, Paused]
      else if !stepsOk then [Planning, Running, Failed]
      else if bootstrap then [Planning, Running]
      else [Planning, Running, Complete]
    case Resume(stepsOk, bootstrap) =>
      if !CanTransitionRun(status, Running) then []
      else if !stepsOk then [Running, Failed]
      else if bootstrap then [Running]
      else [Running, Complete]
    case Stop(agentsRead) =>
      if !CanTransitionRun(status, Stopping) then [] else if agentsRead then [Stopping, Stopped] else [Stopping]
    case Restart(dryRun, anyAgent) =>
      if status == Closed || !anyAgent || dryRun then []
      else if status != Running && CanTransitionRun(status, Running) then [Running]
      else []
    case Cleanup(dryRun, deleted) =>
      if dryRun || !deleted then []
      else if status != Stopped && CanTransitionRun(status, Stopping) then [Stopping, Stopped]
      else []
    case Guide(answered) => if status == AwaitingGuidance && answered then [Running] else []
    case Close(checksOk, commandsOk, dryRun) =>
      if status != Complete || !checksOk then []
      else if dryRun || commandsOk then [Closing, Closed]
      else [Closing, Failed]
    case SyncSignals(agents, states) => SyncPath(status, agents, states)
  }

  /** Each status of `path` follows from the one before it, the first from `status`. */
  predicate LegalPath(status: RunStatus, path: seq<RunStatus>) {
    forall i :: 0 <= i < |path| ==> LegalAt(status, path, i)
  }

  predicate LegalAt(status: RunStatus, path: seq<RunStatus>, i: int)
    requires 0 <= i < |path|
  {
    CanTransitionRun(if i == 0 then status else path[i - 1], path[i])
  }

  lemma OperationsAreLegal(status: RunStatus, op: Op)
    ensures LegalPath(status, PathOf(status, op))
  {
  }

  // ----- Where operations end -----

  /** Where the steps of a run can be run again. */
  const RESUMABLE := {Planning, Running, AwaitingGuidance, Paused, Failed, Stopped, Complete}

  /** Where a run can be stopped. */
  const STOPPABLE := {Planning, Running, AwaitingGuidance, Paused, Failed, Stopping}

  /** Each operation writes something only where it applies, and where it then ends tells its outcome. */
  lemma OutcomeExactly(status: RunStatus, op: Op)
    ensures var path, end := PathOf(status, op), LastOf(status, PathOf(status, op));
            match op
            case Execute(dryRun, planSaved, stepsOk, bootstrap) =>
              && (path != [] <==> status == Created)
              && (status == Created ==>
                    && (end == Planning <==> !planSaved) && (end == Paused <==> planSaved && dryRun)
                    && (end == Failed <==> planSaved && !dryRun && !stepsOk)
                    && (end == Running <==> planSaved && !dryRun && stepsOk && bootstrap)
                    && (end == Complete <==> planSaved && !dryRun && stepsOk && !bootstrap))
            case Resume(stepsOk, bootstrap) =>
              && (path != [] <==> status in RESUMABLE)
              && (status in RESUMABLE ==>
                    && (end == Failed <==> !stepsOk) && (end == Running <==> stepsOk && bootstrap)
                    && (end == Complete <==> stepsOk && !bootstrap))
            case Stop(agentsRead) =>
              && (path != [] <==> status in STOPPABLE)
              && (status in STOPPABLE ==> (end == Stopped <==> agentsRead) && (end == Stopping <==> !agentsRead))
            case Restart(dryRun, anyAgent) =>
              && (path != [] <==> status in RESUMABLE && status != Running && anyAgent && !dryRun)
              && (path != [] ==> end == Running)
            case Cleanup(dryRun, deleted) =>
              && (path != [] <==> status in STOPPABLE && deleted && !dryRun)
              && (path != [] ==> end == Stopped)
            case Guide(answered) =>
              && (path != [] <==> status == AwaitingGuidance && answered)
              && (path != [] ==> end == Running)
            case Close(checksOk, commandsOk, dryRun) =>
              && (path != [] <==> status == Complete && checksOk)
              && (status == Complete ==>
                    && (end == Closed <==> checksOk && (dryRun || commandsOk))
                    && (end == Failed <==> checksOk && !dryRun && !commandsOk)
                    && (end == Complete <==> !checksOk))
            case SyncSignals(agents, states) =>
              && (path != [] ==> status == Running || status == AwaitingGuidance)
              && (status == Running || status == AwaitingGuidance ==> (end == Failed <==> exists agent <- agents :: agent.failed))
  {
    if op.SyncSignals? {
      if agent :| agent in op.agents && agent.failed { assert AnyFailed(op.agents); }
      if AnyFailed(op.agents) {
        var i :| 0 <= i < |op.agents| && op.agents[i].failed;
        assert op.agents[i] in op.agents;
      }
    }
  }

  lemma TwoSteps(status: RunStatus, q: seq<RunStatus>)
    requires LegalPath(status, q)
    ensures |q| > 0 ==> CanTransitionRun(status, q[0])
    ensures |q| > 1 ==> CanTransitionRun(q[0], q[1])
  {
    if |q| > 0 { assert LegalAt(status, q, 0); }
    if |q| > 1 { assert LegalAt(status, q, 1); }
  }

  /** And no operation makes a detour: no legal path to the same end, by way of running if the operation runs the steps, is
      shorter than what it writes, not counting a first write of the status the run has. */
  lemma NoDetours(status: RunStatus, op: Op, q: seq<RunStatus>)
    requires LegalPath(status, q) && LastOf(status, q) == LastOf(status, PathOf(status, op)) && (Running in PathOf(status, op) ==> Running in q)
    ensures var path := PathOf(status, op); |path| <= |q| + (if path != [] && path[0] == status then 1 else 0)
  {
    TwoSteps(status, q);
    OutcomeExactly(status, op);
    if |q| == 1 { assert Running in q ==> q[0] == Running; }
    if |q| == 2 { assert Running in q ==> q[0] == Running || q[1] == Running; }
  }

  /** Some operation makes the move from `a` to `b`. */
  ghost predicate Makes(a: RunStatus, b: RunStatus) {
    exists status, op: Op, i: nat :: MakesAt(status, op, i, a, b)
  }

  predicate MakesAt(status: RunStatus, op: Op, i: nat, a: RunStatus, b: RunStatus) {
    var path := PathOf(status, op);
    i < |path| && path[i] == b && a == if i == 0 then status else path[i - 1]
  }

  lemma GateMakesMoves()
    ensures Makes(Running, AwaitingGuidance) && Makes(AwaitingGuidance, Failed)
  {
    var agents, states := [Agent("a", false)], map["a" := S.AgentState(true, "", false, S.NotValidated, "")];
    assert states[agents[0].name].pending && !AnyFailed(agents);
    assert MakesAt(Running, SyncSignals(agents, states), 0, Running, AwaitingGuidance);
    var failed := [Agent("a", true)];
    assert failed[0].failed;
    assert MakesAt(AwaitingGuidance, SyncSignals(failed, map[]), 0, AwaitingGuidance, Failed);
  }

  /** A resumption or a stop that makes the move, or else one of the operations that end otherwise. */
  lemma MoveIsMade(a: RunStatus, b: RunStatus)
    requires a != b && CanTransitionRun(a, b) && !(a == Planning && b == Failed) && !(a == Running && b == Paused)
    ensures Makes(a, b)
  {
    match b {
      case Planning => assert MakesAt(a, Execute(false, true, true, false), 0, a, b);
      case Paused => assert MakesAt(Created, Execute(true, true, true, false), 1, a, b);
      case Running => assert MakesAt(a, Resume(true, true), 0, a, b);
      case Complete => assert MakesAt(a, Resume(true, false), 1, a, b);
      case Stopping => assert MakesAt(a, Stop(true), 0, a, b);
      case Stopped => assert MakesAt(a, Stop(true), 1, a, b);
      case Closing => assert MakesAt(a, Close(true, true, false), 0, a, b);
      case Closed => assert MakesAt(Complete, Close(true, true, false), 1, a, b);
      case AwaitingGuidance => GateMakesMoves();
      case Failed =>
        GateMakesMoves();
        assert a == Running ==> MakesAt(a, Resume(false, false), 1, a, b);
        assert a == Closing ==> MakesAt(Complete, Close(true, false, false), 1, a, b);
      case Created =>
    }
  }

  /** The transition table has the moves the operations make, and two no operation makes: from planning to failed, and from
      running to paused. */
  lemma MovesMadeExactly(a: RunStatus, b: RunStatus)
    requires a != b
    ensures CanTransitionRun(a, b) <==> Makes(a, b) || (a == Planning && b == Failed) || (a == Running && b == Paused)
    ensures !(Makes(a, b) && ((a == Planning && b == Failed) || (a == Running && b == Paused)))
  {
    if CanTransitionRun(a, b) && !(a == Planning && b == Failed) && !(a == Running && b == Paused) { MoveIsMade(a, b); }
    forall status, op: Op, i: nat | MakesAt(status, op, i, a, b)
      ensures CanTransitionRun(a, b) && !(a == Planning && b == Failed) && !(a == Running && b == Paused)
    {
      OperationsAreLegal(status, op);
      assert LegalAt(status, PathOf(status, op), i);
    }
  }

  /** Operations in turn; each is cut off by a crash after `cut` writes, if it makes more. */
  datatype Call = Call(op: Op, cut: nat)

  function Written(status: RunStatus, call: Call): seq<RunStatus> {
    var path := PathOf(status, call.op);
    if call.cut < |path| then path[..call.cut] else path
  }

  function History(calls: seq<Call>): seq<RunStatus> {
    if |calls| == 0 then []
    else
      var before := History(calls[..|calls| - 1]);
      before + Written(LastOf(Created, before), calls[|calls| - 1])
  }

  lemma LegalPrefix(status: RunStatus, path: seq<RunStatus>, k: nat)
    requires LegalPath(status, path) && k <= |path|
    ensures LegalPath(status, path[..k])
  {
    forall i | 0 <= i < k ensures LegalAt(status, path[..k], i) { assert LegalAt(status, path, i); }
  }

  lemma LegalConcat(status: RunStatus, a: seq<RunStatus>, b: seq<RunStatus>)
    requires LegalPath(status, a) && LegalPath(LastOf(status, a), b)
    ensures LegalPath(status, a + b)
  {
    forall i | 0 <= i < |a + b|
      ensures LegalAt(status, a + b, i)
    {
      if i < |a| { assert LegalAt(status, a, i); } else { assert LegalAt(LastOf(status, a), b, i - |a|); }
    }
  }

  /** Over any sequence of operations, cut off anywhere, every recorded status change is a legal one. */
  lemma {:induction false} HistoryIsLegal(calls: seq<Call>)
    ensures LegalPath(Created, History(calls))
  {
    if |calls| > 0 {
      var before, last := History(calls[..|calls| - 1]), calls[|calls| - 1];
      HistoryIsLegal(calls[..|calls| - 1]);
      OperationsAreLegal(LastOf(Created, before), last.op);
      if last.cut < |PathOf(LastOf(Created, before), last.op)| {
        LegalPrefix(LastOf(Created, before), PathOf(LastOf(Created, before), last.op), last.cut);
      }
      LegalConcat(Created, before, Written(LastOf(Created, before), last));
    }
  }

  /** A closed run stays closed; and a run is closed only by way of closing, and closing only from complete. */
  lemma {:induction false} ClosedIsFinal(calls: seq<Call>, i: nat)
    requires i < |History(calls)|
    ensures History(calls)[i] == Closed ==> forall j :: i <= j < |History(calls)| ==> History(calls)[j] == Closed
    ensures History(calls)[i] == Closed ==> exists k :: 0 < k <= i && History(calls)[k] == Closed && History(calls)[k - 1] == Closing
    ensures History(calls)[i] == Closing ==> exists k :: 0 < k <= i && History(calls)[k] == Closing && History(calls)[k - 1] == Complete
  {
    HistoryIsLegal(calls);
    PathOrigins(History(calls), i);
  }

  lemma {:induction false} PathOrigins(path: seq<RunStatus>, i: nat)
    requires LegalPath(Created, path) && i < |path|
    ensures path[i] == Closed ==> forall j :: i <= j < |path| ==> path[j] == Closed
    ensures path[i] == Closed ==> exists k :: 0 < k <= i && path[k] == Closed && path[k - 1] == Closing
    ensures path[i] == Closing ==> exists k :: 0 < k <= i && path[k] == Closing && path[k - 1] == Complete
  {
    assert LegalAt(Created, path, i);
    if i > 0 { PathOrigins(path, i - 1); }
    if path[i] == Closed { ClosedFrom(path, i, |path|); }
  }

  lemma {:induction false} ClosedFrom(path: seq<RunStatus>, i: nat, n: nat)
    requires LegalPath(Created, path) && i < |path| && path[i] == Closed && i < n <= |path|
    ensures forall j :: i <= j < n ==> path[j] == Closed
    decreases n
  {
    if n > i + 1 {
      ClosedFrom(path, i, n - 1);
      assert LegalAt(Created, path, n - 1);
    }
  }

  // ----- Operations that overlap -----

  /** A call in flight: what it takes the status to be, and the writes ahead of it. */
  datatype Flight = Flight(from: RunStatus, ahead: seq<RunStatus>)

  datatype Control = Control(status: RunStatus, history: seq<RunStatus>, flights: seq<Flight>)

  /** A call reads the status and sets out; it makes its next write; or it crashes. */
  datatype Event = Begin(op: Op) | Write(call: nat) | Crash(call: nat)

  /** A write is checked against what the call takes the status to be, not against what is stored. */
  function Take(c: Control, event: Event): Control {
    match event
    case Begin(op) => c.(flights := c.flights + [Flight(c.status, PathOf(c.status, op))])
    case Write(i) =>
      if i < |c.flights| && |c.flights[i].ahead| > 0 && CanTransitionRun(c.flights[i].from, c.flights[i].ahead[0]) then
        var to := c.flights[i].ahead[0];
        Control(to, c.history + [to], c.flights[i := Flight(to, c.flights[i].ahead[1..])])
      else c
    case Crash(i) => if i < |c.flights| then c.(flights := c.flights[i := c.flights[i].(ahead := [])]) else c
  }

  function Overlap(events: seq<Event>): Control {
    if |events| == 0 then Control(Created, [], []) else Take(Overlap(events[..|events| - 1]), events[|events| - 1])
  }

  predicate Writes(c: Control, event: Event) {
    event.Write? && event.call < |c.flights| && |c.flights[event.call].ahead| > 0
  }

  /** The stored status leads legally to the one about to be written. */
  predicate Undisturbed(c: Control, event: Event) {
    Writes(c, event) ==> CanTransitionRun(c.status, c.flights[event.call].ahead[0])
  }

  /** However calls overlap, the check of a call's own statuses never refuses it a write. */
  lemma {:induction false} ChecksNeverRefuse(events: seq<Event>)
    ensures var c := Overlap(events);
            c.status == LastOf(Created, c.history) && forall i :: 0 <= i < |c.flights| ==> LegalPath(c.flights[i].from, c.flights[i].ahead)
  {
    if |events| > 0 {
      var c, event := Overlap(events[..|events| - 1]), events[|events| - 1];
      ChecksNeverRefuse(events[..|events| - 1]);
      match event {
        case Begin(op) => OperationsAreLegal(c.status, op);
        case Write(i) =>
          if Writes(c, event) {
            var path := c.flights[i].ahead;
            assert LegalAt(c.flights[i].from, path, 0);
            forall j | 0 <= j < |path[1..]| ensures LegalAt(path[0], path[1..], j) { assert LegalAt(c.flights[i].from, path, j + 1); }
          }
        case Crash(i) =>
      }
    }
  }

  lemma LegalAppend(path: seq<RunStatus>, to: RunStatus)
    ensures LegalPath(Created, path + [to]) <==> LegalPath(Created, path) && CanTransitionRun(LastOf(Created, path), to)
  {
    var longer := path + [to];
    assert LegalAt(Created, longer, |path|) <==> CanTransitionRun(LastOf(Created, path), to);
    forall i | 0 <= i < |path| ensures LegalAt(Created, longer, i) == LegalAt(Created, path, i) {}
    if LegalPath(Created, path) && CanTransitionRun(LastOf(Created, path), to) {
      forall i | 0 <= i < |longer| ensures LegalAt(Created, longer, i) {}
    } else if LegalPath(Created, longer) {
      forall i | 0 <= i < |path| ensures LegalAt(Created, path, i) { assert LegalAt(Created, longer, i); }
    }
  }

  /** One event keeps the history legal exactly if it is undisturbed. */
  lemma EventIsLegalExactly(c: Control, event: Event)
    requires c.status == LastOf(Created, c.history)
    requires forall i :: 0 <= i < |c.flights| ==> LegalPath(c.flights[i].from, c.flights[i].ahead)
    ensures LegalPath(Created, Take(c, event).history) <==> LegalPath(Created, c.history) && Undisturbed(c, event)
  {
    if Writes(c, event) {
      assert LegalAt(c.flights[event.call].from, c.flights[event.call].ahead, 0);
      LegalAppend(c.history, c.flights[event.call].ahead[0]);
    }
  }

  /** Each write finds a stored status that leads legally to it. */
  ghost predicate NoneDisturbed(events: seq<Event>) {
    forall k :: 0 <= k < |events| ==> Undisturbed(Overlap(events[..k]), events[k])
  }

  lemma NoneDisturbedGrows(events: seq<Event>, event: Event)
    ensures NoneDisturbed(events + [event]) <==> NoneDisturbed(events) && Undisturbed(Overlap(events), event)
  {
    var longer := events + [event];
    assert longer[..|events|] == events;
    forall k | 0 <= k < |events|
      ensures longer[..k] == events[..k] && longer[k] == events[k]
    {}
    if NoneDisturbed(longer) {
      assert Undisturbed(Overlap(longer[..|events|]), longer[|events|]);
      forall k | 0 <= k < |events| ensures Undisturbed(Overlap(events[..k]), events[k]) {
        assert Undisturbed(Overlap(longer[..k]), longer[k]);
      }
    }
  }

  /** However calls overlap, every recorded status change is legal exactly if each write finds a stored status that leads
      legally to it. */
  lemma {:induction false} OverlapIsLegalExactly(events: seq<Event>)
    ensures LegalPath(Created, Overlap(events).history) <==> NoneDisturbed(events)
  {
    if |events| > 0 {
      var before, last := events[..|events| - 1], events[|events| - 1];
      assert events == before + [last];
      OverlapIsLegalExactly(before);
      ChecksNeverRefuse(before);
      EventIsLegalExactly(Overlap(before), last);
      NoneDisturbedGrows(before, last);
    }
  }

  /** Were every write made only if the stored status is what the call takes it to be, overlapping calls would be legal. */
  lemma FreshWritesAreLegal(events: seq<Event>)
    requires forall k :: 0 <= k < |events| && Writes(Overlap(events[..k]), events[k]) ==>
               Overlap(events[..k]).flights[events[k].call].from == Overlap(events[..k]).status
    ensures LegalPath(Created, Overlap(events).history)
  {
    OverlapIsLegalExactly(events);
    forall k | 0 <= k < |events|
      ensures Undisturbed(Overlap(events[..k]), events[k])
    {
      var c := Overlap(events[..k]);
      ChecksNeverRefuse(events[..k]);
      if Writes(c, events[k]) {
        assert LegalAt(c.flights[events[k].call].from, c.flights[events[k].call].ahead, 0);
      }
    }
  }

  /** A call goes on from `c` with a write. */
  lemma WriteNext(events: seq<Event>, i: nat, to: RunStatus, rest: seq<RunStatus>) returns (longer: seq<Event>)
    requires var c := Overlap(events); i < |c.flights| && c.flights[i].ahead == [to] + rest && CanTransitionRun(c.flights[i].from, to)
    ensures var c := Overlap(events);
            Overlap(longer) == Control(to, c.history + [to], c.flights[i := Flight(to, rest)])
  {
    longer := events + [Write(i)];
    assert longer[..|events|] == events;
    assert ([to] + rest)[1..] == rest;
  }

  lemma BeginNext(events: seq<Event>, op: Op) returns (longer: seq<Event>)
    ensures var c := Overlap(events); Overlap(longer) == c.(flights := c.flights + [Flight(c.status, PathOf(c.status, op))])
  {
    longer := events + [Begin(op)];
    assert longer[..|events|] == events;
  }

  /** A run whose steps are being executed. */
  lemma Underway() returns (events: seq<Event>)
    ensures Overlap(events) == Control(Running, [Planning, Running], [Flight(Running, [Complete])])
  {
    events := BeginNext([], Execute(false, true, true, false));
    events := WriteNext(events, 0, Planning, [Running, Complete]);
    events := WriteNext(events, 0, Running, [Complete]);
  }

  /** A run stopped while its steps are executed is recorded complete after it was stopped. */
  lemma StoppedThenComplete() returns (events: seq<Event>)
    ensures Overlap(events).history == [Planning, Running, Stopping, Stopped, Complete]
    ensures !LegalPath(Created, Overlap(events).history)
  {
    events := Underway();
    events := BeginNext(events, Stop(true));
    events := WriteNext(events, 1, Stopping, [Stopped]);
    events := WriteNext(events, 1, Stopped, []);
    events := WriteNext(events, 0, Complete, []);
    assert !LegalAt(Created, Overlap(events).history, 4);
  }

  // ----- Which operations may overlap -----

  /** The calls of `turns` make their next write, in turn. */
  function Onward(c: Control, turns: seq<nat>): Control
    decreases |turns|
  {
    if |turns| == 0 then c else Onward(Take(c, Write(turns[0])), turns[1..])
  }

  /** However the calls in flight go on, and wherever each of them stops, the history stays legal. */
  ghost predicate Safe(c: Control) {
    forall turns: seq<nat> :: LegalPath(Created, Onward(c, turns).history)
  }

  /** Every status of one path leads legally to every status of the other. */
  predicate Compatible(p: seq<RunStatus>, q: seq<RunStatus>) {
    forall i, j :: 0 <= i < |p| && 0 <= j < |q| ==> CanTransitionRun(p[i], q[j]) && CanTransitionRun(q[j], p[i])
  }

  /** The stored status leads legally to the call's next write. */
  predicate Ready(c: Control, f: Flight) {
    |f.ahead| > 0 ==> CanTransitionRun(c.status, f.ahead[0])
  }

  /** Of the calls in flight each can write now, and no two get in each other's way. */
  ghost predicate AllCompatible(c: Control) {
    && (forall i :: 0 <= i < |c.flights| ==> Ready(c, c.flights[i]))
    && forall i, j :: 0 <= i < j < |c.flights| ==> Compatible(c.flights[i].ahead, c.flights[j].ahead)
  }

  /** What every reachable state keeps. */
  ghost predicate Proper(c: Control) {
    c.status == LastOf(Created, c.history) && forall i :: 0 <= i < |c.flights| ==> LegalPath(c.flights[i].from, c.flights[i].ahead)
  }

  lemma WriteKeepsProper(c: Control, i: nat)
    requires Proper(c)
    ensures Proper(Take(c, Write(i)))
    ensures var c' := Take(c, Write(i));
            if i < |c.flights| && |c.flights[i].ahead| > 0 then
              var p := c.flights[i].ahead;
              c' == Control(p[0], c.history + [p[0]], c.flights[i := Flight(p[0], p[1..])])
            else c' == c
  {
    if Writes(c, Write(i)) {
      var p := c.flights[i].ahead;
      assert LegalAt(c.flights[i].from, p, 0);
      forall j | 0 <= j < |p[1..]| ensures LegalAt(p[0], p[1..], j) { assert LegalAt(c.flights[i].from, p, j + 1); }
    }
  }

  lemma WriteKeepsCompatible(c: Control, i: nat)
    requires Proper(c) && AllCompatible(c)
    ensures AllCompatible(Take(c, Write(i)))
    ensures LegalPath(Created, c.history) ==> LegalPath(Created, Take(c, Write(i)).history)
  {
    WriteKeepsProper(c, i);
    if Writes(c, Write(i)) {
      var p, c' := c.flights[i].ahead, Take(c, Write(i));
      assert Ready(c, c.flights[i]);
      LegalAppend(c.history, p[0]);
      if |p| > 1 { assert LegalAt(c.flights[i].from, p, 1); }
      forall j | 0 <= j < |c'.flights|
        ensures Ready(c', c'.flights[j])
      {
        if j < i { assert Compatible(c.flights[j].ahead, p); } else if j > i { assert Compatible(p, c.flights[j].ahead); }
      }
      forall j, k | 0 <= j < k < |c'.flights|
        ensures Compatible(c'.flights[j].ahead, c'.flights[k].ahead)
      {
        assert Compatible(c.flights[j].ahead, c.flights[k].ahead);
      }
    }
  }

  lemma {:induction false} CompatibleIsSafe(c: Control, turns: seq<nat>)
    requires Proper(c) && AllCompatible(c) && LegalPath(Created, c.history)
    ensures LegalPath(Created, Onward(c, turns).history)
    decreases |turns|
  {
    if |turns| > 0 {
      WriteKeepsProper(c, turns[0]);
      WriteKeepsCompatible(c, turns[0]);
      CompatibleIsSafe(Take(c, Write(turns[0])), turns[1..]);
    }
  }

  /** Lets one call make its next `n` writes. */
  lemma {:induction false} Ahead(c: Control, i: nat, n: nat) returns (turns: seq<nat>)
    requires Proper(c) && i < |c.flights| && n <= |c.flights[i].ahead|
    ensures var c', f := Onward(c, turns), c.flights[i];
            && Proper(c') && c'.status == (if n == 0 then c.status else f.ahead[n - 1])
            && |c'.flights| == |c.flights| && c'.flights[i].ahead == f.ahead[n..]
            && forall j :: 0 <= j < |c.flights| && j != i ==> c'.flights[j] == c.flights[j]
    decreases n
  {
    if n == 0 {
      turns := [];
    } else {
      WriteKeepsProper(c, i);
      var rest := Ahead(Take(c, Write(i)), i, n - 1);
      turns := [i] + rest;
      assert turns[1..] == rest;
    }
  }

  lemma {:induction false} OnwardConcat(c: Control, a: seq<nat>, b: seq<nat>)
    ensures Onward(c, a + b) == Onward(Onward(c, a), b)
    decreases |a|
  {
    if |a| == 0 {
      assert a + b == b;
    } else {
      assert (a + b)[1..] == a[1..] + b;
      OnwardConcat(Take(c, Write(a[0])), a[1..], b);
    }
  }

  /** In a safe state, and after any writes, the next write of a call is legal. */
  lemma SafeNext(c: Control, turns: seq<nat>, i: nat)
    requires Safe(c) && Proper(Onward(c, turns)) && i < |Onward(c, turns).flights|
    ensures Ready(Onward(c, turns), Onward(c, turns).flights[i])
  {
    var mid := Onward(c, turns);
    if |mid.flights[i].ahead| > 0 {
      WriteKeepsProper(mid, i);
      OnwardConcat(c, turns, [i]);
      assert [i][1..] == [] && Onward(mid, [i]) == Take(mid, Write(i));
      LegalAppend(mid.history, mid.flights[i].ahead[0]);
    }
  }

  /** In a safe state any status ahead of one call leads legally to any ahead of another. */
  lemma SafePair(c: Control, i: nat, a: nat, j: nat, b: nat)
    requires Proper(c) && Safe(c) && i < |c.flights| && j < |c.flights| && i != j
    requires a < |c.flights[i].ahead| && b < |c.flights[j].ahead|
    ensures CanTransitionRun(c.flights[i].ahead[a], c.flights[j].ahead[b])
  {
    var first := Ahead(c, j, b);
    var mid := Onward(c, first);
    var second := Ahead(mid, i, a + 1);
    OnwardConcat(c, first, second);
    SafeNext(c, first + second, j);
  }

  /** Exactly when calls in flight are safe, however many there are: each can write now, and no two of them get in each
      other's way. */
  lemma SafeExactly(c: Control)
    requires Proper(c) && LegalPath(Created, c.history)
    ensures Safe(c) <==> AllCompatible(c)
  {
    if AllCompatible(c) {
      forall turns: seq<nat> ensures LegalPath(Created, Onward(c, turns).history) { CompatibleIsSafe(c, turns); }
    } else if Safe(c) {
      forall i | 0 <= i < |c.flights| ensures Ready(c, c.flights[i]) { SafeNext(c, [], i); }
      forall i, j | 0 <= i < j < |c.flights|
        ensures Compatible(c.flights[i].ahead, c.flights[j].ahead)
      {
        forall a, b | 0 <= a < |c.flights[i].ahead| && 0 <= b < |c.flights[j].ahead|
          ensures CanTransitionRun(c.flights[i].ahead[a], c.flights[j].ahead[b])
          ensures CanTransitionRun(c.flights[j].ahead[b], c.flights[i].ahead[a])
        {
          SafePair(c, i, a, j, b);
          SafePair(c, j, b, i, a);
        }
      }
    }
  }

  /** Exactly when an operation may begin while others are in flight: its statuses and those ahead of each of them lead legally
      to one another. `events` may be anything that came before. */
  lemma MayBeginExactly(events: seq<Event>, op: Op)
    requires LegalPath(Created, Overlap(events).history) && Safe(Overlap(events))
    ensures var c := Overlap(events);
            Safe(Overlap(events + [Begin(op)])) <==> forall i :: 0 <= i < |c.flights| ==> Compatible(c.flights[i].ahead, PathOf(c.status, op))
  {
    var c, q := Overlap(events), PathOf(Overlap(events).status, op);
    var longer := BeginNext(events, op);
    var c' := c.(flights := c.flights + [Flight(c.status, q)]);
    assert (events + [Begin(op)])[..|events|] == events;
    ChecksNeverRefuse(events);
    OperationsAreLegal(c.status, op);
    SafeExactly(c);
    SafeExactly(c');
    if |q| > 0 { assert LegalAt(c.status, q, 0); }
    forall i | 0 <= i < |c'.flights|
      ensures Ready(c', c'.flights[i])
    {
      if i < |c.flights| { assert Ready(c, c.flights[i]); }
    }
    if AllCompatible(c') {
      forall i | 0 <= i < |c.flights| ensures Compatible(c.flights[i].ahead, q) {
        assert Compatible(c'.flights[i].ahead, c'.flights[|c.flights|].ahead);
      }
    }
    if forall i :: 0 <= i < |c.flights| ==> Compatible(c.flights[i].ahead, q) {
      forall i, j | 0 <= i < j < |c'.flights| ensures Compatible(c'.flights[i].ahead, c'.flights[j].ahead) {
        if j < |c.flights| { assert Compatible(c.flights[i].ahead, c.flights[j].ahead); }
      }
    }
  }

  lemma CompatibleWithOne(p: RunStatus, q: seq<RunStatus>)
    ensures Compatible([p], q) <==> forall b :: b in q ==> CanTransitionRun(p, b) && CanTransitionRun(b, p)
  {
    if Compatible([p], q) {
      forall b | b in q ensures CanTransitionRun(p, b) && CanTransitionRun(b, p) {
        var j :| 0 <= j < |q| && q[j] == b;
        assert CanTransitionRun([p][0], q[j]);
      }
    }
  }

  /** What may begin while an execution, or a resumption, runs its steps and will end as `end`: not a stop, not a cleanup
      that deletes, not a gate that waits for guidance, and only what ends the run in the same way. */
  lemma MayOverlapExecution(op: Op, end: RunStatus)
    requires end == Complete || end == Failed
    ensures Compatible([end], PathOf(Running, op)) <==>
            match op
            case Stop(_) => false
            case Cleanup(dryRun, deleted) => dryRun || !deleted
            case Resume(stepsOk, bootstrap) => if !stepsOk then end == Failed else bootstrap || end == Complete
            case SyncSignals(agents, states) =>
              if AnyFailed(agents) then end == Failed
              else !AnyPending(agents, states) && (AllComplete(agents, states) ==> end == Complete)
            case _ => true
  {
    var q := PathOf(Running, op);
    CompatibleWithOne(end, q);
    assert |q| > 0 ==> q[0] in q;
    assert |q| > 1 ==> q[1] in q;
  }

  /** What a crash can leave behind for good. `Execute` runs once, when the run is created. No other operation moves a run out of
      created, closing or closed; every other status leads to stopped by a stop. */
  lemma StuckExactly(status: RunStatus)
    ensures (forall op: Op :: !op.Execute? ==> LastOf(status, PathOf(status, op)) == status) <==>
            (status == Created || status == Closing || status == Closed)
    ensures status != Created && status != Closing && status != Closed && status != Complete && status != Stopped ==>
              LastOf(status, PathOf(status, Stop(true))) == Stopped
    ensures status == Complete || status == Stopped ==>
              LastOf(status, PathOf(status, Resume(true, true))) == Running
  {
    if !(status == Created || status == Closing || status == Closed) {
      var op := if status == Complete || status == Stopped then Resume(true, true) else Stop(true);
      assert LastOf(status, PathOf(status, op)) != status;
    }
  }

  /** Closing without running a command still moves the run: a dry run closes it just as a real one does. */
  lemma DryRunCloses(checksOk: bool, commandsOk: bool)
    ensures PathOf(Complete, Close(checksOk, commandsOk, true)) == PathOf(Complete, Close(checksOk, true, false))
  {
  }

  /** The stored run. */
  class Run {
    var status: RunStatus
    ghost var history: seq<RunStatus>

    constructor ()
      ensures status == Created && history == []
    {
      status, history := Created, [];
    }

    /** transitionRun: checked against the table, then written whatever is stored. */
    method Transition(from: RunStatus, to: RunStatus) returns (ok: bool)
      modifies this
      ensures ok <==> CanTransitionRun(from, to)
      ensures status == (if ok then to else old(status)) && history == (if ok then old(history) + [to] else old(history))
    {
      ok := CanTransitionRun(from, to);
      if ok { status, history := to, history + [to]; }
    }

    method SyncBootstrapSignals(agents: seq<Agent>, states: map<string, S.AgentState>) returns (ok: bool)
      modifies this
      ensures ok && history == old(history) + SyncPath(old(status), agents, states)
      ensures status == Sync(old(status), agents, states)
    {
      var current := status;
      if current != Running && current != AwaitingGuidance { return true; }
      for i := 0 to |agents|
        invariant forall j :: 0 <= j < i ==> !agents[j].failed
        invariant status == current && history == old(history)
      {
        if agents[i].failed {
          ok := Transition(current, Failed);
          return;
        }
      }
      var allComplete, pending := |agents| > 0, 0;
      for i := 0 to |agents|
        invariant status == current && history == old(history)
        invariant pending > 0 <==> exists j :: 0 <= j < i && agents[j].name in states && states[agents[j].name].pending
        invariant pending >= 0
        invariant allComplete <==> |agents| > 0 && forall j :: 0 <= j < i ==>
          agents[j].name in states && states[agents[j].name].completed && states[agents[j].name].validation == S.Passed
      {
        var name := agents[i].name;
        if name !in states {
          allComplete := false;
        } else {
          if states[name].pending { pending := pending + 1; }
          if !states[name].completed || states[name].validation != S.Passed { allComplete := false; }
        }
      }
      ok := true;
      if current == Running && pending > 0 {
        ok := Transition(Running, AwaitingGuidance);
      } else if current == AwaitingGuidance && pending == 0 && !allComplete {
        ok := Transition(AwaitingGuidance, Running);
      } else if pending == 0 && allComplete {
        if current == AwaitingGuidance { ok := Transition(AwaitingGuidance, Running); }
        ok := Transition(Running, Complete);
      }
    }

    /** Run, once the run is created. A plan that cannot be saved ends it while it plans. */
    method ExecuteRun(dryRun: bool, planSaved: bool, stepsOk: bool, bootstrap: bool) returns (ok: bool)
      requires status == Created
      modifies this
      ensures history == old(history) + PathOf(Created, Execute(dryRun, planSaved, stepsOk, bootstrap))
      ensures status == LastOf(Created, PathOf(Created, Execute(dryRun, planSaved, stepsOk, bootstrap)))
      ensures ok <==> status == Paused || status == Running || status == Complete
      ensures (status == Failed <==> planSaved && !dryRun && !stepsOk) && (status == Complete ==> stepsOk && !bootstrap)
    {
      ok := Transition(Created, Planning);
      if !planSaved { return false; }
      if dryRun {
        ok := Transition(Planning, Paused);
        return;
      }
      ok := Transition(Planning, Running);
      if !stepsOk {
        var _ := Transition(Running, Failed);
        return false;
      }
      if bootstrap { return true; }
      ok := Transition(Running, Complete);
    }

    /** Restart, as far as it moves the run. */
    method RestartRun(dryRun: bool, anyAgent: bool) returns (ok: bool)
      modifies this
      ensures history == old(history) + PathOf(old(status), Restart(dryRun, anyAgent))
      ensures status == LastOf(old(status), PathOf(old(status), Restart(dryRun, anyAgent)))
      ensures ok <==> old(status) != Closed && anyAgent
      ensures status != old(status) ==> ok && !dryRun && status == Running
    {
      if status == Closed || !anyAgent { return false; }
      if status != Running && CanTransitionRun(status, Running) && !dryRun {
        var _ := Transition(status, Running);
      }
      ok := true;
    }

    /** Cleanup, as far as it moves the run; `deleted` tells whether the workspaces it is to delete are. */
    method CleanupRun(dryRun: bool, deleted: bool) returns (ok: bool)
      modifies this
      ensures history == old(history) + PathOf(old(status), Cleanup(dryRun, deleted))
      ensures status == LastOf(old(status), PathOf(old(status), Cleanup(dryRun, deleted)))
      ensures ok <==> dryRun || deleted
      ensures status != old(status) ==> ok && !dryRun && status == Stopped
    {
      if dryRun { return true; }
      if !deleted { return false; }
      if status != Stopped && CanTransitionRun(status, Stopping) {
        var _ := Transition(status, Stopping);
        var _ := Transition(Stopping, Stopped);
      }
      ok := true;
    }

    /** Guide; `answered` tells whether a pending request was found and its answer posted. */
    method GuideRun(answered: bool) returns (ok: bool)
      modifies this
      ensures history == old(history) + PathOf(old(status), Guide(answered))
      ensures status == LastOf(old(status), PathOf(old(status), Guide(answered)))
      ensures ok <==> old(status) == AwaitingGuidance && answered
      ensures status == if ok then Running else old(status)
    {
      if status != AwaitingGuidance || !answered { return false; }
      ok := Transition(AwaitingGuidance, Running);
    }

    /** Resume. */
    method ResumeRun(stepsOk: bool, bootstrap: bool) returns (ok: bool)
      modifies this
      ensures history == old(history) + PathOf(old(status), Resume(stepsOk, bootstrap))
      ensures status == LastOf(old(status), PathOf(old(status), Resume(stepsOk, bootstrap)))
      ensures ok <==> old(status) in RESUMABLE && stepsOk
      ensures old(status) in RESUMABLE ==> (status == Failed <==> !stepsOk) && (status == Running <==> stepsOk && bootstrap)
      ensures old(status) !in RESUMABLE ==> history == old(history)
    {
      if !CanTransitionRun(status, Running) { return false; }
      ok := Transition(status, Running);
      if !stepsOk {
        var _ := Transition(Running, Failed);
        return false;
      }
      if bootstrap { return true; }
      ok := Transition(Running, Complete);
    }

    /** Stop. */
    method StopRun(agentsRead: bool) returns (ok: bool)
      modifies this
      ensures history == old(history) + PathOf(old(status), Stop(agentsRead))
      ensures status == LastOf(old(status), PathOf(old(status), Stop(agentsRead)))
      ensures ok <==> old(status) in STOPPABLE && agentsRead
      ensures ok ==> status == Stopped
      ensures old(status) !in STOPPABLE ==> history == old(history)
    {
      if !CanTransitionRun(status, Stopping) { return false; }
      ok := Transition(status, Stopping);
      if !agentsRead { return false; }
      ok := Transition(Stopping, Stopped);
    }

    /** Close, with one command per workspace and ticket; `commandsOk` tells whether they all succeed. */
    method CloseRun(checksOk: bool, commandsOk: bool, dryRun: bool) returns (ok: bool)
      modifies this
      ensures history == old(history) + PathOf(old(status), Close(checksOk, commandsOk, dryRun))
      ensures status == LastOf(old(status), PathOf(old(status), Close(checksOk, commandsOk, dryRun)))
      ensures ok <==> status == Closed
      ensures old(status) == Complete ==>
                && (status == Closed <==> checksOk && (dryRun || commandsOk))
                && (status == Failed <==> checksOk && !dryRun && !commandsOk)
                && (status == Complete <==> history == old(history))
      ensures old(status) != Complete ==> status == old(status) && history == old(history)
    {
      if status != Complete && status != Closed { return false; }
      if status == Closed { return true; }
      if !checksOk { return false; }
      ok := Transition(Complete, Closing);
      if !dryRun && !commandsOk {
        var _ := Transition(Closing, Failed);
        return false;
      }
      ok := Transition(Closing, Closed);
    }
  }
}
