/** The forum service: the guards it puts before the store, which checks no transition itself, and what they keep over
    whole runs of serialized calls. */
module ForumLifecycle {
  import opened Options
  import opened ForumModel
  import opened ForumTables
  import opened ForumReplay
  import opened ForumStore

  /** forumTransitionAllowed. */
  predicate Allowed(from: ThreadState, to: ThreadState) {
    from == to ||
    match from
    case New => to == Triaged || to == WaitingOperator || to == WaitingHuman || to == Answered || to == Closed
    case Triaged => to == WaitingOperator || to == WaitingHuman || to == Answered || to == Closed
    case WaitingOperator => to == WaitingHuman || to == Answered || to == Triaged || to == Closed
    case WaitingHuman => to == WaitingOperator || to == Answered || to == Triaged || to == Closed
    case Answered => to == WaitingOperator || to == WaitingHuman || to == Closed
    case Closed => false
  }

  datatype ServiceError = TicketRequired | RunRequired | AgentRequired | TitleRequired | BodyRequired | AssigneeRequired | ThreadIdRequired
    | NotFound | ThreadClosed | NotAllowed(from: ThreadState, to: ThreadState)

  /** Who calls, under which fresh ids, and when. `docsSync` is the policy's docs_sync switch. */
  datatype Caller = Caller(actor: Actor, name: string, eventId: string, nextId: string, now: int, docsSync: bool)

  datatype Call =
    | OpenCall(t: string, runId: string, ticket: string, agent: string, title: string, body: string, priority: Priority)
    | PostCall(t: string, body: string)
    | AnswerCall(t: string, body: string)
    | AssignCall(t: string, toType: Actor, toName: string)
    | StateCall(t: string, toState: ThreadState)
    | PriorityCall(t: string, toPriority: Priority)
    | CloseCall(t: string)
    | SignalCall(t: string, runId: string, ticket: string, agent: string, body: string)

  datatype Reply = Accepted | Refused(error: ServiceError)

  /** What a call does once its guards have passed: commands it has handled, and an integration event it may append. */
  datatype Action = Execute(cmd: Command) | Integrate(env: Envelope)

  /** The envelope of a command on thread `t`, with the identity of the thread as shown. */
  function EnvelopeFor(views: map<string, View>, c: Caller, id: string, eventType: string, t: string): Envelope {
    if t in views then
      var base := views[t].base;
      Envelope(id, eventType, Some(c.now), t, base.runId, base.ticket, base.agentName, c.actor, c.name)
    else Envelope(id, eventType, Some(c.now), t, "", "", "", c.actor, c.name)
  }

  /** The control thread of an agent, opened by the system straight on the store. */
  function ControlOpen(c: Caller, call: Call): Command
    requires call.SignalCall?
  {
    OpenThread(Envelope(c.nextId, "forum.thread.opened", Some(c.now), call.t, call.runId, call.ticket, call.agent, System, "metawsm"),
               "Control thread for " + call.agent + " in " + call.runId,
               "System-managed control thread for forum-first run lifecycle signals.", Some(Normal))
  }

  function SignalEnvelope(views: map<string, View>, c: Caller, call: Call): Envelope
    requires call.SignalCall?
  {
    if call.t in views then EnvelopeFor(views, c, c.eventId, "forum.control.signal", call.t)
    else Envelope(c.eventId, "forum.control.signal", Some(c.now), call.t, call.runId, call.ticket, call.agent, c.actor, c.name)
  }

  function DocsSync(views: map<string, View>, c: Caller, t: string): seq<Action> {
    if c.docsSync then [Integrate(EnvelopeFor(views, c, c.nextId + ".docs", "forum.integration.docs_sync.requested", t))] else []
  }

  function ActionsOf(views: map<string, View>, c: Caller, call: Call): seq<Action> {
    match call
    case OpenCall(t, runId, ticket, agent, title, body, priority) =>
      [Execute(OpenThread(Envelope(c.eventId, "forum.thread.opened", Some(c.now), t, runId, ticket, agent, c.actor, c.name),
                          title, body, Some(priority)))]
    case PostCall(t, body) => [Execute(AddPost(EnvelopeFor(views, c, c.eventId, "forum.post.added", t), body))]
    case AnswerCall(t, body) =>
      [Execute(AddPost(EnvelopeFor(views, c, c.eventId, "forum.post.added", t), body)),
       Execute(ChangeState(EnvelopeFor(views, c, c.nextId, "forum.state.changed", t), Answered))] + DocsSync(views, c, t)
    case AssignCall(t, toType, toName) =>
      [Execute(AssignThread(EnvelopeFor(views, c, c.eventId, "forum.assigned", t), toType, toName))]
    case StateCall(t, toState) => [Execute(ChangeState(EnvelopeFor(views, c, c.eventId, "forum.state.changed", t), toState))]
    case PriorityCall(t, toPriority) => [Execute(SetPriority(EnvelopeFor(views, c, c.eventId, "forum.priority.changed", t), toPriority))]
    case CloseCall(t) =>
      if t in views && views[t].base.state == Closed then []
      else [Execute(CloseThread(EnvelopeFor(views, c, c.eventId, "forum.thread.closed", t)))] + DocsSync(views, c, t)
    case SignalCall(t, _, _, _, body) =>
      (if t in views then [] else [Execute(ControlOpen(c, call))]) + [Execute(AddPost(SignalEnvelope(views, c, call), body))]
  }

  function Perform(db: Db, action: Action, now: int): Db {
    match action
    case Execute(cmd) => Handled(db, cmd, now)
    case Integrate(env) => IntegrationTx(db, env, "docs", now)
  }

  function PerformAll(db: Db, actions: seq<Action>, now: int): Db
    decreases |actions|
  {
    if |actions| == 0 then db else PerformAll(Perform(db, actions[0], now), actions[1..], now)
  }

  /** The guards of a call, before any command is dispatched. */
  function Guard(views: map<string, View>, call: Call): Option<ServiceError> {
    match call
    case OpenCall(_, _, ticket, _, title, body, _) =>
      if IsBlank(ticket) then Some(TicketRequired) else if IsBlank(title) then Some(TitleRequired)
      else if IsBlank(body) then Some(BodyRequired) else None
    case SignalCall(_, runId, ticket, agent, _) =>
      if IsBlank(runId) then Some(RunRequired) else if IsBlank(agent) then Some(AgentRequired)
      else if IsBlank(ticket) then Some(TicketRequired) else None
    case PostCall(t, body) =>
      if IsBlank(t) then Some(ThreadIdRequired) else if IsBlank(body) then Some(BodyRequired) else OpenThreadGuard(views, t)
    case AnswerCall(t, _) => if IsBlank(t) then Some(ThreadIdRequired) else OpenThreadGuard(views, t)
    case AssignCall(t, _, toName) =>
      if IsBlank(t) then Some(ThreadIdRequired) else if IsBlank(toName) then Some(AssigneeRequired) else OpenThreadGuard(views, t)
    case PriorityCall(t, _) => if IsBlank(t) then Some(ThreadIdRequired) else OpenThreadGuard(views, t)
    case StateCall(t, toState) =>
      if IsBlank(t) then Some(ThreadIdRequired)
      else if t !in views then Some(NotFound)
      else if !Allowed(views[t].base.state, toState) then Some(NotAllowed(views[t].base.state, toState))
      else None
    case CloseCall(t) => if IsBlank(t) then Some(ThreadIdRequired) else if t !in views then Some(NotFound) else None
  }

  function OpenThreadGuard(views: map<string, View>, t: string): Option<ServiceError> {
    if t !in views then Some(NotFound)
    else if views[t].base.state == Closed then Some(ThreadClosed)
    else None
  }

  /** One call whose commands are handled before it returns. */
  function Served(db: Db, c: Caller, call: Call): Db {
    if Guard(db.views, call).Some? then db else PerformAll(db, ActionsOf(db.views, c, call), c.now)
  }

  // ----- What holds over runs -----

  /** The state the recorded transitions of thread `t` lead to, from `new`. */
  function StateAfter(transitions: seq<Transition>, t: string): ThreadState {
    if |transitions| == 0 then New
    else
      var last := transitions[|transitions| - 1];
      if last.threadId == t then last.toState else StateAfter(transitions[..|transitions| - 1], t)
  }

  /** Every recorded transition starts where the thread's earlier ones ended, and is an allowed one. */
  ghost predicate Chained(transitions: seq<Transition>) {
    forall i :: 0 <= i < |transitions| ==>
      var tr := transitions[i];
      tr.fromState == StateAfter(transitions[..i], tr.threadId) && Allowed(tr.fromState, tr.toState)
  }

  ghost predicate StatesRecorded(threads: map<string, Thread>, transitions: seq<Transition>) {
    && (forall t :: t in threads ==> threads[t].state == StateAfter(transitions, t))
    && (forall i :: 0 <= i < |transitions| ==> transitions[i].threadId in threads)
  }

  ghost predicate LifecycleInv(db: Db) {
    StoreInv(db) && Chained(db.transitions) && StatesRecorded(db.threads, db.transitions)
  }

  /** What a closed thread keeps. */
  predicate Frozen(a: Thread, b: Thread) {
    a.state == Closed ==> b.state == Closed && b.priority == a.priority && b.assigneeType == a.assigneeType && b.assigneeName == a.assigneeName
  }

  ghost predicate ClosedKept(before: map<string, Thread>, after: map<string, Thread>) {
    forall t :: t in before ==> t in after && Frozen(before[t], after[t])
  }

  /** A command that keeps the lifecycle when the threads are `threads`. */
  predicate Admissible(threads: map<string, Thread>, cmd: Command) {
    var t := cmd.env.threadId;
    t in threads ==>
      match cmd
      case AssignThread(_, toType, toName) =>
        threads[t].state != Closed || (threads[t].assigneeType == Some(toType) && threads[t].assigneeName == toName)
      case SetPriority(_, toPriority) => threads[t].state != Closed || threads[t].priority == toPriority
      case ChangeState(_, toState) => Allowed(threads[t].state, toState)
      case _ => true
  }

  lemma TransitionsAppend(transitions: seq<Transition>, tr: Transition)
    requires Chained(transitions) && tr.fromState == StateAfter(transitions, tr.threadId) && Allowed(tr.fromState, tr.toState)
    ensures Chained(transitions + [tr])
    ensures forall t :: StateAfter(transitions + [tr], t) == if t == tr.threadId then tr.toState else StateAfter(transitions, t)
  {
    var all := transitions + [tr];
    assert all[..|all| - 1] == transitions;
    forall i | 0 <= i < |all|
      ensures all[i].fromState == StateAfter(all[..i], all[i].threadId) && Allowed(all[i].fromState, all[i].toState)
    {
      if i < |transitions| { assert all[..i] == transitions[..i]; }
    }
  }

  lemma {:induction false} NoTransitionsYet(transitions: seq<Transition>, t: string)
    requires forall i :: 0 <= i < |transitions| ==> transitions[i].threadId != t
    ensures StateAfter(transitions, t) == New
  {
    if |transitions| > 0 { NoTransitionsYet(transitions[..|transitions| - 1], t); }
  }

  /** An admissible command records a legal transition that continues the thread's chain, and respects closed threads. */
  lemma CommandKeepsChain(threads: map<string, Thread>, transitions: seq<Transition>, cmd: Command, seen: Thread, at: int)
    requires Chained(transitions) && StatesRecorded(threads, transitions) && Admissible(threads, cmd)
    requires cmd.OpenThread? <==> cmd.env.threadId !in threads
    requires !cmd.OpenThread? ==> seen == threads[cmd.env.threadId]
    ensures var threads', transitions' := ThreadsAfter(threads, cmd, at), transitions + NewTransitions(cmd, seen);
            Chained(transitions') && StatesRecorded(threads', transitions') && ClosedKept(threads, threads')
  {
    var trs := NewTransitions(cmd, seen);
    if |trs| == 1 {
      TransitionsAppend(transitions, trs[0]);
    } else {
      assert transitions + trs == transitions;
      if cmd.OpenThread? { NoTransitionsYet(transitions, cmd.env.threadId); }
    }
  }

  lemma CommittedTables(db: Db, cmd: Command, seen: Thread, clock: int)
    requires !Conflicts(db, cmd)
    ensures var db' := CommitTx(db, cmd, seen, clock);
            && db'.threads == ThreadsAfter(db.threads, cmd, OccurredAt(cmd.env, clock))
            && db'.transitions == db.transitions + NewTransitions(cmd, seen)
  {
  }

  lemma HandledTables(db: Db, cmd: Command, clock: int)
    requires Refusal(db, cmd).None?
    ensures var db' := Handled(db, cmd, clock);
            && db'.threads == ThreadsAfter(db.threads, cmd, OccurredAt(cmd.env, clock))
            && db'.transitions == db.transitions + NewTransitions(cmd, SeenRow(db, cmd))
  {
    var seen := SeenRow(db, cmd);
    CommittedTables(db, cmd, seen, clock);
    RefreshedAfterIsDerived(CommitTx(db, cmd, seen, clock), cmd, EventOf(cmd, seen, clock).ticket);
  }

  lemma HandledFits(db: Db, cmd: Command)
    requires StoreInv(db) && Refusal(db, cmd).None?
    ensures cmd.OpenThread? <==> cmd.env.threadId !in db.threads
    ensures !cmd.OpenThread? ==> SeenRow(db, cmd) == db.threads[cmd.env.threadId]
  {
  }

  lemma HandledKeepsLifecycle(db: Db, cmd: Command, clock: int)
    requires LifecycleInv(db) && Admissible(db.threads, cmd)
    ensures LifecycleInv(Handled(db, cmd, clock)) && ClosedKept(db.threads, Handled(db, cmd, clock).threads)
  {
    if Refusal(db, cmd).None? {
      HandledTables(db, cmd, clock);
      HandledFits(db, cmd);
      CommandKeepsChain(db.threads, db.transitions, cmd, SeenRow(db, cmd), OccurredAt(cmd.env, clock));
      HandledKeepsStore(db, cmd, clock);
    }
  }

  predicate ActionOk(db: Db, action: Action) {
    action.Execute? ==> Admissible(db.threads, action.cmd)
  }

  lemma PerformKeepsLifecycle(db: Db, action: Action, now: int)
    requires LifecycleInv(db) && ActionOk(db, action)
    ensures LifecycleInv(Perform(db, action, now)) && ClosedKept(db.threads, Perform(db, action, now).threads)
  {
    match action
    case Execute(cmd) => HandledKeepsLifecycle(db, cmd, now);
    case Integrate(env) => IntegrationKeepsStore(db, env, "docs", now);
  }

  /** Actions each of which is admissible when its turn comes. */
  predicate AllOk(db: Db, actions: seq<Action>, now: int)
    decreases |actions|
  {
    |actions| == 0 || (ActionOk(db, actions[0]) && AllOk(Perform(db, actions[0], now), actions[1..], now))
  }

  lemma {:induction false} PerformAllKeepsLifecycle(db: Db, actions: seq<Action>, now: int)
    requires LifecycleInv(db) && AllOk(db, actions, now)
    ensures LifecycleInv(PerformAll(db, actions, now)) && ClosedKept(db.threads, PerformAll(db, actions, now).threads)
    decreases |actions|
  {
    if |actions| > 0 {
      PerformKeepsLifecycle(db, actions[0], now);
      PerformAllKeepsLifecycle(Perform(db, actions[0], now), actions[1..], now);
    }
  }

  lemma OneActionOk(db: Db, action: Action, now: int)
    requires ActionOk(db, action)
    ensures AllOk(db, [action], now)
  {
    assert [action][1..] == [];
  }

  /** Appending an integration event is always admissible. */
  lemma ThenDocsSync(db: Db, action: Action, views: map<string, View>, c: Caller, t: string, now: int)
    requires ActionOk(db, action)
    ensures AllOk(db, [action] + DocsSync(views, c, t), now)
  {
    var rest := DocsSync(views, c, t);
    assert ([action] + rest)[1..] == rest;
    if |rest| == 1 { OneActionOk(Perform(db, action, now), rest[0], now); }
  }

  /** A post leaves the state of every thread alone. */
  lemma PostKeepsStates(db: Db, cmd: Command, now: int, t: string)
    requires cmd.AddPost? && t in db.threads
    ensures t in Handled(db, cmd, now).threads && Handled(db, cmd, now).threads[t].state == db.threads[t].state
  {
  }

  lemma AnswerOk(db: Db, c: Caller, t: string, body: string)
    requires ViewsCurrent(db) && OpenThreadGuard(db.views, t).None?
    ensures AllOk(db, ActionsOf(db.views, c, AnswerCall(t, body)), c.now)
  {
    var actions := ActionsOf(db.views, c, AnswerCall(t, body));
    var post, answer := actions[0], actions[1];
    PostKeepsStates(db, post.cmd, c.now, t);
    assert actions[1..] == [answer] + DocsSync(db.views, c, t);
    ThenDocsSync(Perform(db, post, c.now), answer, db.views, c, t, c.now);
  }

  /** Opening a thread, posting, closing and integration events are admissible whatever the threads are. */
  predicate AlwaysOk(action: Action) {
    action.Execute? ==> action.cmd.OpenThread? || action.cmd.AddPost? || action.cmd.CloseThread?
  }

  lemma {:induction false} AlwaysOkActions(db: Db, actions: seq<Action>, now: int)
    requires forall i :: 0 <= i < |actions| ==> AlwaysOk(actions[i])
    ensures AllOk(db, actions, now)
    decreases |actions|
  {
    if |actions| > 0 {
      assert AlwaysOk(actions[0]);
      forall i | 0 <= i < |actions[1..]|
        ensures AlwaysOk(actions[1..][i])
      {
        assert actions[1..][i] == actions[i + 1];
      }
      AlwaysOkActions(Perform(db, actions[0], now), actions[1..], now);
    }
  }

  lemma AlwaysOkCall(views: map<string, View>, c: Caller, call: Call)
    requires call.SignalCall? || call.CloseCall?
    ensures forall i :: 0 <= i < |ActionsOf(views, c, call)| ==> AlwaysOk(ActionsOf(views, c, call)[i])
  {
  }

  lemma OneCommandCall(db: Db, c: Caller, call: Call)
    requires ViewsCurrent(db) && Guard(db.views, call).None?
    requires !call.AnswerCall? && !call.SignalCall? && !call.CloseCall?
    ensures var actions := ActionsOf(db.views, c, call); |actions| == 1 && ActionOk(db, actions[0])
  {
  }

  /** The guards admit only calls whose actions are admissible. */
  lemma GuardedActionsOk(db: Db, c: Caller, call: Call)
    requires ViewsCurrent(db) && Guard(db.views, call).None?
    ensures AllOk(db, ActionsOf(db.views, c, call), c.now)
  {
    var actions := ActionsOf(db.views, c, call);
    if call.AnswerCall? {
      AnswerOk(db, c, call.t, call.body);
    } else if call.SignalCall? || call.CloseCall? {
      AlwaysOkCall(db.views, c, call);
      AlwaysOkActions(db, actions, c.now);
    } else {
      OneCommandCall(db, c, call);
      OneActionOk(db, actions[0], c.now);
      assert actions == [actions[0]];
    }
  }

  /** Every service call keeps the chain of legal transitions and everything a closed thread freezes. */
  lemma CallKeepsLifecycle(db: Db, c: Caller, call: Call)
    requires LifecycleInv(db)
    ensures LifecycleInv(Served(db, c, call)) && ClosedKept(db.threads, Served(db, c, call).threads)
  {
    var actions := ServedActions(db, c, call);
    PerformAllKeepsLifecycle(db, actions, c.now);
  }

  /** A call performs admissible actions, or none when its guard refuses it. */
  lemma ServedActions(db: Db, c: Caller, call: Call) returns (actions: seq<Action>)
    requires ViewsCurrent(db)
    ensures AllOk(db, actions, c.now) && Served(db, c, call) == PerformAll(db, actions, c.now)
  {
    actions := [];
    if Guard(db.views, call).None? {
      actions := ActionsOf(db.views, c, call);
      GuardedActionsOk(db, c, call);
    }
  }

  function ServedAll(db: Db, calls: seq<(Caller, Call)>): Db {
    if |calls| == 0 then db
    else Served(ServedAll(db, calls[..|calls| - 1]), calls[|calls| - 1].0, calls[|calls| - 1].1)
  }

  /** Over any sequence of serialized calls each thread's recorded transitions chain from `new`, all are allowed although
      the store never checks one, and a thread once closed stays closed with its priority and assignee. */
  lemma {:induction false} RunsKeepLifecycle(calls: seq<(Caller, Call)>, n: nat)
    requires n <= |calls|
    ensures LifecycleInv(ServedAll(EmptyDb, calls))
    ensures ClosedKept(ServedAll(EmptyDb, calls[..n]).threads, ServedAll(EmptyDb, calls).threads)
    decreases |calls|
  {
    if |calls| > 0 {
      var before, last := calls[..|calls| - 1], calls[|calls| - 1];
      RunsKeepLifecycle(before, if n < |calls| then n else 0);
      CallKeepsLifecycle(ServedAll(EmptyDb, before), last.0, last.1);
      if n < |calls| { assert before[..n] == calls[..n]; } else { assert calls[..n] == calls; }
    }
  }

  /** The store commits whatever transition it is given: an accepted state change keeps the chain legal exactly when the
      transition from the thread's state at that moment is allowed. */
  lemma StoreChecksNothing(db: Db, env: Envelope, toState: ThreadState, clock: int)
    requires LifecycleInv(db) && Refusal(db, ChangeState(env, toState)).None?
    ensures var db' := Handled(db, ChangeState(env, toState), clock);
            && db'.threads[env.threadId].state == toState
            && (Chained(db'.transitions) <==> Allowed(db.threads[env.threadId].state, toState))
  {
    var cmd := ChangeState(env, toState);
    var tr := Transition(env.threadId, env.eventId, db.threads[env.threadId].state, toState);
    HandledTables(db, cmd, clock);
    HandledFits(db, cmd);
    if Allowed(tr.fromState, toState) {
      TransitionsAppend(db.transitions, tr);
    } else {
      assert (db.transitions + [tr])[|db.transitions|] == tr;
    }
  }

  /** The same for every command: delivered at whatever moment, it keeps chains, transitions and closed threads exactly when it
      is admissible then. A state change must be allowed, and an assignment or a priority must not alter a closed thread. */
  lemma HandledKeepsExactly(db: Db, cmd: Command, clock: int)
    requires LifecycleInv(db) && Refusal(db, cmd).None?
    ensures var db' := Handled(db, cmd, clock);
            LifecycleInv(db') && ClosedKept(db.threads, db'.threads) <==> Admissible(db.threads, cmd)
  {
    if Admissible(db.threads, cmd) {
      HandledKeepsLifecycle(db, cmd, clock);
    } else {
      HandledTables(db, cmd, clock);
      HandledFits(db, cmd);
      if cmd.ChangeState? {
        StoreChecksNothing(db, cmd.env, cmd.toState, clock);
      } else {
        assert !Frozen(db.threads[cmd.env.threadId], Handled(db, cmd, clock).threads[cmd.env.threadId]);
      }
    }
  }

  /** So serialization is needed: a state change issued while the thread was new, but delivered after a close, reopens it. */
  lemma LateCommandReopens(db: Db, env: Envelope, clock: int)
    requires LifecycleInv(db) && Refusal(db, ChangeState(env, Triaged)).None? && db.threads[env.threadId].state == Closed
    ensures Allowed(New, Triaged)
    ensures var db' := Handled(db, ChangeState(env, Triaged), clock);
            db'.threads[env.threadId].state == Triaged && !Chained(db'.transitions) && !ClosedKept(db.threads, db'.threads)
  {
    StoreChecksNothing(db, env, Triaged, clock);
  }

  /** The service object. Its store is the only thing a call changes. */
  class Service {
    const store: Store

    constructor (store: Store)
      ensures this.store == store
    {
      this.store := store;
    }

    /** Dispatches a call's actions one after the other, each handled before the next. */
    method Act(actions: seq<Action>, now: int)
      modifies store
      ensures store.Tables() == PerformAll(old(store.Tables()), actions, now)
    {
      for i := 0 to |actions|
        invariant PerformAll(store.Tables(), actions[i..], now) == PerformAll(old(store.Tables()), actions, now)
      {
        assert actions[i..][1..] == actions[i + 1..];
        match actions[i]
        case Execute(cmd) => var _ := store.Execute(cmd, now);
        case Integrate(env) => var _ := store.AppendIntegration(env, "docs", now);
      }
    }

    /** The calls that are one guard and one command: open, post, assign, set priority, control signal. */
    method Serve(c: Caller, call: Call) returns (reply: Reply)
      modifies store
      ensures store.Tables() == Served(old(store.Tables()), c, call)
      ensures reply == match Guard(old(store.views), call) { case None => Accepted case Some(e) => Refused(e) }
    {
      var guard := Guard(store.views, call);
      if guard.Some? { return Refused(guard.value); }
      Act(ActionsOf(store.views, c, call), c.now);
      return Accepted;
    }

    /** ForumChangeState. */
    method ChangeThreadState(c: Caller, t: string, toState: ThreadState) returns (reply: Reply)
      modifies store
      ensures store.Tables() == Served(old(store.Tables()), c, StateCall(t, toState))
      ensures reply.Accepted? <==> Guard(old(store.views), StateCall(t, toState)).None?
    {
      if IsBlank(t) { return Refused(ThreadIdRequired); }
      if t !in store.views { return Refused(NotFound); }
      var current := store.views[t].base;
      if !Allowed(current.state, toState) { return Refused(NotAllowed(current.state, toState)); }
      Act(ActionsOf(store.views, c, StateCall(t, toState)), c.now);
      return Accepted;
    }

    /** ForumAnswerThread. */
    method AnswerThread(c: Caller, t: string, body: string) returns (reply: Reply)
      modifies store
      ensures store.Tables() == Served(old(store.Tables()), c, AnswerCall(t, body))
      ensures reply.Accepted? <==> Guard(old(store.views), AnswerCall(t, body)).None?
    {
      if IsBlank(t) { return Refused(ThreadIdRequired); }
      if t !in store.views { return Refused(NotFound); }
      if store.views[t].base.state == Closed { return Refused(ThreadClosed); }
      Act(ActionsOf(store.views, c, AnswerCall(t, body)), c.now);
      return Accepted;
    }

    /** ForumCloseThread: a closed thread is returned as it is. */
    method CloseThread(c: Caller, t: string) returns (reply: Reply)
      modifies store
      ensures store.Tables() == Served(old(store.Tables()), c, CloseCall(t))
      ensures reply.Accepted? <==> Guard(old(store.views), CloseCall(t)).None?
    {
      if IsBlank(t) { return Refused(ThreadIdRequired); }
      if t !in store.views { return Refused(NotFound); }
      if store.views[t].base.state == Closed { return Accepted; }
      Act(ActionsOf(store.views, c, CloseCall(t)), c.now);
      return Accepted;
    }
  }
}
