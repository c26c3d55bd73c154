/** What the calls of the forum service do, seen from outside: which ones are accepted, and what an accepted one leaves in the
    tables when its commands are handled before it returns. */
module ForumCalls {
  import opened Options
  import opened ForumModel
  import opened ForumTables
  import opened ForumReplay
  import opened ForumStore
  import opened ForumEffects
  import opened ForumLifecycle

  /** Any change of state is allowed but out of closed, back to new, and from answered to triaged. */
  lemma AllowedExactly(from: ThreadState, to: ThreadState)
    ensures Allowed(from, to) <==> from == to || (from != Closed && to != New && !(from == Answered && to == Triaged))
  {
  }

  /** The ids of a call are taken from the clock; these are new to the log. */
  ghost predicate HasFreshIds(db: Db, c: Caller) {
    && !IsBlank(c.eventId) && !IsBlank(c.nextId) && !IsBlank(c.nextId + ".docs") && c.eventId != c.nextId && c.eventId != c.nextId + ".docs"
    && !Logged(db, c.eventId) && !Logged(db, c.nextId) && !Logged(db, c.nextId + ".docs")
  }

  /** A thread a call may write to. */
  predicate IsOpen(db: Db, t: string) {
    !IsBlank(t) && t in db.threads && db.threads[t].state != Closed
  }

  /** No thread but `t` changed, and `t` became `row`. */
  predicate OnlyThread(db: Db, db': Db, t: string, row: Thread) {
    db'.threads == db.threads[t := row]
  }

  /** The log grew by events of the thread with these ids, all by the caller and of now. */
  predicate LogGrew(db: Db, db': Db, t: string, c: Caller, ids: seq<string>) {
    && |db'.events| == |db.events| + |ids| && db'.events[..|db.events|] == db.events
    && forall k :: 0 <= k < |ids| ==>
         var e := db'.events[|db.events| + k];
         e.eventId == ids[k] && e.threadId == t && e.actorType == c.actor && e.actorName == c.name && e.occurredAt == c.now
  }

  /** What a call adds: posts, transitions and events. */
  predicate Added(db: Db, db': Db, t: string, c: Caller, posts: seq<Post>, transitions: seq<Transition>, ids: seq<string>) {
    db'.posts == db.posts + posts && db'.transitions == db.transitions + transitions && LogGrew(db, db', t, c, ids)
  }

  function DocsIds(c: Caller): seq<string> {
    if c.docsSync then [c.nextId + ".docs"] else []
  }

  // ----- One command -----

  /** What a command by the caller, of now, leaves in the base tables. */
  ghost predicate Did(db: Db, db': Db, cmd: Command, c: Caller) {
    var t := cmd.env.threadId;
    && t in db'.threads && db'.threads == db.threads[t := db'.threads[t]]
    && (if cmd.OpenThread? then IsOpened(db'.threads[t], cmd, c.now) else t in db.threads && IsUpdated(db.threads[t], db'.threads[t], cmd, c.now))
    && PostsBody(db.posts, db'.posts, cmd, c.now) && LogGrew(db, db', t, c, [cmd.env.eventId])
    && db'.transitions == db.transitions +
         (if cmd.ChangeState? || cmd.CloseThread? then
            [Transition(t, cmd.env.eventId, if t in db.threads then db.threads[t].state else New, if cmd.CloseThread? then Closed else cmd.toState)]
          else [])
  }

  predicate ByCaller(env: Envelope, c: Caller) {
    env.occurredAt == Some(c.now) && env.actorType == c.actor && env.actorName == c.name
  }

  lemma DoesDid(db: Db, db': Db, cmd: Command, seen: Thread, c: Caller)
    requires ByCaller(cmd.env, c) && Writes(db, db', cmd, seen, c.now)
    requires !cmd.OpenThread? ==> cmd.env.threadId in db.threads && seen == db.threads[cmd.env.threadId]
    ensures Did(db, db', cmd, c)
  {
    var t := cmd.env.threadId;
    assert db'.threads == db.threads[t := db'.threads[t]];
  }

  lemma Performed(db: Db, cmd: Command, c: Caller)
    requires StoreInv(db) && Runs(db, cmd) && ByCaller(cmd.env, c)
    ensures Did(db, Handled(db, cmd, c.now), cmd, c)
  {
    HandledMeaning(db, cmd, c.now);
    DoesDid(db, Handled(db, cmd, c.now), cmd, if cmd.OpenThread? then OpenedRow(cmd, 0) else db.threads[cmd.env.threadId], c);
  }

  /** The views show the threads. */
  predicate ViewsFollow(db: Db) {
    db.views.Keys == db.threads.Keys && forall t <- db.views :: db.views[t].base == db.threads[t]
  }

  /** A call whose guard passes and that is one command. */
  lemma ServedOne(db: Db, c: Caller, call: Call, cmd: Command)
    requires Guard(db.views, call).None? && ActionsOf(db.views, c, call) == [Execute(cmd)]
    ensures Served(db, c, call) == Handled(db, cmd, c.now)
  {
    PerformOne(db, Execute(cmd), c.now);
  }

  lemma ServedRefused(db: Db, c: Caller, call: Call)
    requires Guard(db.views, call).Some?
    ensures Served(db, c, call) == db
  {
  }

  /** A new command on a thread that is there runs. */
  lemma RunsOnThread(db: Db, c: Caller, cmd: Command)
    requires HasFreshIds(db, c) && cmd.env.eventId == c.eventId && (cmd.OpenThread? <==> cmd.env.threadId !in db.threads)
    ensures Runs(db, cmd)
  {
  }

  lemma LoggedAfter(db: Db, db': Db, t: string, c: Caller, ids: seq<string>, id: string)
    requires LogGrew(db, db', t, c, ids)
    ensures Logged(db', id) <==> Logged(db, id) || id in ids
  {
    if Logged(db', id) {
      var k :| 0 <= k < |db'.events| && db'.events[k].eventId == id;
      if k < |db.events| { assert db.events[k] == db'.events[k]; } else { assert ids[k - |db.events|] == id; }
    }
    if id in ids {
      var k :| 0 <= k < |ids| && ids[k] == id;
      assert db'.events[|db.events| + k] in db'.events;
    }
    if e :| e in db.events && e.eventId == id {
      var k :| 0 <= k < |db.events| && db.events[k] == e;
      assert db'.events[k] == e;
    }
  }

  lemma LogGrowsOn(db: Db, mid: Db, db': Db, t: string, c: Caller, ids: seq<string>, more: seq<string>)
    requires LogGrew(db, mid, t, c, ids) && LogGrew(mid, db', t, c, more)
    ensures LogGrew(db, db', t, c, ids + more)
  {
    forall k | 0 <= k < |ids + more|
      ensures var e := db'.events[|db.events| + k];
              e.eventId == (ids + more)[k] && e.threadId == t && e.actorType == c.actor && e.actorName == c.name && e.occurredAt == c.now
    {
      if k < |ids| { assert db'.events[|db.events| + k] == db'.events[..|mid.events|][|db.events| + k] == mid.events[|db.events| + k]; }
      else { assert db'.events[|mid.events| + (k - |ids|)].eventId == more[k - |ids|]; }
    }
    assert db'.events[..|db.events|] == db'.events[..|mid.events|][..|db.events|];
  }

  lemma PerformOne(db: Db, action: Action, now: int)
    ensures PerformAll(db, [action], now) == Perform(db, action, now)
  {
    assert [action][1..] == [];
  }

  lemma PerformMore(db: Db, action: Action, rest: seq<Action>, now: int)
    ensures PerformAll(db, [action] + rest, now) == PerformAll(Perform(db, action, now), rest, now)
  {
    assert ([action] + rest)[1..] == rest;
  }

  // ----- Calls that are one command -----

  /** What a command that opens no thread leaves, said at once. */
  lemma DidMeaning(db: Db, db': Db, cmd: Command, c: Caller)
    requires Did(db, db', cmd, c) && ByCaller(cmd.env, c) && !cmd.OpenThread?
    ensures var t, to := cmd.env.threadId, if cmd.ChangeState? then cmd.toState else Closed;
            t in db.threads &&
            var row := db.threads[t].(updatedAt := c.now);
            match cmd
            case AssignThread(_, kind, name) =>
              OnlyThread(db, db', t, row.(assigneeType := Some(kind), assigneeName := name)) && Added(db, db', t, c, [], [], [cmd.env.eventId])
            case SetPriority(_, priority) => OnlyThread(db, db', t, row.(priority := priority)) && Added(db, db', t, c, [], [], [cmd.env.eventId])
            case AddPost(_, body) =>
              OnlyThread(db, db', t, row) && Added(db, db', t, c, [Post(t, cmd.env.eventId, c.actor, c.name, body, c.now)], [], [cmd.env.eventId])
            case _ =>
              && OnlyThread(db, db', t, row.(state := to, closedAt := if to == Closed then Some(c.now) else None))
              && Added(db, db', t, c, [], [Transition(t, cmd.env.eventId, db.threads[t].state, to)], [cmd.env.eventId])
  {
    assert db'.posts == db.posts + (if cmd.AddPost? then [Post(cmd.env.threadId, cmd.env.eventId, c.actor, c.name, cmd.body, c.now)] else []);
  }

  /** Opening a thread. */
  lemma OpenMeaning(db: Db, c: Caller, t: string, runId: string, ticket: string, agent: string, title: string, body: string, priority: Priority)
    requires StoreInv(db) && HasFreshIds(db, c)
    ensures var db' := Served(db, c, OpenCall(t, runId, ticket, agent, title, body, priority));
            if IsBlank(ticket) || IsBlank(title) || IsBlank(body) || t in db.threads then db' == db
            else
              && OnlyThread(db, db', t, Thread(ticket, runId, agent, title, New, priority, None, "", c.actor, c.name, c.now, c.now, None))
              && Added(db, db', t, c, [Post(t, c.eventId, c.actor, c.name, body, c.now)], [], [c.eventId])
  {
    var call := OpenCall(t, runId, ticket, agent, title, body, priority);
    if IsBlank(ticket) || IsBlank(title) || IsBlank(body) {
      ServedRefused(db, c, call);
    } else {
      var env := Envelope(c.eventId, "forum.thread.opened", Some(c.now), t, runId, ticket, agent, c.actor, c.name);
      var cmd := OpenThread(env, title, body, Some(priority));
      ServedOne(db, c, call, cmd);
      if t in db.threads { HandledMeaning(db, cmd, c.now); } else {
        RunsOnThread(db, c, cmd);
        Performed(db, cmd, c);
      }
    }
  }

  /** An accepted call that is one command on a thread that is there. */
  lemma AcceptedOne(db: Db, c: Caller, call: Call, cmd: Command)
    requires StoreInv(db) && HasFreshIds(db, c) && Guard(db.views, call).None? && ActionsOf(db.views, c, call) == [Execute(cmd)]
    requires !cmd.OpenThread? && cmd.env.threadId in db.threads && cmd.env.eventId == c.eventId && ByCaller(cmd.env, c)
    ensures Served(db, c, call) == Handled(db, cmd, c.now) && Did(db, Handled(db, cmd, c.now), cmd, c)
  {
    RunsOnThread(db, c, cmd);
    ServedOne(db, c, call, cmd);
    Performed(db, cmd, c);
  }

  /** The command of a call that is one. */
  function CommandOf(views: map<string, View>, c: Caller, call: Call): Command
    requires call.PostCall? || call.AssignCall? || call.PriorityCall? || call.StateCall?
  {
    match call
    case PostCall(t, body) => AddPost(EnvelopeFor(views, c, c.eventId, "forum.post.added", t), body)
    case AssignCall(t, kind, name) => AssignThread(EnvelopeFor(views, c, c.eventId, "forum.assigned", t), kind, name)
    case PriorityCall(t, priority) => SetPriority(EnvelopeFor(views, c, c.eventId, "forum.priority.changed", t), priority)
    case StateCall(t, state) => ChangeState(EnvelopeFor(views, c, c.eventId, "forum.state.changed", t), state)
  }

  lemma IsOneCommand(views: map<string, View>, c: Caller, call: Call)
    requires call.PostCall? || call.AssignCall? || call.PriorityCall? || call.StateCall?
    ensures ActionsOf(views, c, call) == [Execute(CommandOf(views, c, call))]
    ensures var env := CommandOf(views, c, call).env; env.threadId == call.t && env.eventId == c.eventId && ByCaller(env, c)
  {
  }

  lemma ServedMeaning(db: Db, c: Caller, call: Call)
    requires StoreInv(db) && HasFreshIds(db, c) && (call.PostCall? || call.AssignCall? || call.PriorityCall? || call.StateCall?)
    ensures Guard(db.views, call).Some? ==> Served(db, c, call) == db
    ensures Guard(db.views, call).None? ==>
              Did(db, Served(db, c, call), CommandOf(db.views, c, call), c) && ByCaller(CommandOf(db.views, c, call).env, c)
  {
    IsOneCommand(db.views, c, call);
    if Guard(db.views, call).None? {
      GuardFinds(db, call);
      AcceptedOne(db, c, call, CommandOf(db.views, c, call));
    } else {
      ServedRefused(db, c, call);
    }
  }

  lemma GuardFinds(db: Db, call: Call)
    requires ViewsFollow(db) && (call.PostCall? || call.AssignCall? || call.PriorityCall? || call.StateCall?) && Guard(db.views, call).None?
    ensures call.t in db.threads
  {
  }

  /** The calls on a thread that are accepted. */
  lemma GuardExactly(db: Db, call: Call)
    requires ViewsFollow(db) && (call.PostCall? || call.AssignCall? || call.PriorityCall?)
    ensures Guard(db.views, call).None? <==>
            IsOpen(db, call.t) && (call.PostCall? ==> !IsBlank(call.body)) && (call.AssignCall? ==> !IsBlank(call.toName))
  {
  }

  /** Posting to an open thread. */
  lemma PostMeaning(db: Db, c: Caller, t: string, body: string)
    requires StoreInv(db) && HasFreshIds(db, c)
    ensures var db' := Served(db, c, PostCall(t, body));
            if !IsOpen(db, t) || IsBlank(body) then db' == db
            else
              && OnlyThread(db, db', t, db.threads[t].(updatedAt := c.now))
              && Added(db, db', t, c, [Post(t, c.eventId, c.actor, c.name, body, c.now)], [], [c.eventId])
  {
    var call := PostCall(t, body);
    var cmd := CommandOf(db.views, c, call);
    GuardExactly(db, call);
    ServedMeaning(db, c, call);
    if Guard(db.views, call).None? { DidMeaning(db, Served(db, c, call), cmd, c); }
  }

  /** Assigning an open thread. */
  lemma AssignMeaning(db: Db, c: Caller, t: string, toType: Actor, toName: string)
    requires StoreInv(db) && HasFreshIds(db, c)
    ensures var db' := Served(db, c, AssignCall(t, toType, toName));
            if !IsOpen(db, t) || IsBlank(toName) then db' == db
            else
              && OnlyThread(db, db', t, db.threads[t].(assigneeType := Some(toType), assigneeName := toName, updatedAt := c.now))
              && Added(db, db', t, c, [], [], [c.eventId])
  {
    var call := AssignCall(t, toType, toName);
    var cmd := CommandOf(db.views, c, call);
    GuardExactly(db, call);
    ServedMeaning(db, c, call);
    if Guard(db.views, call).None? { DidMeaning(db, Served(db, c, call), cmd, c); }
  }

  /** Setting an open thread's priority. */
  lemma PriorityMeaning(db: Db, c: Caller, t: string, toPriority: Priority)
    requires StoreInv(db) && HasFreshIds(db, c)
    ensures var db' := Served(db, c, PriorityCall(t, toPriority));
            if !IsOpen(db, t) then db' == db
            else
              && OnlyThread(db, db', t, db.threads[t].(priority := toPriority, updatedAt := c.now))
              && Added(db, db', t, c, [], [], [c.eventId])
  {
    var call := PriorityCall(t, toPriority);
    var cmd := CommandOf(db.views, c, call);
    GuardExactly(db, call);
    ServedMeaning(db, c, call);
    if Guard(db.views, call).None? { DidMeaning(db, Served(db, c, call), cmd, c); }
  }

  /** A state change is made exactly if the thread is there and the change is none out of closed, back to new, or from answered to
      triaged; one to the state the thread is in already is made too. */
  lemma StateMeaning(db: Db, c: Caller, t: string, toState: ThreadState)
    requires StoreInv(db) && HasFreshIds(db, c)
    ensures var db' := Served(db, c, StateCall(t, toState));
            if IsBlank(t) || t !in db.threads then db' == db
            else
              var state := db.threads[t].state;
              if state != toState && (state == Closed || toState == New || (state == Answered && toState == Triaged)) then db' == db
              else
                && OnlyThread(db, db', t, db.threads[t].(state := toState, updatedAt := c.now,
                                                         closedAt := if toState == Closed then Some(c.now) else None))
                && Added(db, db', t, c, [], [Transition(t, c.eventId, state, toState)], [c.eventId])
  {
    var call := StateCall(t, toState);
    var cmd := CommandOf(db.views, c, call);
    if !IsBlank(t) && t in db.threads { AllowedExactly(db.threads[t].state, toState); }
    ServedMeaning(db, c, call);
    if Guard(db.views, call).None? { DidMeaning(db, Served(db, c, call), cmd, c); }
  }

  // ----- Calls that are more -----

  /** The request to sync the docs, if the policy has it made, concerns the log only. */
  lemma DocsAdded(db: Db, c: Caller, views: map<string, View>, t: string)
    requires !IsBlank(c.nextId + ".docs") && !Logged(db, c.nextId + ".docs")
    ensures var db' := PerformAll(db, DocsSync(views, c, t), c.now);
            db' == db.(events := db'.events) && LogGrew(db, db', t, c, DocsIds(c))
  {
    if c.docsSync {
      var env := EnvelopeFor(views, c, c.nextId + ".docs", "forum.integration.docs_sync.requested", t);
      PerformOne(db, Integrate(env), c.now);
      Requested(db, env, c);
    }
  }

  lemma Requested(db: Db, env: Envelope, c: Caller)
    requires !IsBlank(env.eventId) && !Logged(db, env.eventId) && ByCaller(env, c)
    ensures var db' := IntegrationTx(db, env, "docs", c.now); db' == db.(events := db'.events) && LogGrew(db, db', env.threadId, c, [env.eventId])
  {
    IntegrationMeaning(db, env, "docs", c.now);
  }

  /** A command on the thread, and then the request. */
  lemma ThenDocs(db: Db, c: Caller, views: map<string, View>, cmd: Command)
    requires StoreInv(db) && Runs(db, cmd) && ByCaller(cmd.env, c) && cmd.env.eventId != c.nextId + ".docs"
    requires !IsBlank(c.nextId + ".docs") && !Logged(db, c.nextId + ".docs")
    ensures var t := cmd.env.threadId;
            var mid, db' := Handled(db, cmd, c.now), PerformAll(db, [Execute(cmd)] + DocsSync(views, c, t), c.now);
            && Did(db, mid, cmd, c) && db' == mid.(events := db'.events) && LogGrew(db, db', t, c, [cmd.env.eventId] + DocsIds(c))
  {
    var t, mid := cmd.env.threadId, Handled(db, cmd, c.now);
    PerformMore(db, Execute(cmd), DocsSync(views, c, t), c.now);
    Performed(db, cmd, c);
    LoggedAfter(db, mid, t, c, [cmd.env.eventId], c.nextId + ".docs");
    DocsAdded(mid, c, views, t);
    LogGrowsOn(db, mid, PerformAll(mid, DocsSync(views, c, t), c.now), t, c, [cmd.env.eventId], DocsIds(c));
  }

  /** Closing an open thread closes it and asks for the docs to be synced; a closed one is left as it is. */
  lemma CloseMeaning(db: Db, c: Caller, t: string)
    requires StoreInv(db) && HasFreshIds(db, c)
    ensures var db' := Served(db, c, CloseCall(t));
            if !IsOpen(db, t) then db' == db
            else
              && OnlyThread(db, db', t, db.threads[t].(state := Closed, updatedAt := c.now, closedAt := Some(c.now)))
              && Added(db, db', t, c, [], [Transition(t, c.eventId, db.threads[t].state, Closed)], [c.eventId] + DocsIds(c))
  {
    if IsOpen(db, t) {
      var close := CloseThread(EnvelopeFor(db.views, c, c.eventId, "forum.thread.closed", t));
      CloseActions(db, c, t);
      RunsOnThread(db, c, close);
      ThenDocs(db, c, db.views, close);
      DidMeaning(db, Handled(db, close, c.now), close, c);
    }
  }

  lemma CloseActions(db: Db, c: Caller, t: string)
    requires ViewsFollow(db)
    ensures !IsOpen(db, t) ==> Served(db, c, CloseCall(t)) == db
    ensures IsOpen(db, t) ==>
              var close := CloseThread(EnvelopeFor(db.views, c, c.eventId, "forum.thread.closed", t));
              Served(db, c, CloseCall(t)) == PerformAll(db, [Execute(close)] + DocsSync(db.views, c, t), c.now)
  {
  }

  lemma ServedActions(db: Db, c: Caller, call: Call, actions: seq<Action>)
    requires Guard(db.views, call).None? && ActionsOf(db.views, c, call) == actions
    ensures Served(db, c, call) == PerformAll(db, actions, c.now)
  {
  }

  lemma OpenGuard(db: Db, t: string)
    requires ViewsFollow(db)
    ensures !IsBlank(t) ==> (OpenThreadGuard(db.views, t).None? <==> IsOpen(db, t))
  {
  }

  /** The post of an answer, or of a signal, and what the rest of the call may build on. */
  lemma PostedFirst(db: Db, c: Caller, post: Command) returns (mid: Db)
    requires StoreInv(db) && HasFreshIds(db, c) && post.AddPost? && post.env.threadId in db.threads
    requires post.env.eventId == c.eventId && ByCaller(post.env, c)
    ensures mid == Handled(db, post, c.now) && StoreInv(mid) && Did(db, mid, post, c)
    ensures !Logged(mid, c.nextId) && !Logged(mid, c.nextId + ".docs")
  {
    mid := Handled(db, post, c.now);
    RunsOnThread(db, c, post);
    Performed(db, post, c);
    HandledKeepsStore(db, post, c.now);
    StillFresh(db, mid, post.env.threadId, c);
  }

  lemma StillFresh(db: Db, mid: Db, t: string, c: Caller)
    requires HasFreshIds(db, c) && LogGrew(db, mid, t, c, [c.eventId])
    ensures !Logged(mid, c.nextId) && !Logged(mid, c.nextId + ".docs")
  {
    LoggedAfter(db, mid, t, c, [c.eventId], c.nextId);
    LoggedAfter(db, mid, t, c, [c.eventId], c.nextId + ".docs");
  }

  /** What a post and then an answer leave. */
  lemma PostThenAnswer(db: Db, mid: Db, answered: Db, c: Caller, post: Command, answer: Command)
    requires post.AddPost? && answer.ChangeState? && answer.toState == Answered && post.env.threadId == answer.env.threadId
    requires Did(db, mid, post, c) && Did(mid, answered, answer, c) && post.env.eventId == c.eventId && answer.env.eventId == c.nextId
    requires ByCaller(post.env, c) && ByCaller(answer.env, c)
    ensures var t := post.env.threadId;
            && t in db.threads && OnlyThread(db, answered, t, db.threads[t].(state := Answered, updatedAt := c.now, closedAt := None))
            && answered.posts == db.posts + [Post(t, c.eventId, c.actor, c.name, post.body, c.now)]
            && answered.transitions == db.transitions + [Transition(t, c.nextId, db.threads[t].state, Answered)]
  {
    DidMeaning(db, mid, post, c);
    DidMeaning(mid, answered, answer, c);
  }

  /** Answering an open thread posts, changes its state and asks for the docs to be synced, in this order. */
  lemma AnswerMeaning(db: Db, c: Caller, t: string, body: string)
    requires StoreInv(db) && HasFreshIds(db, c)
    ensures var db' := Served(db, c, AnswerCall(t, body));
            if !IsOpen(db, t) then db' == db
            else
              && OnlyThread(db, db', t, db.threads[t].(state := Answered, updatedAt := c.now, closedAt := None))
              && Added(db, db', t, c, [Post(t, c.eventId, c.actor, c.name, body, c.now)],
                       [Transition(t, c.nextId, db.threads[t].state, Answered)], [c.eventId] + ([c.nextId] + DocsIds(c)))
  {
    OpenGuard(db, t);
    if !IsOpen(db, t) { ServedRefused(db, c, AnswerCall(t, body)); } else { AcceptedAnswer(db, c, t, body); }
  }

  lemma AnswerActions(db: Db, c: Caller, t: string, body: string, post: Command, answer: Command)
    requires Guard(db.views, AnswerCall(t, body)).None?
    requires post == AddPost(EnvelopeFor(db.views, c, c.eventId, "forum.post.added", t), body)
    requires answer == ChangeState(EnvelopeFor(db.views, c, c.nextId, "forum.state.changed", t), Answered)
    ensures Served(db, c, AnswerCall(t, body)) == PerformAll(db, [Execute(post)] + ([Execute(answer)] + DocsSync(db.views, c, t)), c.now)
  {
    assert ActionsOf(db.views, c, AnswerCall(t, body)) == [Execute(post)] + ([Execute(answer)] + DocsSync(db.views, c, t));
  }

  lemma AcceptedAnswer(db: Db, c: Caller, t: string, body: string)
    requires StoreInv(db) && HasFreshIds(db, c) && IsOpen(db, t) && Guard(db.views, AnswerCall(t, body)).None?
    ensures var db' := Served(db, c, AnswerCall(t, body));
            && OnlyThread(db, db', t, db.threads[t].(state := Answered, updatedAt := c.now, closedAt := None))
            && Added(db, db', t, c, [Post(t, c.eventId, c.actor, c.name, body, c.now)],
                     [Transition(t, c.nextId, db.threads[t].state, Answered)], [c.eventId] + ([c.nextId] + DocsIds(c)))
  {
    var post := AddPost(EnvelopeFor(db.views, c, c.eventId, "forum.post.added", t), body);
    var answer := ChangeState(EnvelopeFor(db.views, c, c.nextId, "forum.state.changed", t), Answered);
    var rest := [Execute(answer)] + DocsSync(db.views, c, t);
    AnswerActions(db, c, t, body, post, answer);
    PerformMore(db, Execute(post), rest, c.now);
    var mid := PostedFirst(db, c, post);
    ThenDocs(mid, c, db.views, answer);
    PostThenAnswer(db, mid, Handled(mid, answer, c.now), c, post, answer);
    LogGrowsOn(db, mid, PerformAll(mid, rest, c.now), t, c, [c.eventId], [c.nextId] + DocsIds(c));
  }

  // ----- Control signals -----

  /** The system, as it opens a control thread for a caller. */
  function SystemFor(c: Caller): Caller {
    c.(actor := System, name := "metawsm", eventId := c.nextId)
  }

  /** A signal is posted to the agent's control thread, whatever state that is in; one that is missing is opened first, by the
      system. */
  lemma SignalMeaning(db: Db, c: Caller, t: string, runId: string, ticket: string, agent: string, body: string)
    requires StoreInv(db) && HasFreshIds(db, c)
    ensures var db' := Served(db, c, SignalCall(t, runId, ticket, agent, body));
            var post := Post(t, c.eventId, c.actor, c.name, body, c.now);
            if IsBlank(runId) || IsBlank(agent) || IsBlank(ticket) then db' == db
            else if t in db.threads then OnlyThread(db, db', t, db.threads[t].(updatedAt := c.now)) && Added(db, db', t, c, [post], [], [c.eventId])
            else
              && t in db'.threads && db'.threads == db.threads[t := db'.threads[t]] && IsControl(db'.threads[t], runId, ticket, agent, c.now)
              && |db'.posts| == |db.posts| + 2 && db'.posts[..|db.posts|] == db.posts && db'.posts[|db.posts| + 1] == post
              && db'.transitions == db.transitions
              && exists mid :: LogGrew(db, mid, t, SystemFor(c), [c.nextId]) && LogGrew(mid, db', t, c, [c.eventId])
  {
    var call := SignalCall(t, runId, ticket, agent, body);
    var post := AddPost(SignalEnvelope(db.views, c, call), body);
    if IsBlank(runId) || IsBlank(agent) || IsBlank(ticket) {
      ServedRefused(db, c, call);
    } else if t in db.threads {
      assert [] + [Execute(post)] == [Execute(post)];
      AcceptedOne(db, c, call, post);
      DidMeaning(db, Handled(db, post, c.now), post, c);
    } else {
      SignalOpens(db, c, call, post);
    }
  }

  /** A control thread as the system opens it. */
  predicate IsControl(row: Thread, runId: string, ticket: string, agent: string, now: int) {
    && row.runId == runId && row.ticket == ticket && row.agentName == agent && row.title == "Control thread for " + agent + " in " + runId
    && row.state == New && row.priority == Normal && row.assigneeType == None && row.openedByType == System && row.openedByName == "metawsm"
    && row.openedAt == row.updatedAt == now && row.closedAt == None
  }

  lemma SignalOpens(db: Db, c: Caller, call: Call, post: Command)
    requires StoreInv(db) && HasFreshIds(db, c) && call.SignalCall? && Guard(db.views, call).None? && call.t !in db.threads
    requires post == AddPost(SignalEnvelope(db.views, c, call), call.body)
    ensures var t, db' := call.t, Served(db, c, call);
            && t in db'.threads && db'.threads == db.threads[t := db'.threads[t]]
            && IsControl(db'.threads[t], call.runId, call.ticket, call.agent, c.now)
            && |db'.posts| == |db.posts| + 2 && db'.posts[..|db.posts|] == db.posts
            && db'.posts[|db.posts| + 1] == Post(t, c.eventId, c.actor, c.name, call.body, c.now)
            && db'.transitions == db.transitions
            && exists mid :: LogGrew(db, mid, t, SystemFor(c), [c.nextId]) && LogGrew(mid, db', t, c, [c.eventId])
  {
    var open := ControlOpen(c, call);
    ServedActions(db, c, call, [Execute(open)] + [Execute(post)]);
    PerformMore(db, Execute(open), [Execute(post)], c.now);
    var mid := OpenedFirst(db, c, open);
    PerformOne(mid, Execute(post), c.now);
    PostedAfter(mid, c, post);
    OpenThenPost(db, mid, Handled(mid, post, c.now), c, open, post);
  }

  lemma OpenedFirst(db: Db, c: Caller, open: Command) returns (mid: Db)
    requires StoreInv(db) && HasFreshIds(db, c) && open.OpenThread? && open.env.threadId !in db.threads
    requires open.env.eventId == c.nextId && ByCaller(open.env, SystemFor(c))
    ensures mid == Handled(db, open, c.now) && StoreInv(mid) && Did(db, mid, open, SystemFor(c)) && !Logged(mid, c.eventId)
  {
    mid := Handled(db, open, c.now);
    Performed(db, open, SystemFor(c));
    HandledKeepsStore(db, open, c.now);
    LoggedAfter(db, mid, open.env.threadId, SystemFor(c), [c.nextId], c.eventId);
  }

  lemma PostedAfter(mid: Db, c: Caller, post: Command)
    requires StoreInv(mid) && post.AddPost? && post.env.threadId in mid.threads && post.env.eventId == c.eventId && ByCaller(post.env, c)
    requires !IsBlank(c.eventId) && !Logged(mid, c.eventId)
    ensures Did(mid, Handled(mid, post, c.now), post, c)
  {
    Performed(mid, post, c);
  }

  lemma OpenThenPost(db: Db, mid: Db, db': Db, c: Caller, open: Command, post: Command)
    requires open.OpenThread? && post.AddPost? && post.env.threadId == open.env.threadId
    requires open.env.eventId == c.nextId && post.env.eventId == c.eventId
    requires Did(db, mid, open, SystemFor(c)) && Did(mid, db', post, c) && ByCaller(post.env, c) && ByCaller(open.env, SystemFor(c))
    requires open.title == "Control thread for " + open.env.agentName + " in " + open.env.runId && open.priority == Some(Normal)
    ensures var t := open.env.threadId;
            && t in db'.threads && db'.threads == db.threads[t := db'.threads[t]]
            && IsControl(db'.threads[t], open.env.runId, open.env.ticket, open.env.agentName, c.now)
            && |db'.posts| == |db.posts| + 2 && db'.posts[..|db.posts|] == db.posts
            && db'.posts[|db.posts| + 1] == Post(t, c.eventId, c.actor, c.name, post.body, c.now)
            && db'.transitions == db.transitions
            && LogGrew(db, mid, t, SystemFor(c), [c.nextId]) && LogGrew(mid, db', t, c, [c.eventId])
  {
    DidMeaning(mid, db', post, c);
    assert mid.transitions == db.transitions;
  }
}
