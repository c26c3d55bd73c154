/** What a command does, said column by column: when it runs, the event it logs, the rows it writes, the derived rows its
    refreshes leave, and what it makes of the unanswered queue. */
module ForumEffects {
  import opened Options
  import opened ForumModel
  import opened ForumTables
  import opened ForumReplay
  import opened ForumStore
  import opened ForumQueue
  import opened ForumDerived
  import P = ForumProjections
  import C = ForumCommands

  // ----- When a command runs -----

  ghost predicate Logged(db: Db, id: string) {
    exists e :: e in db.events && e.eventId == id
  }

  /** The command is new, and its thread exists unless it opens one. */
  ghost predicate Runs(db: Db, cmd: Command) {
    !IsBlank(cmd.env.eventId) && !Logged(db, cmd.env.eventId) && (cmd.OpenThread? <==> cmd.env.threadId !in db.threads)
  }

  lemma LoggedExactly(db: Db, id: string)
    ensures Logged(db, id) <==> HasEvent(db.events, id)
  {
    if HasEvent(db.events, id) {
      var i :| 0 <= i < |db.events| && db.events[i].eventId == id;
      assert db.events[i] in db.events;
    }
  }

  /** The keys reject a logged event id, and a thread id that is taken, and nothing else. */
  lemma ConflictsExactly(db: Db, cmd: Command)
    requires db.views.Keys == db.threads.Keys && PostsLinked(db)
    ensures Conflicts(db, cmd) <==> Logged(db, cmd.env.eventId) || (cmd.OpenThread? && cmd.env.threadId in db.threads)
  {
    LoggedExactly(db, cmd.env.eventId);
    if i :| 0 <= i < |db.posts| && db.posts[i].eventId == cmd.env.eventId { assert HasEvent(db.events, db.posts[i].eventId); }
  }

  lemma RunsExactly(db: Db, cmd: Command)
    requires db.views.Keys == db.threads.Keys && PostsLinked(db)
    ensures Refusal(db, cmd).None? <==> Runs(db, cmd)
  {
    LoggedExactly(db, cmd.env.eventId);
    ConflictsExactly(db, cmd);
  }

  /** What a command method returns, error by error. */
  lemma OutcomeExactly(db: Db, cmd: Command)
    requires db.views.Keys == db.threads.Keys && PostsLinked(db)
    ensures var blank, logged, known := IsBlank(cmd.env.eventId), Logged(db, cmd.env.eventId), cmd.env.threadId in db.threads;
            && (OutcomeOf(db, cmd) == Done <==> !blank && (logged || (Runs(db, cmd) && !IsBlank(cmd.env.threadId))))
            && (OutcomeOf(db, cmd) == Rejected(BlankEventId) <==> blank)
            && (OutcomeOf(db, cmd) == Rejected(ThreadNotFound) <==> !blank && !logged && !cmd.OpenThread? && !known)
            && (OutcomeOf(db, cmd) == Rejected(KeyConflict) <==> !blank && !logged && cmd.OpenThread? && known)
            && (OutcomeOf(db, cmd) == Rejected(BlankThreadId) <==> Runs(db, cmd) && IsBlank(cmd.env.threadId))
  {
    RunsExactly(db, cmd);
    LoggedExactly(db, cmd.env.eventId);
    ConflictsExactly(db, cmd);
  }

  // ----- What it writes -----

  function TimeOf(env: Envelope, clock: int): int {
    if env.occurredAt.Some? then env.occurredAt.value else clock
  }

  /** The event is the command's: its id, thread, actor and time; ticket, run and agent of the thread it names, where the program
      does not take them from the command; and the columns it changes as they were read. */
  predicate LoggedFor(e: Event, cmd: Command, seen: Thread, clock: int) {
    && e.eventId == cmd.env.eventId && e.threadId == cmd.env.threadId && e.occurredAt == TimeOf(cmd.env, clock)
    && e.actorType == cmd.env.actorType && e.actorName == cmd.env.actorName
    && e.ticket == (if cmd.OpenThread? then cmd.env.ticket else seen.ticket)
    && e.agentName == (if cmd.OpenThread? then cmd.env.agentName else seen.agentName)
    && e.runId == (if cmd.OpenThread? || cmd.AddPost? then cmd.env.runId else seen.runId)
    && (cmd.CloseThread? ==> e.eventType == "forum.thread.closed")
    && (cmd.ChangeState? && IsBlank(cmd.env.eventType) ==> e.eventType == "forum.state.changed")
    && (!cmd.CloseThread? && !(cmd.ChangeState? && IsBlank(cmd.env.eventType)) ==> e.eventType == cmd.env.eventType)
    && match cmd
       case OpenThread(_, title, body, priority) => e.payload == Opened(title, body, if priority.Some? then priority.value else Normal)
       case AddPost(_, body) => e.payload == Posted(body)
       case AssignThread(_, kind, name) => e.payload == Assigned(seen.assigneeType, seen.assigneeName, kind, name)
       case ChangeState(_, to) => e.payload == StateChanged(seen.state, to)
       case CloseThread(_) => e.payload == StateChanged(seen.state, Closed)
       case SetPriority(_, to) => e.payload == PriorityChanged(seen.priority, to)
  }

  /** A thread as a command opens it. */
  predicate IsOpened(row: Thread, cmd: Command, clock: int) {
    cmd.OpenThread? && var env := cmd.env;
    && row.ticket == env.ticket && row.runId == env.runId && row.agentName == env.agentName && row.title == cmd.title
    && row.state == New && row.priority == (if cmd.priority.Some? then cmd.priority.value else Normal)
    && row.assigneeType == None && row.assigneeName == "" && row.openedByType == env.actorType && row.openedByName == env.actorName
    && row.openedAt == row.updatedAt == TimeOf(env, clock) && row.closedAt == None
  }

  /** Column by column, what becomes of the row of the thread the command names. */
  predicate IsUpdated(before: Thread, after: Thread, cmd: Command, clock: int) {
    && after.ticket == before.ticket && after.runId == before.runId && after.agentName == before.agentName && after.title == before.title
    && after.openedByType == before.openedByType && after.openedByName == before.openedByName && after.openedAt == before.openedAt
    && after.updatedAt == TimeOf(cmd.env, clock)
    && after.assigneeType == (if cmd.AssignThread? then Some(cmd.assigneeType) else before.assigneeType)
    && after.assigneeName == (if cmd.AssignThread? then cmd.assigneeName else before.assigneeName)
    && after.priority == (if cmd.SetPriority? then cmd.toPriority else before.priority)
    && after.state == (if cmd.ChangeState? then cmd.toState else if cmd.CloseThread? then Closed else before.state)
    && after.closedAt == (if !cmd.ChangeState? && !cmd.CloseThread? then before.closedAt
                          else if after.state == Closed then Some(TimeOf(cmd.env, clock)) else None)
  }

  /** A command with a body posts it under its own event id, by its actor and at its time. */
  predicate PostsBody(before: seq<Post>, after: seq<Post>, cmd: Command, clock: int) {
    after == before +
             if cmd.OpenThread? || cmd.AddPost? then
               [Post(cmd.env.threadId, cmd.env.eventId, cmd.env.actorType, cmd.env.actorName, cmd.body, TimeOf(cmd.env, clock))]
             else []
  }

  /** A change of state is recorded, from the state as it was read. */
  predicate RecordsTransition(before: seq<Transition>, after: seq<Transition>, cmd: Command, seen: Thread) {
    after == before +
             if cmd.ChangeState? || cmd.CloseThread? then
               [Transition(cmd.env.threadId, cmd.env.eventId, seen.state, if cmd.CloseThread? then Closed else cmd.toState)]
             else []
  }

  /** The thread the command names, and no other, is opened or updated. */
  predicate WritesThread(before: map<string, Thread>, after: map<string, Thread>, cmd: Command, clock: int) {
    var t := cmd.env.threadId;
    && t in after && after.Keys == before.Keys + {t} && (forall u <- before :: u != t ==> after[u] == before[u])
    && if cmd.OpenThread? then IsOpened(after[t], cmd, clock) else t in before && IsUpdated(before[t], after[t], cmd, clock)
  }

  /** The views follow, count a post and show it as the last. */
  predicate WritesView(before: map<string, View>, after: map<string, View>, cmd: Command, clock: int) {
    var t, env := cmd.env.threadId, cmd.env;
    && t in after && after.Keys == before.Keys + {t} && (forall u <- before :: u != t ==> after[u] == before[u])
    && (cmd.OpenThread? || cmd.AddPost? ==> after[t].last == Some(LastPost(TimeOf(env, clock), env.actorType, env.actorName)))
    && if cmd.OpenThread? then IsOpened(after[t].base, cmd, clock) && after[t].postsCount == 1
       else && t in before && IsUpdated(before[t].base, after[t].base, cmd, clock)
            && after[t].postsCount == before[t].postsCount + (if cmd.AddPost? then 1 else 0)
            && (!cmd.AddPost? ==> after[t].last == before[t].last)
  }

  lemma EventIsLogged(cmd: Command, seen: Thread, clock: int)
    ensures LoggedFor(EventOf(cmd, seen, clock), cmd, seen, clock)
  {
  }

  lemma ThreadIsWritten(threads: map<string, Thread>, cmd: Command, clock: int)
    requires cmd.OpenThread? || cmd.env.threadId in threads
    ensures WritesThread(threads, ThreadsAfter(threads, cmd, OccurredAt(cmd.env, clock)), cmd, clock)
  {
  }

  lemma ViewIsWritten(views: map<string, View>, cmd: Command, clock: int)
    requires cmd.OpenThread? || cmd.env.threadId in views
    ensures WritesView(views, ViewsAfter(views, cmd, OccurredAt(cmd.env, clock)), cmd, clock)
  {
  }

  lemma RowsAreInserted(posts: seq<Post>, transitions: seq<Transition>, cmd: Command, seen: Thread, clock: int)
    ensures PostsBody(posts, posts + NewPosts(cmd, OccurredAt(cmd.env, clock)), cmd, clock)
    ensures RecordsTransition(transitions, transitions + NewTransitions(cmd, seen), cmd, seen)
  {
  }

  /** What a transaction commits, whatever row it has read: one event, and the writes it stands for. */
  lemma CommitMeaning(db: Db, cmd: Command, seen: Thread, clock: int)
    requires db.views.Keys == db.threads.Keys && SeenOk(db, cmd, seen) && !Conflicts(db, cmd)
    ensures var db' := CommitTx(db, cmd, seen, clock);
            && Writes(db, db', cmd, seen, clock) && WritesView(db.views, db'.views, cmd, clock)
            && db'.queue == db.queue && db'.stats == db.stats && db'.markers == db.markers
  {
    EventIsLogged(cmd, seen, clock);
    ThreadIsWritten(db.threads, cmd, clock);
    ViewIsWritten(db.views, cmd, clock);
    RowsAreInserted(db.posts, db.transitions, cmd, seen, clock);
  }

  /** An integration event is the envelope's, and nothing but the log sees it. */
  lemma IntegrationMeaning(db: Db, env: Envelope, text: string, clock: int)
    ensures var db' := IntegrationTx(db, env, text, clock);
            if IsBlank(env.eventId) || Logged(db, env.eventId) then db' == db
            else
              && db' == db.(events := db'.events) && |db'.events| == |db.events| + 1 && db'.events[..|db.events|] == db.events
              && var e := db'.events[|db.events|];
              && e.eventId == env.eventId && e.threadId == env.threadId && e.occurredAt == TimeOf(env, clock)
              && e.actorType == env.actorType && e.actorName == env.actorName
              && e.ticket == env.ticket && e.runId == env.runId && e.agentName == env.agentName && e.payload == Integration(text)
              && e.eventType == if IsBlank(env.eventType) then "forum.integration.unknown" else env.eventType
  {
    LoggedExactly(db, env.eventId);
  }

  // ----- What the whole method leaves -----

  /** Opening a thread, changing its state or its priority moves it between the groups the stats count. */
  predicate MovesGroups(cmd: Command) {
    cmd.OpenThread? || cmd.ChangeState? || cmd.CloseThread? || cmd.SetPriority?
  }

  /** The refreshes: the stats of the thread's ticket count its threads if a count has moved, and the thread's queue row shows
      it, unless its id is blank. All other derived rows stay. */
  ghost predicate Refreshes(before: Db, after: Db, cmd: Command) {
    var t := cmd.env.threadId;
    && t in after.threads
    && (if MovesGroups(cmd) then
          var ticket := after.threads[t].ticket;
          && CountsThreads(StatsFor(after.stats, ticket), after.threads, ticket)
          && forall other :: other != ticket ==> StatsFor(after.stats, other) == StatsFor(before.stats, other)
        else after.stats == before.stats)
    && (if IsBlank(t) then after.queue == before.queue
        else t in after.queue && ShowsThread(after.queue[t], after.threads[t], t, after.events)
             && after.queue == before.queue[t := after.queue[t]])
  }

  lemma EventTicket(db: Db, cmd: Command, clock: int)
    requires StoreInv(db) && Refusal(db, cmd).None?
    ensures var seen := SeenRow(db, cmd);
            var db' := CommitTx(db, cmd, seen, clock);
            cmd.env.threadId in db'.threads && EventOf(cmd, seen, clock).ticket == db'.threads[cmd.env.threadId].ticket
  {
  }

  lemma StatsAreRefreshed(db: Db, cmd: Command, ticket: string)
    requires StoreInv(db)
    ensures var db' := RefreshedAfter(db, cmd, ticket);
            if MovesGroups(cmd) then
              && CountsThreads(StatsFor(db'.stats, ticket), db.threads, ticket)
              && forall other :: other != ticket ==> StatsFor(db'.stats, other) == StatsFor(db.stats, other)
            else db'.stats == db.stats
  {
    C.RefreshedStatsOf(db, cmd, ticket);
    if MovesGroups(cmd) {
      P.RefreshedStats(db, ticket, ticket);
      GroupCountShows(GroupCount(db.threads, ticket), db.threads, ticket);
      forall other | other != ticket ensures StatsFor(RefreshStats(db, ticket).stats, other) == StatsFor(db.stats, other) {
        P.RefreshedStats(db, ticket, other);
      }
    }
  }

  lemma RefreshedQueue(db: Db, cmd: Command, ticket: string)
    requires cmd.env.threadId in db.threads
    ensures var t, db' := cmd.env.threadId, RefreshedAfter(db, cmd, ticket);
            db'.queue == if IsBlank(t) then db.queue else db.queue[t := QueueRowOf(db.threads[t], t, db.events)]
  {
  }

  lemma QueueIsRefreshed(db: Db, cmd: Command, ticket: string)
    requires cmd.env.threadId in db.threads
    ensures var t, db' := cmd.env.threadId, RefreshedAfter(db, cmd, ticket);
            if IsBlank(t) then db'.queue == db.queue
            else t in db'.queue && ShowsThread(db'.queue[t], db.threads[t], t, db.events) && db'.queue == db.queue[t := db'.queue[t]]
  {
    var t := cmd.env.threadId;
    RefreshedQueue(db, cmd, ticket);
    QueueRowShows(QueueRowOf(db.threads[t], t, db.events), db.threads[t], t, db.events);
  }

  /** What a command that runs does to the log, the posts, the transitions and the threads. */
  predicate Writes(db: Db, db': Db, cmd: Command, seen: Thread, clock: int) {
    && |db'.events| == |db.events| + 1 && db'.events[..|db.events|] == db.events && LoggedFor(db'.events[|db.events|], cmd, seen, clock)
    && PostsBody(db.posts, db'.posts, cmd, clock) && RecordsTransition(db.transitions, db'.transitions, cmd, seen)
    && WritesThread(db.threads, db'.threads, cmd, clock)
  }

  /** And to the views and the derived tables. */
  ghost predicate Does(db: Db, db': Db, cmd: Command, seen: Thread, clock: int) {
    && Writes(db, db', cmd, seen, clock) && WritesView(db.views, db'.views, cmd, clock)
    && Refreshes(db, db', cmd) && db'.markers == db.markers
  }

  lemma RefreshedDoes(db: Db, committed: Db, db': Db, cmd: Command, seen: Thread, clock: int, ticket: string)
    requires Writes(db, committed, cmd, seen, clock) && WritesView(db.views, committed.views, cmd, clock)
    requires committed.queue == db.queue && committed.stats == db.stats && committed.markers == db.markers
    requires cmd.env.threadId in committed.threads && ticket == committed.threads[cmd.env.threadId].ticket
    requires db' == RefreshedAfter(committed, cmd, ticket) && StoreInv(committed)
    ensures Does(db, db', cmd, seen, clock)
  {
    RefreshedAfterIsDerived(committed, cmd, ticket);
    StatsAreRefreshed(committed, cmd, ticket);
    QueueIsRefreshed(committed, cmd, ticket);
  }

  /** What a command method does to the tables: nothing unless it runs; else it logs one event, writes what that stands for from
      the thread as it is, and refreshes. */
  lemma HandledMeaning(db: Db, cmd: Command, clock: int)
    requires StoreInv(db)
    ensures var db' := Handled(db, cmd, clock);
            if !Runs(db, cmd) then db' == db
            else Does(db, db', cmd, if cmd.OpenThread? then OpenedRow(cmd, 0) else db.threads[cmd.env.threadId], clock)
  {
    RunsExactly(db, cmd);
    if Runs(db, cmd) { RunningDoes(db, cmd, clock); }
  }

  lemma RunningDoes(db: Db, cmd: Command, clock: int)
    requires StoreInv(db) && Refusal(db, cmd).None?
    ensures Does(db, Handled(db, cmd, clock), cmd, SeenRow(db, cmd), clock)
  {
    var seen := SeenRow(db, cmd);
    var committed := CommitTx(db, cmd, seen, clock);
    CommitMeaning(db, cmd, seen, clock);
    CommitKeepsStore(db, cmd, seen, clock);
    EventTicket(db, cmd, clock);
    RefreshedDoes(db, committed, Handled(db, cmd, clock), cmd, seen, clock, EventOf(cmd, seen, clock).ticket);
  }

  // ----- What it makes of the unanswered queue -----

  lemma LastWordAfter(events: seq<Event>, e: Event)
    ensures AgentHasLastWord(events + [e], e.threadId) <==>
            match e.actorType case Agent => true case System => AgentHasLastWord(events, e.threadId) case _ => false
  {
    var all, n := events + [e], |events|;
    if e.actorType == Agent { assert all[n].threadId == e.threadId; }
    if AgentHasLastWord(all, e.threadId) && e.actorType != Agent {
      var i :| 0 <= i < |all| && all[i].threadId == e.threadId && all[i].actorType == Agent &&
               forall j :: i < j < |all| && all[j].threadId == e.threadId ==> all[j].actorType == System;
      assert i < n && all[n].actorType == System;
      assert events[i] == all[i] && forall j :: i < j < n ==> events[j] == all[j];
    }
    if AgentHasLastWord(events, e.threadId) && e.actorType == System {
      var i :| 0 <= i < |events| && events[i].threadId == e.threadId && events[i].actorType == Agent &&
               forall j :: i < j < |events| && events[j].threadId == e.threadId ==> events[j].actorType == System;
      assert all[i] == events[i] && forall j :: i < j < |all| ==> all[j] == if j < n then events[j] else e;
    }
  }

  lemma LogGrows(before: seq<Event>, after: seq<Event>)
    requires |after| == |before| + 1 && after[..|before|] == before
    ensures after == before + [after[|before|]]
    ensures var e := after[|before|];
            AgentHasLastWord(after, e.threadId) <==>
            match e.actorType case Agent => true case System => AgentHasLastWord(before, e.threadId) case _ => false
  {
    assert after == before + [after[|before|]];
    LastWordAfter(before, after[|before|]);
  }

  /** After a command by an agent the agent has the last word, after one by a person it has not, and the system's leave it. */
  lemma CommandTakesLastWord(db: Db, cmd: Command, clock: int)
    requires StoreInv(db) && Runs(db, cmd)
    ensures AgentHasLastWord(Handled(db, cmd, clock).events, cmd.env.threadId) <==>
            match cmd.env.actorType case Agent => true case System => AgentHasLastWord(db.events, cmd.env.threadId) case _ => false
  {
    HandledMeaning(db, cmd, clock);
    LogGrows(db.events, Handled(db, cmd, clock).events);
  }

  /** So a thread leaves the unanswered queue with the first command of a person, and enters it with one of an agent that leaves
      it new or waiting. */
  lemma CommandAnswers(db: Db, cmd: Command, clock: int)
    requires StoreInv(db) && Runs(db, cmd) && !IsBlank(cmd.env.threadId) && cmd.env.actorType != System
    ensures var db', t := Handled(db, cmd, clock), cmd.env.threadId;
            && t in db'.threads && t in db'.queue
            && (Unanswered(db'.threads[t].state, Some(db'.queue[t])) <==>
                cmd.env.actorType == Agent && db'.threads[t].state in {New, WaitingHuman, WaitingOperator})
  {
    var db', t := Handled(db, cmd, clock), cmd.env.threadId;
    HandledMeaning(db, cmd, clock);
    CommandTakesLastWord(db, cmd, clock);
    QueueRowShows(db'.queue[t], db'.threads[t], t, db'.events);
    UnansweredCharacterized(db'.threads[t].state, db'.threads[t], t, db'.events);
  }
}
