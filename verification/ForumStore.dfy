/** The store: one object whose fields are the forum tables. Each SQL transaction is one method. */
module ForumStore {
  import opened Options
  import opened ForumModel
  import opened ForumTables
  import opened ForumReplay

  datatype StoreError = BlankEventId | ThreadNotFound | KeyConflict | BlankThreadId | BlankTicket

  datatype Outcome = Done | Rejected(error: StoreError)

  /** A command that moves a row between stats groups, and so refreshes its ticket's stats. */
  predicate MovesCounts(cmd: Command) {
    !cmd.AddPost? && !cmd.AssignThread?
  }

  /** The row a command reads before its transaction; opening a thread reads none. */
  function SeenRow(db: Db, cmd: Command): Thread
    requires cmd.OpenThread? || cmd.env.threadId in db.views
  {
    if cmd.OpenThread? then OpenedRow(cmd, 0) else db.views[cmd.env.threadId].base
  }

  /** Why a command method returns without running its transaction; None when it runs it. */
  function Refusal(db: Db, cmd: Command): Option<Outcome> {
    if IsBlank(cmd.env.eventId) then Some(Rejected(BlankEventId))
    else if HasEvent(db.events, cmd.env.eventId) then Some(Done)
    else if !cmd.OpenThread? && cmd.env.threadId !in db.views then Some(Rejected(ThreadNotFound))
    else if Conflicts(db, cmd) then Some(Rejected(KeyConflict))
    else None
  }

  /** The two refreshes after a command's transaction. */
  function RefreshedAfter(db: Db, cmd: Command, ticket: string): Db {
    var counted := if MovesCounts(cmd) then RefreshStats(db, ticket) else db;
    if IsBlank(cmd.env.threadId) then counted else RefreshQueue(counted, cmd.env.threadId)
  }

  /** A whole command method on the tables, undisturbed. */
  function Handled(db: Db, cmd: Command, clock: int): Db {
    if Refusal(db, cmd).Some? then db
    else
      var seen := SeenRow(db, cmd);
      RefreshedAfter(CommitTx(db, cmd, seen, clock), cmd, EventOf(cmd, seen, clock).ticket)
  }

  /** What a command method returns. A blank thread id is only noticed by the last refresh. */
  function OutcomeOf(db: Db, cmd: Command): Outcome {
    var refusal := Refusal(db, cmd);
    if refusal.Some? then refusal.value
    else if IsBlank(cmd.env.threadId) then Rejected(BlankThreadId)
    else Done
  }

  lemma RefreshedAfterIsDerived(db: Db, cmd: Command, ticket: string)
    ensures var db' := RefreshedAfter(db, cmd, ticket);
            db' == db.(queue := db'.queue, stats := db'.stats)
  {
  }

  lemma HandledKeepsStore(db: Db, cmd: Command, clock: int)
    requires StoreInv(db)
    ensures StoreInv(Handled(db, cmd, clock))
  {
    if Refusal(db, cmd).None? {
      var seen := SeenRow(db, cmd);
      CommitKeepsStore(db, cmd, seen, clock);
      var committed, ticket := CommitTx(db, cmd, seen, clock), EventOf(cmd, seen, clock).ticket;
      RefreshedAfterIsDerived(committed, cmd, ticket);
      DerivedTablesAreFree(committed, RefreshedAfter(committed, cmd, ticket));
    }
  }

  /** The projections refuse an event without an id, a thread or a ticket. */
  predicate IsRefused(e: Event) {
    IsBlank(e.eventId) || IsBlank(e.threadId) || IsBlank(e.ticket)
  }

  class Store {
    var threads: map<string, Thread>
    var posts: seq<Post>
    var events: seq<Event>
    var transitions: seq<Transition>
    var views: map<string, View>
    var queue: map<string, QueueRow>
    var stats: map<StatKey, nat>
    var markers: set<(Projection, string)>

    ghost function Tables(): Db
      reads this
    {
      Db(threads, posts, events, transitions, views, queue, stats, markers)
    }

    constructor ()
      ensures Tables() == EmptyDb
    {
      threads, posts, events, transitions := map[], [], [], [];
      views, queue, stats, markers := map[], map[], map[], {};
    }

    method EventExists(eventId: string) returns (found: bool)
      ensures found <==> HasEvent(events, eventId)
    {
      for i := 0 to |events|
        invariant forall j :: 0 <= j < i ==> events[j].eventId != eventId
      {
        if events[i].eventId == eventId { return true; }
      }
      return false;
    }

    method PostExists(eventId: string) returns (found: bool)
      ensures found <==> HasPost(posts, eventId)
    {
      for i := 0 to |posts|
        invariant forall j :: 0 <= j < i ==> posts[j].eventId != eventId
      {
        if posts[i].eventId == eventId { return true; }
      }
      return false;
    }

    /** Whether the unique and primary keys reject a command's inserts. */
    method KeysReject(cmd: Command) returns (conflict: bool)
      ensures conflict <==> Conflicts(Tables(), cmd)
    {
      var t := cmd.env.threadId;
      var logged := EventExists(cmd.env.eventId);
      var posted := PostExists(cmd.env.eventId);
      conflict := logged || (cmd.OpenThread? && (t in threads || t in views)) || ((cmd.OpenThread? || cmd.AddPost?) && posted);
    }

    /** BEGIN IMMEDIATE ... COMMIT of a command; `ok` is false when a key rejected it and it was rolled back. */
    method Commit(cmd: Command, seen: Thread, clock: int) returns (ok: bool)
      modifies this
      ensures Tables() == CommitTx(old(Tables()), cmd, seen, clock)
      ensures ok <==> !Conflicts(old(Tables()), cmd)
    {
      var t, at := cmd.env.threadId, OccurredAt(cmd.env, clock);
      var conflict := KeysReject(cmd);
      if conflict { return false; }
      if cmd.OpenThread? {
        threads := threads[t := OpenedRow(cmd, at)];
        views := views[t := View(OpenedRow(cmd, at), 1, Some(LastPost(at, cmd.env.actorType, cmd.env.actorName)))];
      } else {
        if t in threads { threads := threads[t := ThreadAfter(cmd, threads[t], at)]; }
        if t in views { views := views[t := ViewAfter(cmd, views[t], at)]; }
      }
      posts := posts + NewPosts(cmd, at);
      transitions := transitions + NewTransitions(cmd, seen);
      events := events + [EventOf(cmd, seen, clock)];
      return true;
    }

    /** ForumAppendIntegrationEvent: the log only, no refresh and no message on the bus. */
    method AppendIntegration(env: Envelope, text: string, clock: int) returns (outcome: Outcome)
      modifies this`events
      ensures Tables() == IntegrationTx(old(Tables()), env, text, clock)
      ensures outcome == if IsBlank(env.eventId) then Rejected(BlankEventId) else Done
    {
      if IsBlank(env.eventId) { return Rejected(BlankEventId); }
      var known := EventExists(env.eventId);
      if !known {
        var eventType := if IsBlank(env.eventType) then "forum.integration.unknown" else env.eventType;
        events := events + [Event(env.eventId, eventType, OccurredAt(env, clock), env.threadId, env.runId, env.ticket,
                                  env.agentName, env.actorType, env.actorName, Integration(text))];
      }
      return Done;
    }

    /** The refresh statements. */
    method RefreshThreadView(t: string)
      modifies this`views
      ensures Tables() == RefreshView(old(Tables()), t)
    {
      if t in threads { views := views[t := ViewOf(threads[t], t, posts)]; }
    }

    method RefreshThreadQueueView(t: string)
      modifies this`queue
      ensures Tables() == RefreshQueue(old(Tables()), t)
    {
      if t in threads { queue := queue[t := QueueRowOf(threads[t], t, events)]; }
    }

    method RefreshThreadStats(ticket: string)
      modifies this`stats
      ensures Tables() == RefreshStats(old(Tables()), ticket)
    {
      stats := (map k | k in stats && k.ticket != ticket :: stats[k]) + GroupCount(Bases(views), ticket);
    }

    /** The refreshes that follow a command's transaction; a blank thread id stops the second. */
    method RefreshAfter(cmd: Command, ticket: string) returns (outcome: Outcome)
      modifies this
      ensures Tables() == RefreshedAfter(old(Tables()), cmd, ticket)
      ensures outcome == if IsBlank(cmd.env.threadId) then Rejected(BlankThreadId) else Done
    {
      if MovesCounts(cmd) { RefreshThreadStats(ticket); }
      if IsBlank(cmd.env.threadId) { return Rejected(BlankThreadId); }
      RefreshThreadQueueView(cmd.env.threadId);
      return Done;
    }

    /** The six command methods share this course: skip a logged event, read the thread, commit, refresh. */
    method Execute(cmd: Command, clock: int) returns (outcome: Outcome)
      modifies this
      ensures Tables() == Handled(old(Tables()), cmd, clock)
      ensures outcome == OutcomeOf(old(Tables()), cmd)
    {
      if IsBlank(cmd.env.eventId) { return Rejected(BlankEventId); }
      var known := EventExists(cmd.env.eventId);
      if known { return Done; }
      if !cmd.OpenThread? && cmd.env.threadId !in views { return Rejected(ThreadNotFound); }
      var seen := if cmd.OpenThread? then OpenedRow(cmd, 0) else views[cmd.env.threadId].base;
      var ok := Commit(cmd, seen, clock);
      if !ok { return Rejected(KeyConflict); }
      var ticket := if cmd.OpenThread? then cmd.env.ticket else seen.ticket;
      assert MovesCounts(cmd) ==> ticket == EventOf(cmd, seen, clock).ticket;
      outcome := RefreshAfter(cmd, ticket);
    }

    /** applyForumProjectionEvent for each of the three projections: thread view, queue row, ticket counts. */
    method ApplyEventProjections(event: Event) returns (outcome: Outcome)
      modifies this
      ensures outcome == if IsBlank(event.eventId) then Rejected(BlankEventId)
                         else if IsBlank(event.threadId) then Rejected(BlankThreadId)
                         else if IsBlank(event.ticket) then Rejected(BlankTicket) else Done
      ensures Tables() == if !IsRefused(event) then Projected(old(Tables()), event) else old(Tables())
    {
      if IsBlank(event.eventId) { return Rejected(BlankEventId); }
      if IsBlank(event.threadId) { return Rejected(BlankThreadId); }
      if IsBlank(event.ticket) { return Rejected(BlankTicket); }
      if (ViewsV1, event.eventId) !in markers {
        RefreshThreadView(event.threadId);
        markers := markers + {(ViewsV1, event.eventId)};
      }
      if (QueueV1, event.eventId) !in markers {
        RefreshThreadQueueView(event.threadId);
        markers := markers + {(QueueV1, event.eventId)};
      }
      if (StatsV1, event.eventId) !in markers {
        RefreshThreadStats(event.ticket);
        markers := markers + {(StatsV1, event.eventId)};
      }
      return Done;
    }
  }

  function ProjectOnce(db: Db, p: Projection, event: Event): Db {
    if (p, event.eventId) in db.markers then db
    else
      var refreshed := match p
        case ViewsV1 => RefreshView(db, event.threadId)
        case QueueV1 => RefreshQueue(db, event.threadId)
        case StatsV1 => RefreshStats(db, event.ticket);
      refreshed.(markers := refreshed.markers + {(p, event.eventId)})
  }

  function Projected(db: Db, event: Event): Db {
    ProjectOnce(ProjectOnce(ProjectOnce(db, ViewsV1, event), QueueV1, event), StatsV1, event)
  }

  /** Delivering an event to the projections a second time changes nothing. */
  lemma ProjectionsAreIdempotent(db: Db, event: Event)
    ensures Projected(Projected(db, event), event) == Projected(db, event)
    ensures forall p :: (p, event.eventId) in Projected(db, event).markers
  {
    var done := Projected(db, event).markers;
    assert (ViewsV1, event.eventId) in done && (QueueV1, event.eventId) in done && (StatsV1, event.eventId) in done;
    forall p: Projection
      ensures (p, event.eventId) in done
    {
      match p { case ViewsV1 => case QueueV1 => case StatsV1 => }
    }
  }
}
