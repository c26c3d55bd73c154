/** Command methods that run to their end, one after the other: they leave both derived tables current. */
module ForumCommands {
  import opened Options
  import opened ForumModel
  import opened ForumTables
  import opened ForumReplay
  import opened ForumStore
  import opened ForumDerived
  import P = ForumProjections

  ghost predicate StatsCurrent(db: Db) {
    forall ticket :: StatsFor(db.stats, ticket) == GroupCount(db.threads, ticket)
  }

  /** A thread with a blank id is the one the last refresh refuses. */
  ghost predicate QueueCurrent(db: Db) {
    forall t :: t in db.threads && !IsBlank(t) ==> QueueRowCurrent(db, t)
  }

  predicate QueueRowCurrent(db: Db, t: string)
    requires t in db.threads
  {
    t in db.queue && db.queue[t] == QueueRowOf(db.threads[t], t, db.events)
  }

  /** What the refreshes after a transaction leave of the stats. */
  lemma RefreshedStatsOf(db: Db, cmd: Command, ticket: string)
    ensures var db' := RefreshedAfter(db, cmd, ticket);
            db'.stats == (if MovesCounts(cmd) then RefreshStats(db, ticket).stats else db.stats) && db'.threads == db.threads
  {
  }

  /** And of the queue: the thread the command names is current, the others are as they were. */
  lemma RefreshedQueueOf(db: Db, cmd: Command, ticket: string, t: string)
    requires t in db.threads && !IsBlank(t)
    ensures var db' := RefreshedAfter(db, cmd, ticket);
            && db'.threads == db.threads && db'.events == db.events
            && if t == cmd.env.threadId then QueueRowCurrent(db', t)
               else (t in db.queue ==> t in db'.queue && db'.queue[t] == db.queue[t])
  {
  }

  lemma CommittedShape(db: Db, cmd: Command, seen: Thread, clock: int)
    requires !Conflicts(db, cmd)
    ensures var db' := CommitTx(db, cmd, seen, clock);
            && db'.events == db.events + [EventOf(cmd, seen, clock)] && db'.queue == db.queue
            && db'.threads == ThreadsAfter(db.threads, cmd, OccurredAt(cmd.env, clock))
  {
  }

  lemma MovesCountsExactly(cmd: Command, seen: Thread, clock: int)
    ensures var e := EventOf(cmd, seen, clock); e.threadId == cmd.env.threadId && (P.CountsIn(e, e.ticket) <==> MovesCounts(cmd))
  {
  }

  lemma CommandKeepsStats(db: Db, cmd: Command, seen: Thread, clock: int, ticket: string)
    requires StoreInv(db) && SeenOk(db, cmd, seen) && !Conflicts(db, cmd) && StatsFor(db.stats, ticket) == GroupCount(db.threads, ticket)
    ensures var db' := RefreshedAfter(CommitTx(db, cmd, seen, clock), cmd, EventOf(cmd, seen, clock).ticket);
            StatsFor(db'.stats, ticket) == GroupCount(db'.threads, ticket)
  {
    P.CompletedCommandKeepsStats(db, cmd, seen, clock, ticket);
    MovesCountsExactly(cmd, seen, clock);
    RefreshedStatsOf(CommitTx(db, cmd, seen, clock), cmd, EventOf(cmd, seen, clock).ticket);
  }

  /** A thread the event does not name keeps its row, and the row stays right. */
  lemma OtherRowStays(db: Db, db': Db, e: Event, t: string)
    requires db.threads == Replay(db.events) && db'.threads == Replay(db'.events) && db'.events == db.events + [e]
    requires e.threadId != t && t in db.threads && QueueRowCurrent(db, t) && t in db'.queue && db'.queue[t] == db.queue[t]
    ensures t in db'.threads && QueueRowCurrent(db', t)
  {
    assert db'.events[..|db.events|] == db.events;
    P.QuietThreadRow(db'.events, t, |db.events|);
  }

  lemma CommandKeepsQueue(db: Db, cmd: Command, seen: Thread, clock: int, t: string)
    requires StoreInv(db) && SeenOk(db, cmd, seen) && !Conflicts(db, cmd) && (t in db.threads ==> QueueRowCurrent(db, t))
    requires t in CommitTx(db, cmd, seen, clock).threads && !IsBlank(t)
    ensures var db' := RefreshedAfter(CommitTx(db, cmd, seen, clock), cmd, EventOf(cmd, seen, clock).ticket);
            t in db'.threads && QueueRowCurrent(db', t)
  {
    var committed, e := CommitTx(db, cmd, seen, clock), EventOf(cmd, seen, clock);
    MovesCountsExactly(cmd, seen, clock);
    CommittedShape(db, cmd, seen, clock);
    RefreshedQueueOf(committed, cmd, e.ticket, t);
    if t != cmd.env.threadId {
      CommitKeepsStore(db, cmd, seen, clock);
      OtherRowStays(db, RefreshedAfter(committed, cmd, e.ticket), e, t);
    }
  }

  lemma HandledKeepsCurrent(db: Db, cmd: Command, clock: int)
    requires StoreInv(db) && StatsCurrent(db) && QueueCurrent(db)
    ensures StatsCurrent(Handled(db, cmd, clock)) && QueueCurrent(Handled(db, cmd, clock))
  {
    if Refusal(db, cmd).None? {
      var seen, db' := SeenRow(db, cmd), Handled(db, cmd, clock);
      RefreshedAfterIsDerived(CommitTx(db, cmd, seen, clock), cmd, EventOf(cmd, seen, clock).ticket);
      forall ticket ensures StatsFor(db'.stats, ticket) == GroupCount(db'.threads, ticket) {
        CommandKeepsStats(db, cmd, seen, clock, ticket);
      }
      forall t | t in db'.threads && !IsBlank(t) ensures QueueRowCurrent(db', t) {
        CommandKeepsQueue(db, cmd, seen, clock, t);
      }
    }
  }

  function HandledAll(db: Db, commands: seq<(Command, int)>): Db {
    if |commands| == 0 then db
    else
      var last := commands[|commands| - 1];
      Handled(HandledAll(db, commands[..|commands| - 1]), last.0, last.1)
  }

  /** Over any sequence of command methods, repeated, refused or new, that are not cut off, the stats of every ticket count its
      threads by run, state and priority, and the queue row of every thread shows it, its last events and their actors. */
  lemma CommandsKeepCurrent(commands: seq<(Command, int)>)
    ensures var db := HandledAll(EmptyDb, commands);
            && StoreInv(db) && (forall ticket :: CountsThreads(StatsFor(db.stats, ticket), db.threads, ticket))
            && forall t :: t in db.threads && !IsBlank(t) ==> t in db.queue && ShowsThread(db.queue[t], db.threads[t], t, db.events)
  {
    var db := HandledAll(EmptyDb, commands);
    CommandsKeepRecomputed(commands);
    forall ticket ensures CountsThreads(StatsFor(db.stats, ticket), db.threads, ticket) {
      GroupCountShows(StatsFor(db.stats, ticket), db.threads, ticket);
    }
    forall t | t in db.threads && !IsBlank(t) ensures t in db.queue && ShowsThread(db.queue[t], db.threads[t], t, db.events) {
      assert QueueRowCurrent(db, t);
      QueueRowShows(db.queue[t], db.threads[t], t, db.events);
    }
  }

  lemma {:induction false} CommandsKeepRecomputed(commands: seq<(Command, int)>)
    ensures var db := HandledAll(EmptyDb, commands); StoreInv(db) && StatsCurrent(db) && QueueCurrent(db)
  {
    if |commands| == 0 {
      P.InitialProjections();
      forall ticket ensures StatsFor(EmptyDb.stats, ticket) == GroupCount(EmptyDb.threads, ticket) {
        assert GroupCount(map[], ticket) == map[];
      }
    } else {
      var before, last := HandledAll(EmptyDb, commands[..|commands| - 1]), commands[|commands| - 1];
      CommandsKeepRecomputed(commands[..|commands| - 1]);
      HandledKeepsStore(before, last.0, last.1);
      HandledKeepsCurrent(before, last.0, last.1);
    }
  }
}
