/** Projection convergence. Write transactions, the refreshes that follow them, and the projection workers that
    refresh and then set a marker interleave freely; workers may crash in between and events may be delivered
    again and in any order. Every derived row is still the recomputation at a log prefix that covers every
    event whose marker is set. */
module ForumProjections {
  import opened Options
  import opened ForumModel
  import opened ForumTables
  import opened ForumReplay
  import opened ForumDerived

  /** `refreshed` holds the workers that have refreshed a projection for an event but not yet set its marker. */
  datatype State = State(db: Db, refreshed: set<(Projection, string)>)

  datatype Step =
    | Commit(cmd: Command, seen: Thread, clock: int)
    | AppendIntegration(env: Envelope, text: string, clock: int)
    | RefreshOnly(projection: Projection, subject: string)
    | WorkerRefresh(projection: Projection, i: nat)
    | WorkerMark(projection: Projection, eventId: string)
    | Crash(lost: set<(Projection, string)>)

  /** Refreshes one derived table: of a thread, or for the stats of a ticket. */
  function Refresh(db: Db, projection: Projection, subject: string): Db {
    match projection
    case ViewsV1 => RefreshView(db, subject)
    case QueueV1 => RefreshQueue(db, subject)
    case StatsV1 => RefreshStats(db, subject)
  }

  function SubjectOf(projection: Projection, e: Event): string {
    if projection == StatsV1 then e.ticket else e.threadId
  }

  predicate Enabled(s: State, step: Step) {
    match step
    case Commit(cmd, seen, _) => SeenOk(s.db, cmd, seen)
    case AppendIntegration(_, _, _) => true
    case RefreshOnly(_, _) => true
    case WorkerRefresh(_, i) => i < |s.db.events|
    case WorkerMark(p, id) => (p, id) in s.refreshed
    case Crash(_) => true
  }

  function Next(s: State, step: Step): State
    requires Enabled(s, step)
  {
    match step
    case Commit(cmd, seen, clock) => s.(db := CommitTx(s.db, cmd, seen, clock))
    case AppendIntegration(env, text, clock) => s.(db := IntegrationTx(s.db, env, text, clock))
    case RefreshOnly(p, subject) => s.(db := Refresh(s.db, p, subject))
    case WorkerRefresh(p, i) =>
      var e := s.db.events[i];
      State(Refresh(s.db, p, SubjectOf(p, e)), s.refreshed + {(p, e.eventId)})
    case WorkerMark(p, id) => State(s.db.(markers := s.db.markers + {(p, id)}), s.refreshed - {(p, id)})
    case Crash(lost) => s.(refreshed := s.refreshed - lost)
  }

  const Init := State(EmptyDb, {})

  ghost predicate Linked(s: State, s': State) {
    exists step :: Enabled(s, step) && s' == Next(s, step)
  }

  ghost predicate Behavior(run: seq<State>) {
    && |run| > 0 && run[0] == Init
    && forall i :: 0 <= i < |run| - 1 ==> Linked(run[i], run[i + 1])
  }

  // ----- Rows at a log prefix -----

  /** Events that some worker has refreshed for, marked or not. */
  function Cover(s: State): set<(Projection, string)> {
    s.db.markers + s.refreshed
  }

  /** The queue row of thread `t` is the recomputation at the first `n` events. */
  predicate QueueRowAt(events: seq<Event>, t: string, row: QueueRow, n: nat) {
    n <= |events| && t in Replay(events[..n]) && row == QueueRowOf(Replay(events[..n])[t], t, events[..n])
  }

  predicate CoversThread(events: seq<Event>, cover: set<(Projection, string)>, t: string, n: nat) {
    forall i :: 0 <= i < |events| && events[i].threadId == t && (QueueV1, events[i].eventId) in cover ==> i < n
  }

  ghost predicate QueueOk(events: seq<Event>, cover: set<(Projection, string)>, t: string, row: QueueRow) {
    exists n: nat :: QueueRowAt(events, t, row, n) && CoversThread(events, cover, t, n)
  }

  predicate StatsAt(events: seq<Event>, ticket: string, rows: map<StatKey, nat>, n: nat) {
    n <= |events| && rows == GroupCount(Replay(events[..n]), ticket)
  }

  predicate CoversTicket(events: seq<Event>, cover: set<(Projection, string)>, ticket: string, n: nat) {
    forall i :: 0 <= i < |events| && events[i].ticket == ticket && (StatsV1, events[i].eventId) in cover ==> i < n
  }

  ghost predicate StatsOk(events: seq<Event>, cover: set<(Projection, string)>, ticket: string, rows: map<StatKey, nat>) {
    exists n: nat :: StatsAt(events, ticket, rows, n) && CoversTicket(events, cover, ticket, n)
  }

  ghost predicate CoverLogged(events: seq<Event>, cover: set<(Projection, string)>) {
    forall c :: c in cover ==> HasEvent(events, c.1)
  }

  /** A thread that existed when one of its events was logged has a row once that event has been refreshed for. */
  ghost predicate CoveredHasRow(events: seq<Event>, cover: set<(Projection, string)>, queue: map<string, QueueRow>) {
    forall i :: 0 <= i < |events| && (QueueV1, events[i].eventId) in cover && events[i].threadId in Replay(events[..i + 1]) ==>
      events[i].threadId in queue
  }

  ghost predicate DerivedOk(db: Db, cover: set<(Projection, string)>) {
    && CoverLogged(db.events, cover)
    && CoveredHasRow(db.events, cover, db.queue)
    && (forall t :: t in db.queue ==> QueueOk(db.events, cover, t, db.queue[t]))
    && (forall ticket :: StatsOk(db.events, cover, ticket, StatsFor(db.stats, ticket)))
  }

  ghost predicate Inv(s: State) {
    StoreInv(s.db) && PostColumnsCurrent(s.db) && DerivedOk(s.db, Cover(s))
  }

  // ----- Appending an event -----

  lemma AppendKeepsQueueOk(events: seq<Event>, e: Event, cover: set<(Projection, string)>, t: string, row: QueueRow)
    requires QueueOk(events, cover, t, row) && CoverLogged(events, cover) && !HasEvent(events, e.eventId)
    ensures QueueOk(events + [e], cover, t, row)
  {
    var n: nat :| QueueRowAt(events, t, row, n) && CoversThread(events, cover, t, n);
    assert (events + [e])[..n] == events[..n];
    assert QueueRowAt(events + [e], t, row, n);
    forall i | 0 <= i < |events + [e]| && (events + [e])[i].threadId == t && (QueueV1, (events + [e])[i].eventId) in cover
      ensures i < n
    {
      assert HasEvent(events, (QueueV1, (events + [e])[i].eventId).1);
      assert i < |events| && (events + [e])[i] == events[i];
    }
    assert CoversThread(events + [e], cover, t, n);
  }

  lemma AppendKeepsStatsOk(events: seq<Event>, e: Event, cover: set<(Projection, string)>, ticket: string, rows: map<StatKey, nat>)
    requires StatsOk(events, cover, ticket, rows) && CoverLogged(events, cover) && !HasEvent(events, e.eventId)
    ensures StatsOk(events + [e], cover, ticket, rows)
  {
    var n: nat :| StatsAt(events, ticket, rows, n) && CoversTicket(events, cover, ticket, n);
    assert (events + [e])[..n] == events[..n];
    assert StatsAt(events + [e], ticket, rows, n);
    forall i | 0 <= i < |events + [e]| && (events + [e])[i].ticket == ticket && (StatsV1, (events + [e])[i].eventId) in cover
      ensures i < n
    {
      assert HasEvent(events, (StatsV1, (events + [e])[i].eventId).1);
      assert i < |events| && (events + [e])[i] == events[i];
    }
    assert CoversTicket(events + [e], cover, ticket, n);
  }

  lemma AppendKeepsDerived(db: Db, db': Db, e: Event, cover: set<(Projection, string)>)
    requires DerivedOk(db, cover) && !HasEvent(db.events, e.eventId)
    requires db'.events == db.events + [e] && db'.queue == db.queue && db'.stats == db.stats
    ensures DerivedOk(db', cover)
  {
    forall c | c in cover
      ensures HasEvent(db'.events, c.1)
    {
      HasEventAppend(db.events, e, c.1);
    }
    forall i | 0 <= i < |db'.events| && (QueueV1, db'.events[i].eventId) in cover && db'.events[i].threadId in Replay(db'.events[..i + 1])
      ensures db'.events[i].threadId in db'.queue
    {
      assert HasEvent(db.events, (QueueV1, db'.events[i].eventId).1);
      assert db'.events[i] == db.events[i] && db'.events[..i + 1] == db.events[..i + 1];
    }
    forall t | t in db'.queue
      ensures QueueOk(db'.events, cover, t, db'.queue[t])
    {
      AppendKeepsQueueOk(db.events, e, cover, t, db.queue[t]);
    }
    forall ticket
      ensures StatsOk(db'.events, cover, ticket, StatsFor(db'.stats, ticket))
    {
      AppendKeepsStatsOk(db.events, e, cover, ticket, StatsFor(db.stats, ticket));
    }
  }

  // ----- Refreshing -----

  /** A fresh row covers everything, whatever has been refreshed for. */
  lemma FreshQueueOk(events: seq<Event>, cover: set<(Projection, string)>, t: string)
    requires t in Replay(events)
    ensures QueueOk(events, cover, t, QueueRowOf(Replay(events)[t], t, events))
  {
    assert events[..|events|] == events;
    assert QueueRowAt(events, t, QueueRowOf(Replay(events)[t], t, events), |events|);
    assert CoversThread(events, cover, t, |events|);
  }

  lemma FreshStatsOk(events: seq<Event>, cover: set<(Projection, string)>, ticket: string)
    ensures StatsOk(events, cover, ticket, GroupCount(Replay(events), ticket))
  {
    assert events[..|events|] == events;
    assert StatsAt(events, ticket, GroupCount(Replay(events), ticket), |events|);
    assert CoversTicket(events, cover, ticket, |events|);
  }

  lemma GroupCountOneTicket(rows: map<string, Thread>, ticket: string)
    ensures forall k :: k in GroupCount(rows, ticket) ==> k.ticket == ticket
  {
  }

  /** Refreshing one ticket replaces that ticket's slice of the stats table and no other. */
  lemma RefreshedStats(db: Db, ticket: string, other: string)
    requires ViewsCurrent(db)
    ensures StatsFor(RefreshStats(db, ticket).stats, other) ==
            if other == ticket then GroupCount(db.threads, ticket) else StatsFor(db.stats, other)
  {
    assert Bases(db.views) == db.threads;
    GroupCountOneTicket(db.threads, ticket);
    SplicedStats(db.stats, GroupCount(db.threads, ticket), ticket, other);
  }

  lemma SplicedStats(stats: map<StatKey, nat>, group: map<StatKey, nat>, ticket: string, other: string)
    requires forall k :: k in group ==> k.ticket == ticket
    ensures StatsFor((map k | k in stats && k.ticket != ticket :: stats[k]) + group, other) ==
            if other == ticket then group else StatsFor(stats, other)
  {
  }

  lemma QueueRefreshKeepsDerived(db: Db, cover: set<(Projection, string)>, t: string)
    requires Replayed(db) && DerivedOk(db, cover)
    ensures DerivedOk(RefreshQueue(db, t), cover)
  {
    if t in db.threads { FreshQueueOk(db.events, cover, t); }
  }

  lemma StatsRefreshKeepsDerived(db: Db, cover: set<(Projection, string)>, ticket: string)
    requires Replayed(db) && ViewsCurrent(db) && DerivedOk(db, cover)
    ensures DerivedOk(RefreshStats(db, ticket), cover)
  {
    forall other
      ensures StatsOk(db.events, cover, other, StatsFor(RefreshStats(db, ticket).stats, other))
    {
      RefreshedStats(db, ticket, other);
      FreshStatsOk(db.events, cover, ticket);
    }
  }

  lemma RefreshKeepsDerived(db: Db, cover: set<(Projection, string)>, p: Projection, subject: string)
    requires Replayed(db) && ViewsCurrent(db) && DerivedOk(db, cover)
    ensures DerivedOk(Refresh(db, p, subject), cover)
  {
    match p
    case ViewsV1 =>
    case QueueV1 => QueueRefreshKeepsDerived(db, cover, subject);
    case StatsV1 => StatsRefreshKeepsDerived(db, cover, subject);
  }

  lemma QueueWorkerRow(db: Db, cover: set<(Projection, string)>, i: nat, t: string)
    requires StoreInv(db) && i < |db.events| && t in RefreshQueue(db, db.events[i].threadId).queue
    requires t in db.queue ==> QueueOk(db.events, cover, t, db.queue[t])
    ensures QueueOk(db.events, cover + {(QueueV1, db.events[i].eventId)}, t, RefreshQueue(db, db.events[i].threadId).queue[t])
  {
    var e, cover' := db.events[i], cover + {(QueueV1, db.events[i].eventId)};
    if t == e.threadId && t in db.threads {
      FreshQueueOk(db.events, cover', t);
    } else {
      var n: nat :| QueueRowAt(db.events, t, db.queue[t], n) && CoversThread(db.events, cover, t, n);
      if t == e.threadId {
        ReplayGrows(db.events, n);
        assert false;
      } else {
        CoverElsewhere(db.events, cover, e, t, n);
      }
    }
  }

  /** A worker's event joins the covered ones in the very step that refreshes its row. */
  lemma QueueWorkerKeepsDerived(db: Db, cover: set<(Projection, string)>, i: nat)
    requires StoreInv(db) && DerivedOk(db, cover) && i < |db.events|
    ensures DerivedOk(RefreshQueue(db, db.events[i].threadId), cover + {(QueueV1, db.events[i].eventId)})
  {
    var e, cover' := db.events[i], cover + {(QueueV1, db.events[i].eventId)};
    var queue' := RefreshQueue(db, e.threadId).queue;
    forall t | t in queue'
      ensures QueueOk(db.events, cover', t, queue'[t])
    {
      QueueWorkerRow(db, cover, i, t);
    }
    QueueWorkerHasRow(db, cover, i);
    StatsCoverIrrelevant(db, cover, cover');
  }

  lemma QueueWorkerHasRow(db: Db, cover: set<(Projection, string)>, i: nat)
    requires Replayed(db) && UniqueIds(db.events) && CoveredHasRow(db.events, cover, db.queue) && i < |db.events|
    ensures CoveredHasRow(db.events, cover + {(QueueV1, db.events[i].eventId)}, RefreshQueue(db, db.events[i].threadId).queue)
  {
    var cover', queue' := cover + {(QueueV1, db.events[i].eventId)}, RefreshQueue(db, db.events[i].threadId).queue;
    forall j | 0 <= j < |db.events| && (QueueV1, db.events[j].eventId) in cover' && db.events[j].threadId in Replay(db.events[..j + 1])
      ensures db.events[j].threadId in queue'
    {
      if j == i { ReplayGrows(db.events, i + 1); }
    }
  }

  lemma CoverElsewhere(events: seq<Event>, cover: set<(Projection, string)>, e: Event, t: string, n: nat)
    requires CoversThread(events, cover, t, n) && UniqueIds(events) && e in events && e.threadId != t
    ensures CoversThread(events, cover + {(QueueV1, e.eventId)}, t, n)
  {
  }

  /** Threads are never deleted. */
  lemma {:induction false} ReplayGrows(events: seq<Event>, n: nat)
    requires n <= |events|
    ensures Replay(events[..n]).Keys <= Replay(events).Keys
    decreases |events|
  {
    if n == |events| {
      assert events[..n] == events;
    } else {
      var before := events[..|events| - 1];
      ReplayGrows(before, n);
      assert before[..n] == events[..n];
    }
  }

  lemma StatsWorkerKeepsDerived(db: Db, cover: set<(Projection, string)>, i: nat)
    requires StoreInv(db) && DerivedOk(db, cover) && i < |db.events|
    ensures DerivedOk(RefreshStats(db, db.events[i].ticket), cover + {(StatsV1, db.events[i].eventId)})
  {
    var e, cover' := db.events[i], cover + {(StatsV1, db.events[i].eventId)};
    var stats' := RefreshStats(db, e.ticket).stats;
    forall ticket
      ensures StatsOk(db.events, cover', ticket, StatsFor(stats', ticket))
    {
      RefreshedStats(db, e.ticket, ticket);
      if ticket == e.ticket {
        FreshStatsOk(db.events, cover', ticket);
      } else {
        var n: nat :| StatsAt(db.events, ticket, StatsFor(db.stats, ticket), n) && CoversTicket(db.events, cover, ticket, n);
        TicketCoverElsewhere(db.events, cover, e, ticket, n);
      }
    }
    QueueCoverIrrelevant(db, cover, cover');
  }

  lemma TicketCoverElsewhere(events: seq<Event>, cover: set<(Projection, string)>, e: Event, ticket: string, n: nat)
    requires CoversTicket(events, cover, ticket, n) && UniqueIds(events) && e in events && e.ticket != ticket
    ensures CoversTicket(events, cover + {(StatsV1, e.eventId)}, ticket, n)
  {
  }

  /** Queue coverage only looks at queue markers. */
  lemma QueueCoverIrrelevant(db: Db, cover: set<(Projection, string)>, cover': set<(Projection, string)>)
    requires forall id :: (QueueV1, id) in cover' ==> (QueueV1, id) in cover
    requires CoveredHasRow(db.events, cover, db.queue) && forall t :: t in db.queue ==> QueueOk(db.events, cover, t, db.queue[t])
    ensures CoveredHasRow(db.events, cover', db.queue) && forall t :: t in db.queue ==> QueueOk(db.events, cover', t, db.queue[t])
  {
    forall t | t in db.queue
      ensures QueueOk(db.events, cover', t, db.queue[t])
    {
      var n: nat :| QueueRowAt(db.events, t, db.queue[t], n) && CoversThread(db.events, cover, t, n);
      assert CoversThread(db.events, cover', t, n);
    }
  }

  lemma StatsCoverIrrelevant(db: Db, cover: set<(Projection, string)>, cover': set<(Projection, string)>)
    requires forall id :: (StatsV1, id) in cover' ==> (StatsV1, id) in cover
    requires forall ticket :: StatsOk(db.events, cover, ticket, StatsFor(db.stats, ticket))
    ensures forall ticket :: StatsOk(db.events, cover', ticket, StatsFor(db.stats, ticket))
  {
    forall ticket
      ensures StatsOk(db.events, cover', ticket, StatsFor(db.stats, ticket))
    {
      var n: nat :| StatsAt(db.events, ticket, StatsFor(db.stats, ticket), n) && CoversTicket(db.events, cover, ticket, n);
      assert CoversTicket(db.events, cover', ticket, n);
    }
  }

  lemma ShrinkingCover(db: Db, cover: set<(Projection, string)>, cover': set<(Projection, string)>)
    requires DerivedOk(db, cover) && cover' <= cover
    ensures DerivedOk(db, cover')
  {
    QueueCoverIrrelevant(db, cover, cover');
    StatsCoverIrrelevant(db, cover, cover');
  }

  lemma WorkerKeepsDerived(db: Db, cover: set<(Projection, string)>, p: Projection, i: nat)
    requires StoreInv(db) && DerivedOk(db, cover) && i < |db.events|
    ensures DerivedOk(Refresh(db, p, SubjectOf(p, db.events[i])), cover + {(p, db.events[i].eventId)})
  {
    match p
    case ViewsV1 =>
      var cover' := cover + {(ViewsV1, db.events[i].eventId)};
      QueueCoverIrrelevant(db, cover, cover');
      StatsCoverIrrelevant(db, cover, cover');
      assert CoverLogged(db.events, cover');
    case QueueV1 => QueueWorkerKeepsDerived(db, cover, i);
    case StatsV1 => StatsWorkerKeepsDerived(db, cover, i);
  }

  // ----- Runs -----

  lemma InitialProjections()
    ensures Inv(Init)
  {
    forall ticket
      ensures StatsOk([], {}, ticket, StatsFor(map[], ticket))
    {
      assert StatsAt([], ticket, StatsFor(map[], ticket), 0);
      assert CoversTicket([], {}, ticket, 0);
    }
  }

  lemma CommitKeepsInv(s: State, cmd: Command, seen: Thread, clock: int)
    requires Inv(s) && SeenOk(s.db, cmd, seen)
    ensures Inv(s.(db := CommitTx(s.db, cmd, seen, clock)))
  {
    var db' := CommitTx(s.db, cmd, seen, clock);
    if !Conflicts(s.db, cmd) {
      CommitKeepsStore(s.db, cmd, seen, clock);
      CommitKeepsPostColumns(s.db, cmd, seen, clock);
      AppendKeepsDerived(s.db, db', EventOf(cmd, seen, clock), Cover(s));
    }
  }

  lemma IntegrationKeepsInv(s: State, env: Envelope, text: string, clock: int)
    requires Inv(s)
    ensures Inv(s.(db := IntegrationTx(s.db, env, text, clock)))
  {
    var db' := IntegrationTx(s.db, env, text, clock);
    if !IsBlank(env.eventId) && !HasEvent(s.db.events, env.eventId) {
      IntegrationKeepsStore(s.db, env, text, clock);
      AppendKeepsDerived(s.db, db', db'.events[|s.db.events|], Cover(s));
    }
  }

  lemma RefreshKeepsStore(db: Db, p: Projection, subject: string)
    requires StoreInv(db) && PostColumnsCurrent(db)
    ensures StoreInv(Refresh(db, p, subject)) && PostColumnsCurrent(Refresh(db, p, subject))
  {
    match p
    case ViewsV1 => RefreshViewKeepsStore(db, subject);
    case QueueV1 => DerivedTablesAreFree(db, RefreshQueue(db, subject));
    case StatsV1 => DerivedTablesAreFree(db, RefreshStats(db, subject));
  }

  lemma RefreshKeepsInv(s: State, p: Projection, subject: string)
    requires Inv(s)
    ensures Inv(s.(db := Refresh(s.db, p, subject)))
  {
    RefreshKeepsStore(s.db, p, subject);
    RefreshKeepsDerived(s.db, Cover(s), p, subject);
    assert Refresh(s.db, p, subject).markers == s.db.markers;
  }

  lemma WorkerCovers(s: State, p: Projection, i: nat)
    requires i < |s.db.events|
    ensures var s' := Next(s, WorkerRefresh(p, i));
            s'.db == Refresh(s.db, p, SubjectOf(p, s.db.events[i])) && Cover(s') == Cover(s) + {(p, s.db.events[i].eventId)}
  {
    assert Refresh(s.db, p, SubjectOf(p, s.db.events[i])).markers == s.db.markers;
  }

  lemma WorkerKeepsInv(s: State, p: Projection, i: nat)
    requires Inv(s) && i < |s.db.events|
    ensures Inv(Next(s, WorkerRefresh(p, i)))
  {
    RefreshKeepsStore(s.db, p, SubjectOf(p, s.db.events[i]));
    WorkerKeepsDerived(s.db, Cover(s), p, i);
    WorkerCovers(s, p, i);
  }

  lemma MarkKeepsInv(s: State, p: Projection, id: string)
    requires Inv(s) && (p, id) in s.refreshed
    ensures Inv(Next(s, WorkerMark(p, id)))
  {
    var s' := Next(s, WorkerMark(p, id));
    DerivedTablesAreFree(s.db, s'.db);
    assert Cover(s') == Cover(s);
    MarkersAreFree(s.db, s'.db, Cover(s));
  }

  lemma MarkersAreFree(db: Db, db': Db, cover: set<(Projection, string)>)
    requires DerivedOk(db, cover) && db' == db.(markers := db'.markers)
    ensures DerivedOk(db', cover)
  {
  }

  /** What every step keeps, whoever takes it and wherever a worker crashes. */
  lemma StepKeepsInv(s: State, step: Step)
    requires Inv(s) && Enabled(s, step)
    ensures Inv(Next(s, step))
  {
    match step
    case Commit(cmd, seen, clock) => CommitKeepsInv(s, cmd, seen, clock);
    case AppendIntegration(env, text, clock) => IntegrationKeepsInv(s, env, text, clock);
    case RefreshOnly(p, subject) => RefreshKeepsInv(s, p, subject);
    case WorkerRefresh(p, i) => WorkerKeepsInv(s, p, i);
    case WorkerMark(p, id) => MarkKeepsInv(s, p, id);
    case Crash(lost) => ShrinkingCover(s.db, Cover(s), s.db.markers + (s.refreshed - lost));
  }

  lemma {:induction false} RunKeepsInv(run: seq<State>)
    requires Behavior(run)
    ensures Inv(run[|run| - 1])
  {
    if |run| == 1 {
      InitialProjections();
    } else {
      var before := run[..|run| - 1];
      forall i | 0 <= i < |before| - 1
        ensures Linked(before[i], before[i + 1])
      {
        assert Linked(run[i], run[i + 1]);
      }
      RunKeepsInv(before);
      var s := before[|before| - 1];
      assert Linked(run[|run| - 2], run[|run| - 2 + 1]);
      var step :| Enabled(s, step) && run[|run| - 1] == Next(s, step);
      StepKeepsInv(s, step);
    }
  }

  // ----- What the invariant means for readers -----

  /** In every reachable state each view shows its thread and the number of its posts, and a thread whose posts were inserted in
      order, with who wrote the last one when. */
  lemma ViewsConverge(run: seq<State>, t: string)
    requires Behavior(run) && t in run[|run| - 1].db.views
    ensures var db := run[|run| - 1].db;
            && t in db.threads && db.views[t].base == db.threads[t] && db.views[t].postsCount == |PostsOf(db.posts, t)|
            && (PostedInOrder(db.posts, t) ==> ShowsPosts(db.views[t], db.threads[t], t, db.posts))
  {
    var db := run[|run| - 1].db;
    RunKeepsInv(run);
    CountIsSize(db.posts, t);
    InOrderExactly(db.posts, t);
    ViewShows(db.threads[t], t, db.posts);
    if InOrder(db.posts, t) { assert db.views[t] == ViewOf(db.threads[t], t, db.posts); }
  }

  /** In every reachable state the log alone determines the base tables, and the views show the same threads. */
  lemma LogDeterminesTables(run: seq<State>)
    requires Behavior(run)
    ensures var db := run[|run| - 1].db;
            && db.threads == Replay(db.events) && db.posts == ReplayPosts(db.events) && db.transitions == ReplayTransitions(db.events)
            && Bases(db.views) == db.threads && UniqueIds(db.events)
  {
    RunKeepsInv(run);
  }

  /** Nothing after position `n` concerns thread `t`. */
  predicate QuietThread(events: seq<Event>, t: string, n: nat) {
    forall i :: n <= i < |events| ==> events[i].threadId != t
  }

  /** Events of other threads leave a thread's queue row alone. */
  lemma {:induction false} QuietThreadRow(events: seq<Event>, t: string, n: nat)
    requires n <= |events| && QuietThread(events, t, n)
    ensures t in Replay(events) <==> t in Replay(events[..n])
    ensures t in Replay(events) ==>
              QueueRowOf(Replay(events)[t], t, events) == QueueRowOf(Replay(events[..n])[t], t, events[..n])
    decreases |events|
  {
    if n == |events| {
      assert events[..n] == events;
    } else {
      var before := events[..|events| - 1];
      assert before[..n] == events[..n];
      QuietThreadRow(before, t, n);
      QuietRowStep(events, t);
    }
  }

  lemma QuietRowStep(events: seq<Event>, t: string)
    requires |events| > 0 && events[|events| - 1].threadId != t
    ensures var before := events[..|events| - 1];
            && (t in Replay(events) <==> t in Replay(before))
            && (t in Replay(events) ==> QueueRowOf(Replay(events)[t], t, events) == QueueRowOf(Replay(before)[t], t, before))
  {
    OtherThreadUntouched(Replay(events[..|events| - 1]), events[|events| - 1], t);
    QuietLastSeq(events, t, {Agent, Operator, Human, System});
    QuietLastSeq(events, t, {Agent, Operator, Human});
    QuietLastSeq(events, t, {Human, Operator});
    QuietLastSeq(events, t, {Agent});
  }

  lemma OtherThreadUntouched(threads: map<string, Thread>, e: Event, t: string)
    requires e.threadId != t
    ensures t in ReplayStep(threads, e) <==> t in threads
    ensures t in threads ==> ReplayStep(threads, e)[t] == threads[t]
  {
  }

  lemma QuietLastSeq(events: seq<Event>, t: string, who: set<Actor>)
    requires |events| > 0 && events[|events| - 1].threadId != t
    ensures LastSeq(events, t, who) == LastSeq(events[..|events| - 1], t, who)
    ensures ActorAt(events, LastSeq(events, t, who)) == ActorAt(events[..|events| - 1], LastSeq(events[..|events| - 1], t, who))
  {
  }

  /** A change of state, priority or existence of a thread of the ticket: what the stats count. */
  predicate CountsIn(e: Event, ticket: string) {
    e.ticket == ticket && (e.payload.Opened? || e.payload.StateChanged? || e.payload.PriorityChanged?)
  }

  predicate QuietTicket(events: seq<Event>, ticket: string, n: nat) {
    forall i :: n <= i < |events| ==> !CountsIn(events[i], ticket)
  }

  /** Changing one row leaves a ticket's counts alone unless the row is the ticket's and its key changes. */
  lemma GroupCountUpdate(rows: map<string, Thread>, t: string, row: Thread, ticket: string)
    requires (t in rows && KeyOf(rows[t]) == KeyOf(row)) ||
             (row.ticket != ticket && (t in rows ==> rows[t].ticket != ticket))
    ensures GroupCount(rows[t := row], ticket) == GroupCount(rows, ticket)
  {
    var rows' := rows[t := row];
    assert KeysOf(rows', ticket) == KeysOf(rows, ticket) by {
      forall k | k in KeysOf(rows, ticket)
        ensures k in KeysOf(rows', ticket)
      {
        var u :| u in rows && rows[u].ticket == ticket && KeyOf(rows[u]) == k;
        assert u in rows' && rows'[u].ticket == ticket && KeyOf(rows'[u]) == k;
      }
    }
    forall k | k in KeysOf(rows, ticket)
      ensures CountOf(rows', k) == CountOf(rows, k)
    {
      assert (set u | u in rows' && KeyOf(rows'[u]) == k) == (set u | u in rows && KeyOf(rows[u]) == k);
    }
  }

  lemma ReplayStepKeepsCounts(threads: map<string, Thread>, e: Event, ticket: string)
    requires Fits(threads, e) && !CountsIn(e, ticket)
    ensures GroupCount(ReplayStep(threads, e), ticket) == GroupCount(threads, ticket)
  {
    if !e.payload.Integration? {
      GroupCountUpdate(threads, e.threadId, ReplayStep(threads, e)[e.threadId], ticket);
    }
  }

  lemma {:induction false} QuietTicketCounts(events: seq<Event>, ticket: string, n: nat)
    requires n <= |events| && WellFormedLog(events) && QuietTicket(events, ticket, n)
    ensures GroupCount(Replay(events), ticket) == GroupCount(Replay(events[..n]), ticket)
    decreases |events|
  {
    if n == |events| {
      assert events[..n] == events;
    } else {
      var before := events[..|events| - 1];
      assert before[..n] == events[..n];
      assert forall i :: n <= i < |before| ==> before[i] == events[i];
      QuietTicketCounts(before, ticket, n);
      ReplayStepKeepsCounts(Replay(before), events[|events| - 1], ticket);
    }
  }

  /** The row shows the thread as it was after the first `n` events, which all events marked for the queue are among. */
  ghost predicate ShownAt(events: seq<Event>, markers: set<(Projection, string)>, t: string, row: QueueRow, n: nat) {
    && n <= |events| && t in Replay(events[..n]) && ShowsThread(row, Replay(events[..n])[t], t, events[..n])
    && forall i :: 0 <= i < |events| && events[i].threadId == t && (QueueV1, events[i].eventId) in markers ==> i < n
  }

  /** Convergence of the queue view. Every row shows its thread, the last events of the thread and their actors, as they were at a
      prefix of the log that covers the thread's marked events; and when the thread's last event is marked, the row exists and
      shows them as they are. */
  lemma QueueConverges(run: seq<State>, t: string)
    requires Behavior(run)
    ensures var s := run[|run| - 1];
            && (t in s.db.queue ==> exists n: nat :: ShownAt(s.db.events, s.db.markers, t, s.db.queue[t], n))
            && (t in s.db.threads && LastEventMarked(s, t) ==>
                  t in s.db.queue && ShowsThread(s.db.queue[t], s.db.threads[t], t, s.db.events))
  {
    var s := run[|run| - 1];
    RunKeepsInv(run);
    QueueCurrentWhenMarked(s, t);
    if t in s.db.queue {
      ShrinkingCover(s.db, Cover(s), s.db.markers);
      var n: nat :| QueueRowAt(s.db.events, t, s.db.queue[t], n) && CoversThread(s.db.events, s.db.markers, t, n);
      QueueRowShows(s.db.queue[t], Replay(s.db.events[..n])[t], t, s.db.events[..n]);
      assert ShownAt(s.db.events, s.db.markers, t, s.db.queue[t], n);
      if t in s.db.threads { QueueRowShows(s.db.queue[t], s.db.threads[t], t, s.db.events); }
    }
  }

  /** The last event of thread `t` carries the queue marker. */
  ghost predicate LastEventMarked(s: State, t: string) {
    exists i :: && 0 <= i < |s.db.events| && s.db.events[i].threadId == t
                && QuietThread(s.db.events, t, i + 1) && (QueueV1, s.db.events[i].eventId) in s.db.markers
  }

  lemma CoveredRowIsCurrent(events: seq<Event>, cover: set<(Projection, string)>, t: string, row: QueueRow, last: nat)
    requires last < |events| && events[last].threadId == t && QuietThread(events, t, last + 1)
    requires (QueueV1, events[last].eventId) in cover && QueueOk(events, cover, t, row)
    ensures t in Replay(events) && row == QueueRowOf(Replay(events)[t], t, events)
  {
    var n: nat :| QueueRowAt(events, t, row, n) && CoversThread(events, cover, t, n);
    assert last < n && QuietThread(events, t, n);
    QuietThreadRow(events, t, n);
  }

  lemma QueueCurrentWhenMarked(s: State, t: string)
    requires Inv(s)
    ensures t in s.db.threads && LastEventMarked(s, t) ==>
              t in s.db.queue && s.db.queue[t] == QueueRowOf(s.db.threads[t], t, s.db.events)
  {
    if t in s.db.threads && LastEventMarked(s, t) {
      var events := s.db.events;
      var last :| 0 <= last < |events| && events[last].threadId == t && QuietThread(events, t, last + 1) &&
                  (QueueV1, events[last].eventId) in s.db.markers;
      QuietThreadRow(events, t, last + 1);
      assert t in Replay(events[..last + 1]) && events[last].threadId in s.db.queue;
      CoveredRowIsCurrent(events, Cover(s), t, s.db.queue[t], last);
    }
  }

  /** The rows count the ticket's threads as they were after the first `n` events, which all events marked for the stats are
      among. */
  ghost predicate CountedAt(events: seq<Event>, markers: set<(Projection, string)>, ticket: string, rows: map<StatKey, nat>, n: nat) {
    && n <= |events| && CountsThreads(rows, Replay(events[..n]), ticket)
    && forall i :: 0 <= i < |events| && events[i].ticket == ticket && (StatsV1, events[i].eventId) in markers ==> i < n
  }

  /** Convergence of the stats table: a ticket's slice counts its threads by run, state and priority as they were at a prefix of
      the log that covers its marked events, and as they are as soon as the last event that moves a count is marked. */
  lemma StatsConverge(run: seq<State>, ticket: string)
    requires Behavior(run)
    ensures var s := run[|run| - 1];
            && (exists n: nat :: CountedAt(s.db.events, s.db.markers, ticket, StatsFor(s.db.stats, ticket), n))
            && (LastCountMarked(s, ticket) ==> CountsThreads(StatsFor(s.db.stats, ticket), s.db.threads, ticket))
  {
    var s := run[|run| - 1];
    var rows := StatsFor(s.db.stats, ticket);
    RunKeepsInv(run);
    ShrinkingCover(s.db, Cover(s), s.db.markers);
    StatsCurrentWhenMarked(s, ticket);
    assert StatsOk(s.db.events, s.db.markers, ticket, rows);
    var n: nat :| StatsAt(s.db.events, ticket, rows, n) && CoversTicket(s.db.events, s.db.markers, ticket, n);
    GroupCountShows(rows, Replay(s.db.events[..n]), ticket);
    GroupCountShows(rows, s.db.threads, ticket);
    assert CountedAt(s.db.events, s.db.markers, ticket, rows, n);
  }

  ghost predicate LastCountMarked(s: State, ticket: string) {
    || QuietTicket(s.db.events, ticket, 0)
    || exists i :: && 0 <= i < |s.db.events| && s.db.events[i].ticket == ticket
                   && QuietTicket(s.db.events, ticket, i + 1) && (StatsV1, s.db.events[i].eventId) in s.db.markers
  }

  lemma StatsCurrentWhenMarked(s: State, ticket: string)
    requires Inv(s)
    ensures LastCountMarked(s, ticket) ==> StatsFor(s.db.stats, ticket) == GroupCount(s.db.threads, ticket)
  {
    if LastCountMarked(s, ticket) {
      var events := s.db.events;
      assert StatsOk(events, Cover(s), ticket, StatsFor(s.db.stats, ticket));
      var n: nat :| StatsAt(events, ticket, StatsFor(s.db.stats, ticket), n) && CoversTicket(events, Cover(s), ticket, n);
      assert QuietTicket(events, ticket, n);
      QuietTicketCounts(events, ticket, n);
    }
  }

  /** A command that moves no count and a completed one leave the stats of every ticket current: refreshing the one
      ticket the command names suffices. */
  lemma CompletedCommandKeepsStats(db: Db, cmd: Command, seen: Thread, clock: int, ticket: string)
    requires StoreInv(db) && SeenOk(db, cmd, seen) && !Conflicts(db, cmd)
    requires StatsFor(db.stats, ticket) == GroupCount(db.threads, ticket)
    ensures var db' := CommitTx(db, cmd, seen, clock);
            var e := EventOf(cmd, seen, clock);
            var done := if CountsIn(e, e.ticket) then RefreshStats(db', e.ticket) else db';
            StatsFor(done.stats, ticket) == GroupCount(done.threads, ticket)
  {
    var db', e := CommitTx(db, cmd, seen, clock), EventOf(cmd, seen, clock);
    CommitKeepsStore(db, cmd, seen, clock);
    EventReplaysCommand(db.threads, cmd, seen, clock);
    if CountsIn(e, ticket) {
      RefreshedStats(db', e.ticket, ticket);
    } else {
      ReplayStepKeepsCounts(db.threads, e, ticket);
      if CountsIn(e, e.ticket) { RefreshedStats(db', e.ticket, ticket); }
    }
  }
}
