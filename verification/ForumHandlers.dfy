/** The two handlers the service registers on the bus, as runs of the whole system: a command handler commits, refreshes and
    publishes the logged event; an event handler runs the three projections. What the system demands of a handler that
    returns without error is shown to be what these do. */
module ForumHandlers {
  import opened Options
  import opened ForumModel
  import opened ForumTables
  import opened ForumOutbox
  import opened ForumStore
  import opened ForumSystem
  import E = ForumEffects
  import ForumReplay
  import P = ForumProjections
  import B = ForumBus

  /** Some steps of the system lead from `s` to `s'`. */
  ghost predicate Leads(s: State, s': State) {
    exists run: seq<State> :: IsPath(run, s, s')
  }

  ghost predicate IsPath(run: seq<State>, s: State, s': State) {
    && |run| > 0 && run[0] == s && run[|run| - 1] == s'
    && forall i :: 0 <= i < |run| - 1 ==> Linked(run[i], run[i + 1])
  }

  lemma LeadsSelf(s: State)
    ensures Leads(s, s)
  {
    assert IsPath([s], s, s);
  }

  lemma LeadsStep(s: State, mid: State, step: Step)
    requires Leads(s, mid) && Enabled(mid, step)
    ensures Leads(s, Next(mid, step))
  {
    var run :| IsPath(run, s, mid);
    var longer := run + [Next(mid, step)];
    assert Linked(mid, Next(mid, step));
    forall i | 0 <= i < |longer| - 1 ensures Linked(longer[i], longer[i + 1]) {
      if i < |run| - 1 { assert Linked(run[i], run[i + 1]); }
    }
    assert IsPath(longer, s, Next(mid, step));
  }

  // ----- The command handler -----

  /** The logged event of an id. */
  function FindEvent(events: seq<Event>, id: string): (found: Option<Event>)
    ensures found.Some? <==> HasEvent(events, id)
    ensures found.Some? ==> found.value in events && found.value.eventId == id
  {
    if |events| == 0 then None
    else if events[|events| - 1].eventId == id then Some(events[|events| - 1])
    else
      var before := FindEvent(events[..|events| - 1], id);
      assert HasEvent(events, id) <==> HasEvent(events[..|events| - 1], id) by {
        if i :| 0 <= i < |events| && events[i].eventId == id { assert events[..|events| - 1][i].eventId == id; }
      }
      before
  }

  /** What publishing the event meets: the topic of its type, if there is one, the message id the clock gives, and whether the
      message can be enqueued. */
  datatype Publishing = Publishing(topic: Option<string>, id: string, now: int, enqueued: bool)

  /** The store after a command method. */
  function Commanded(s: State, cmd: Command, clock: int): State {
    s.(store := s.store.(db := Handled(s.store.db, cmd, clock)))
  }

  /** The command handler: run the command method, then publish the event it logged, or logged before. */
  function HandleCommand(s: State, cmd: Command, clock: int, p: Publishing): (State, bool) {
    var mid := Commanded(s, cmd, clock);
    var event := FindEvent(mid.store.db.events, cmd.env.eventId);
    if OutcomeOf(s.store.db, cmd) != Done || event.None? || p.topic.None? || !p.enqueued then (mid, false)
    else (mid.(bus := mid.bus.(outbox := Enqueue(mid.bus.outbox, p.id, p.topic.value, EventMessage(event.value), p.now))), true)
  }

  lemma CommandLeads(s: State, cmd: Command, clock: int)
    requires Inv(s)
    ensures Leads(s, Commanded(s, cmd, clock))
  {
    LeadsSelf(s);
    if Refusal(s.store.db, cmd).None? {
      var seen := SeenRow(s.store.db, cmd);
      var mid := Next(s, StoreStep(P.Commit(cmd, seen, clock)));
      LeadsStep(s, s, StoreStep(P.Commit(cmd, seen, clock)));
      RefreshesLead(s, mid, cmd, EventOf(cmd, seen, clock).ticket);
    }
  }

  lemma RefreshesLead(s: State, mid: State, cmd: Command, ticket: string)
    requires Leads(s, mid)
    ensures Leads(s, mid.(store := mid.store.(db := RefreshedAfter(mid.store.db, cmd, ticket))))
  {
    var counted := mid;
    if MovesCounts(cmd) {
      counted := Next(mid, StoreStep(P.RefreshOnly(StatsV1, ticket)));
      LeadsStep(s, mid, StoreStep(P.RefreshOnly(StatsV1, ticket)));
    }
    if !IsBlank(cmd.env.threadId) { LeadsStep(s, counted, StoreStep(P.RefreshOnly(QueueV1, cmd.env.threadId))); }
  }

  /** A command handler takes steps of the system only, and when it returns without error it has done what the system demands
      of it: its event is in the outbox. Otherwise it has put nothing there. */
  lemma CommandHandlerIsDone(s: State, cmd: Command, clock: int, p: Publishing)
    requires Inv(s) && !HasMessage(s.bus.outbox, p.id)
    ensures var (s', ok) := HandleCommand(s, cmd, clock, p);
            && Leads(s, s') && Inv(s') && s'.store.db == Handled(s.store.db, cmd, clock)
            && (ok <==> OutcomeOf(s.store.db, cmd) == Done && p.topic.Some? && p.enqueued)
            && if ok then HandlerDone(s', CommandMessage(cmd)) else s'.bus == s.bus
  {
    var mid := Commanded(s, cmd, clock);
    var (s', ok) := HandleCommand(s, cmd, clock, p);
    CommandLeads(s, cmd, clock);
    DoneIsLogged(s.store.db, cmd, clock);
    if ok {
      var event := FindEvent(mid.store.db.events, cmd.env.eventId).value;
      var step := BusStep(B.Publish(p.id, p.topic.value, EventMessage(event), p.now));
      LeadsStep(s, mid, step);
      B.EnqueueExactly(s.bus.outbox, p.id, p.topic.value, EventMessage(event), p.now);
      QueuedNow(s'.bus.outbox, p.id, p.topic.value, event);
    }
    LeadsKeepInv(s, s');
  }

  lemma DoneIsLogged(db: Db, cmd: Command, clock: int)
    requires ForumReplay.StoreInv(db)
    ensures OutcomeOf(db, cmd) == Done ==> HasEvent(Handled(db, cmd, clock).events, cmd.env.eventId)
  {
    E.OutcomeExactly(db, cmd);
    E.HandledMeaning(db, cmd, clock);
    var events := Handled(db, cmd, clock).events;
    if E.Runs(db, cmd) { assert events[|db.events|].eventId == cmd.env.eventId; }
    E.LoggedExactly(db, cmd.env.eventId);
  }

  lemma QueuedNow(rows: seq<Row>, id: string, topic: string, event: Event)
    requires B.Backed(rows, B.Entry(id, topic, EventMessage(event)))
    ensures EventQueued(rows, event.eventId)
  {
    var i :| 0 <= i < |rows| && rows[i].messageId == id && rows[i].topic == topic && rows[i].payload == EventMessage(event);
    assert rows[i].payload.EventMessage? && rows[i].payload.event.eventId == event.eventId;
  }

  lemma LeadsKeepInv(s: State, s': State)
    requires Inv(s) && Leads(s, s')
    ensures Inv(s')
  {
    var run :| IsPath(run, s, s');
    PathKeepsInv(run, |run|);
  }

  lemma {:induction false} PathKeepsInv(run: seq<State>, n: nat)
    requires 0 < n <= |run| && Inv(run[0]) && forall i :: 0 <= i < |run| - 1 ==> Linked(run[i], run[i + 1])
    ensures Inv(run[n - 1])
    decreases n
  {
    if n > 1 {
      PathKeepsInv(run, n - 1);
      assert Linked(run[n - 2], run[n - 2 + 1]);
      var step :| Enabled(run[n - 2], step) && run[n - 1] == Next(run[n - 2], step);
      if step.StoreStep? { StoreStepKeepsInv(run[n - 2], step.p); } else { BusStepKeepsInv(run[n - 2], step.b); }
    }
  }

  // ----- The event handler -----

  /** One projection: skipped when it is marked, refreshed and then marked otherwise. */
  lemma ProjectionLeads(s: State, mid: State, p: Projection, e: Event) returns (s': State)
    requires Leads(s, mid) && e in mid.store.db.events
    ensures Leads(s, s') && s'.bus == mid.bus && s'.store.db == ProjectOnce(mid.store.db, p, e) && e in s'.store.db.events
  {
    s' := mid;
    if (p, e.eventId) !in mid.store.db.markers {
      var i: nat :| i < |mid.store.db.events| && mid.store.db.events[i] == e;
      var refreshed := Next(mid, StoreStep(P.WorkerRefresh(p, i)));
      LeadsStep(s, mid, StoreStep(P.WorkerRefresh(p, i)));
      s' := Next(refreshed, StoreStep(P.WorkerMark(p, e.eventId)));
      LeadsStep(s, refreshed, StoreStep(P.WorkerMark(p, e.eventId)));
    }
  }

  /** An event handler takes steps of the system only, and leaves the store as the projections leave it; when it is not refused
      it has done what the system demands of it: all three markers are set. */
  lemma EventHandlerIsDone(s: State, e: Event) returns (s': State)
    requires Inv(s) && e in s.store.db.events
    ensures Leads(s, s') && Inv(s') && s'.bus == s.bus
    ensures s'.store.db == if IsRefused(e) then s.store.db else ForumStore.Projected(s.store.db, e)
    ensures !IsRefused(e) ==> HandlerDone(s', EventMessage(e))
  {
    LeadsSelf(s);
    s' := s;
    if !IsRefused(e) {
      s' := ProjectionLeads(s, s', ViewsV1, e);
      s' := ProjectionLeads(s, s', QueueV1, e);
      s' := ProjectionLeads(s, s', StatsV1, e);
      ProjectionsAreIdempotent(s.store.db, e);
    }
    LeadsKeepInv(s, s');
  }
}
