/** The store and the bus together. Command handlers commit, refresh and publish the logged event; event handlers run
    the projections and mark them. Every piece may fail, crash, or be repeated, in any order. As long as an event's
    projections are not marked there is work left that will run them; and when no work is left, the derived tables
    agree with the whole log. */
module ForumSystem {
  import opened Options
  import opened ForumModel
  import opened ForumTables
  import opened ForumDerived
  import ForumReplay
  import opened ForumOutbox
  import P = ForumProjections
  import B = ForumBus

  datatype State = State(store: P.State, bus: B.Bus)

  datatype Step = StoreStep(p: P.Step) | BusStep(b: B.Step)

  const Init := State(P.Init, B.Init)

  /** The outbox carries the logged event with this id, for the event topic. */
  predicate EventQueued(rows: seq<Row>, id: string) {
    exists i :: 0 <= i < |rows| && rows[i].payload.EventMessage? && rows[i].payload.event.eventId == id
  }

  predicate Projected(markers: set<(Projection, string)>, id: string) {
    (ViewsV1, id) in markers && (QueueV1, id) in markers && (StatsV1, id) in markers
  }

  /** When a handler may return without error. A command handler's last act is to publish its event;
      an event handler's is to set the last of the three markers. */
  predicate HandlerDone(s: State, payload: Message) {
    match payload
    case CommandMessage(cmd) => EventQueued(s.bus.outbox, cmd.env.eventId)
    case EventMessage(e) => Projected(s.store.db.markers, e.eventId)
  }

  predicate Enabled(s: State, step: Step) {
    match step
    case StoreStep(p) => P.Enabled(s.store, p)
    case BusStep(b) =>
      && B.Enabled(s.bus, b) && B.Serialized(s.bus, b)
      && (b.Publish? ==> !HasMessage(s.bus.outbox, b.id) && (b.payload.EventMessage? ==> b.payload.event in s.store.db.events))
      && (b.HandlerSucceeds? ==> HandlerDone(s, b.entry.payload))
  }

  function Next(s: State, step: Step): State
    requires Enabled(s, step)
  {
    match step
    case StoreStep(p) => s.(store := P.Next(s.store, p))
    case BusStep(b) => s.(bus := B.Next(s.bus, b))
  }

  ghost predicate Linked(s: State, s': State) {
    exists step :: Enabled(s, step) && s' == Next(s, step)
  }

  ghost predicate Behavior(run: seq<State>) {
    && |run| > 0 && run[0] == Init
    && forall i :: 0 <= i < |run| - 1 ==> Linked(run[i], run[i + 1])
  }

  // ----- The joint invariant -----

  ghost predicate EventsLogged(rows: seq<Row>, events: seq<Event>) {
    forall i :: 0 <= i < |rows| && rows[i].payload.EventMessage? ==> rows[i].payload.event in events
  }

  /** Whatever was handled is done, and stays done. */
  ghost predicate HandledDone(s: State) {
    forall i :: 0 <= i < |s.bus.outbox| && s.bus.outbox[i].messageId in s.bus.handled ==> HandlerDone(s, s.bus.outbox[i].payload)
  }

  ghost predicate Inv(s: State) {
    P.Inv(s.store) && B.Inv(s.bus) && EventsLogged(s.bus.outbox, s.store.db.events) && HandledDone(s)
      && forall id :: id in s.bus.handled ==> HasMessage(s.bus.outbox, id)
  }

  /** Store steps only add to the log and to the markers. */
  lemma StoreGrows(s: P.State, step: P.Step)
    requires P.Enabled(s, step)
    ensures s.db.events <= P.Next(s, step).db.events && s.db.markers <= P.Next(s, step).db.markers
  {
  }

  lemma StoreStepKeepsInv(s: State, p: P.Step)
    requires Inv(s) && P.Enabled(s.store, p)
    ensures Inv(Next(s, StoreStep(p)))
  {
    P.StepKeepsInv(s.store, p);
    StoreGrows(s.store, p);
    GrownStoreKeepsLinks(s, P.Next(s.store, p));
  }

  lemma GrownStoreKeepsLinks(s: State, store: P.State)
    requires EventsLogged(s.bus.outbox, s.store.db.events) && HandledDone(s)
    requires s.store.db.events <= store.db.events && s.store.db.markers <= store.db.markers
    ensures EventsLogged(s.bus.outbox, store.db.events) && HandledDone(s.(store := store))
  {
    forall i | 0 <= i < |s.bus.outbox| && s.bus.outbox[i].messageId in s.bus.handled
      ensures HandlerDone(s.(store := store), s.bus.outbox[i].payload)
    {
      assert HandlerDone(s, s.bus.outbox[i].payload);
    }
  }

  /** Bus steps keep every message and its contents. */
  lemma MessagesStay(s: B.Bus, step: B.Step)
    requires B.Enabled(s, step)
    ensures B.SameMessages(s.outbox, B.Next(s, step).outbox)
    ensures !step.Publish? ==> |B.Next(s, step).outbox| == |s.outbox|
  {
    if step.ClaimBatch? { ClaimMeaning(s.outbox, step.limit, step.marker); }
  }

  lemma QueuedStays(rows: seq<Row>, rows': seq<Row>, id: string)
    requires B.SameMessages(rows, rows') && EventQueued(rows, id)
    ensures EventQueued(rows', id)
  {
    var i :| 0 <= i < |rows| && rows[i].payload.EventMessage? && rows[i].payload.event.eventId == id;
    assert rows'[i].payload == rows[i].payload;
  }

  lemma MessageStays(rows: seq<Row>, rows': seq<Row>, id: string)
    requires B.SameMessages(rows, rows') && HasMessage(rows, id)
    ensures HasMessage(rows', id)
  {
    var i :| 0 <= i < |rows| && rows[i].messageId == id;
    assert rows'[i].messageId == id;
  }

  lemma BusStepKeepsInv(s: State, b: B.Step)
    requires Inv(s) && Enabled(s, BusStep(b))
    ensures Inv(Next(s, BusStep(b)))
  {
    var bus := B.Next(s.bus, b);
    B.StepKeepsInv(s.bus, b);
    MessagesStay(s.bus, b);
    if b.HandlerSucceeds? {
      SuccessKeepsLinks(s, b.entry);
    } else if b.Publish? {
      PublishedRow(s.bus, b);
      PublishKeepsLinks(s, bus, b);
    } else {
      HandledUnchanged(s.bus, b);
      OtherBusStepKeepsLinks(s, bus);
    }
  }

  lemma HandledUnchanged(s: B.Bus, b: B.Step)
    requires B.Enabled(s, b) && !b.HandlerSucceeds?
    ensures B.Next(s, b).handled == s.handled
  {
  }

  lemma PublishedRow(s: B.Bus, b: B.Step)
    requires b.Publish? && !HasMessage(s.outbox, b.id)
    ensures B.Next(s, b).outbox == s.outbox + [Row(b.id, b.topic, b.payload, Pending, 0, b.now, Second(b.now))]
    ensures B.Next(s, b).handled == s.handled
  {
  }

  lemma DoneStays(s: State, bus: B.Bus, payload: Message)
    requires HandlerDone(s, payload) && B.SameMessages(s.bus.outbox, bus.outbox)
    ensures HandlerDone(s.(bus := bus), payload)
  {
    if payload.CommandMessage? { QueuedStays(s.bus.outbox, bus.outbox, payload.cmd.env.eventId); }
  }

  lemma OtherBusStepKeepsLinks(s: State, bus: B.Bus)
    requires EventsLogged(s.bus.outbox, s.store.db.events) && HandledDone(s)
    requires forall id :: id in s.bus.handled ==> HasMessage(s.bus.outbox, id)
    requires B.SameMessages(s.bus.outbox, bus.outbox) && |bus.outbox| == |s.bus.outbox| && bus.handled == s.bus.handled
    ensures EventsLogged(bus.outbox, s.store.db.events) && HandledDone(s.(bus := bus))
    ensures forall id :: id in bus.handled ==> HasMessage(bus.outbox, id)
  {
    forall i | 0 <= i < |bus.outbox| && bus.outbox[i].messageId in bus.handled
      ensures HandlerDone(s.(bus := bus), bus.outbox[i].payload)
    {
      DoneStays(s, bus, s.bus.outbox[i].payload);
    }
    forall id | id in bus.handled
      ensures HasMessage(bus.outbox, id)
    {
      MessageStays(s.bus.outbox, bus.outbox, id);
    }
  }

  lemma PublishKeepsLinks(s: State, bus: B.Bus, b: B.Step)
    requires EventsLogged(s.bus.outbox, s.store.db.events) && HandledDone(s)
    requires forall id :: id in s.bus.handled ==> HasMessage(s.bus.outbox, id)
    requires b.Publish? && !HasMessage(s.bus.outbox, b.id) && (b.payload.EventMessage? ==> b.payload.event in s.store.db.events)
    requires bus.outbox == s.bus.outbox + [Row(b.id, b.topic, b.payload, Pending, 0, b.now, Second(b.now))] && bus.handled == s.bus.handled
    ensures EventsLogged(bus.outbox, s.store.db.events) && HandledDone(s.(bus := bus))
    ensures forall id :: id in bus.handled ==> HasMessage(bus.outbox, id)
  {
    forall i | 0 <= i < |bus.outbox| && bus.outbox[i].messageId in bus.handled
      ensures HandlerDone(s.(bus := bus), bus.outbox[i].payload)
    {
      assert i < |s.bus.outbox|;
      DoneStays(s, bus, s.bus.outbox[i].payload);
    }
    forall id | id in bus.handled
      ensures HasMessage(bus.outbox, id)
    {
      MessageStays(s.bus.outbox, bus.outbox, id);
    }
  }

  /** The row of a handled entry carries the entry's payload. */
  lemma SuccessKeepsLinks(s: State, e: B.Entry)
    requires Inv(s) && e in s.bus.stream && HandlerDone(s, e.payload)
    ensures var s' := s.(bus := s.bus.(handled := s.bus.handled + {e.messageId}));
            HandledDone(s') && forall id :: id in s'.bus.handled ==> HasMessage(s'.bus.outbox, id)
  {
    assert B.Backed(s.bus.outbox, e);
    var i :| 0 <= i < |s.bus.outbox| && s.bus.outbox[i].messageId == e.messageId && s.bus.outbox[i].payload == e.payload;
    var s' := s.(bus := s.bus.(handled := s.bus.handled + {e.messageId}));
    forall j | 0 <= j < |s.bus.outbox| && s.bus.outbox[j].messageId in s'.bus.handled
      ensures HandlerDone(s', s.bus.outbox[j].payload)
    {
      if s.bus.outbox[j].messageId == e.messageId { assert i == j; }
      DoneStays(s, s'.bus, s.bus.outbox[j].payload);
    }
  }

  lemma {:induction false} RunKeepsInv(run: seq<State>)
    requires Behavior(run)
    ensures Inv(run[|run| - 1])
  {
    if |run| == 1 {
      P.InitialProjections();
    } else {
      var before := run[..|run| - 1];
      forall i | 0 <= i < |before| - 1
        ensures Linked(before[i], before[i + 1])
      {
        assert Linked(run[i], run[i + 1]);
      }
      RunKeepsInv(before);
      var s := before[|before| - 1];
      assert Linked(run[|run| - 2], run[|run| - 2 + 1]);
      var step :| Enabled(s, step) && run[|run| - 1] == Next(s, step);
      if step.StoreStep? { StoreStepKeepsInv(s, step.p); } else { BusStepKeepsInv(s, step.b); }
    }
  }

  // ----- What follows -----

  /** Row `i` still has work to do: it waits in the outbox or Redis holds it. */
  predicate Live(bus: B.Bus, i: nat) {
    i < |bus.outbox| && (bus.outbox[i].status != Sent || B.HasEntry(bus.stream, bus.outbox[i].messageId))
  }

  /** Row `i` carries the command that logs event `id`, or the logged event itself. */
  predicate Concerns(bus: B.Bus, i: nat, id: string) {
    i < |bus.outbox| &&
    match bus.outbox[i].payload
    case CommandMessage(cmd) => cmd.env.eventId == id
    case EventMessage(e) => e.eventId == id
  }

  ghost predicate Carried(bus: B.Bus, id: string) {
    exists i: nat :: i < |bus.outbox| && bus.outbox[i].payload.CommandMessage? && bus.outbox[i].payload.cmd.env.eventId == id
  }

  /** An event whose command went through the bus is never forgotten: its projections are marked, or a message that leads
      to their marking is live. */
  lemma NothingForgotten(run: seq<State>, id: string)
    requires Behavior(run) && Carried(run[|run| - 1].bus, id)
    ensures var s := run[|run| - 1];
            Projected(s.store.db.markers, id) || exists i: nat :: Concerns(s.bus, i, id) && Live(s.bus, i)
  {
    RunKeepsInv(run);
    PendingOrProjected(run[|run| - 1], id);
  }

  lemma PendingOrProjected(s: State, id: string)
    requires Inv(s) && Carried(s.bus, id)
    ensures Projected(s.store.db.markers, id) || exists i: nat :: Concerns(s.bus, i, id) && Live(s.bus, i)
  {
    var i: nat :| i < |s.bus.outbox| && s.bus.outbox[i].payload.CommandMessage? && s.bus.outbox[i].payload.cmd.env.eventId == id;
    assert Concerns(s.bus, i, id);
    assert B.Kept(s.bus, s.bus.outbox[i]);
    if !Live(s.bus, i) {
      assert HandlerDone(s, s.bus.outbox[i].payload);
      var j :| 0 <= j < |s.bus.outbox| && s.bus.outbox[j].payload.EventMessage? && s.bus.outbox[j].payload.event.eventId == id;
      assert Concerns(s.bus, j, id);
      assert B.Kept(s.bus, s.bus.outbox[j]);
      if !Live(s.bus, j) { assert HandlerDone(s, s.bus.outbox[j].payload); }
    }
  }

  lemma QuiescentProjected(s: State, id: string)
    requires Inv(s) && B.Quiescent(s.bus) && Carried(s.bus, id)
    ensures Projected(s.store.db.markers, id)
  {
    PendingOrProjected(s, id);
    assert forall i: nat :: !Live(s.bus, i);
  }

  /** The last event of thread `t` came in through the bus. */
  ghost predicate LastCarried(s: State, t: string) {
    exists i :: && 0 <= i < |s.store.db.events| && s.store.db.events[i].threadId == t
                && P.QuietThread(s.store.db.events, t, i + 1) && Carried(s.bus, s.store.db.events[i].eventId)
  }

  /** When no message waits and Redis is drained, the queue row of every thread whose last event came through the bus shows the
      thread and its last events as the whole log has them, whatever crashed, was repeated or arrived out of order on the way. */
  lemma QuiescentQueueConverges(run: seq<State>, t: string)
    requires Behavior(run)
    ensures var s := run[|run| - 1];
            var db := s.store.db;
            B.Quiescent(s.bus) && t in db.threads && LastCarried(s, t) ==>
              t in db.queue && ShowsThread(db.queue[t], db.threads[t], t, db.events)
  {
    var s := run[|run| - 1];
    RunKeepsInv(run);
    if B.Quiescent(s.bus) && t in s.store.db.threads && LastCarried(s, t) {
      var events := s.store.db.events;
      var i :| 0 <= i < |events| && events[i].threadId == t && P.QuietThread(events, t, i + 1) && Carried(s.bus, events[i].eventId);
      QuiescentProjected(s, events[i].eventId);
      assert P.LastEventMarked(s.store, t);
      P.QueueCurrentWhenMarked(s.store, t);
      QueueRowShows(s.store.db.queue[t], s.store.db.threads[t], t, events);
    }
  }

  /** The last event that moved a count of the ticket came in through the bus. */
  ghost predicate LastCountCarried(s: State, ticket: string) {
    exists i :: && 0 <= i < |s.store.db.events| && s.store.db.events[i].ticket == ticket
                && P.QuietTicket(s.store.db.events, ticket, i + 1) && Carried(s.bus, s.store.db.events[i].eventId)
  }

  /** The same for the stats of a ticket. */
  lemma QuiescentStatsConverge(run: seq<State>, ticket: string)
    requires Behavior(run)
    ensures var s := run[|run| - 1];
            var db := s.store.db;
            B.Quiescent(s.bus) && LastCountCarried(s, ticket) ==>
              CountsThreads(StatsFor(db.stats, ticket), db.threads, ticket)
  {
    var s := run[|run| - 1];
    RunKeepsInv(run);
    if B.Quiescent(s.bus) && LastCountCarried(s, ticket) {
      var events := s.store.db.events;
      var i :| 0 <= i < |events| && events[i].ticket == ticket && P.QuietTicket(events, ticket, i + 1) && Carried(s.bus, events[i].eventId);
      QuiescentProjected(s, events[i].eventId);
      assert P.LastCountMarked(s.store, ticket);
      P.StatsCurrentWhenMarked(s.store, ticket);
      GroupCountShows(StatsFor(s.store.db.stats, ticket), s.store.db.threads, ticket);
    }
  }
}
