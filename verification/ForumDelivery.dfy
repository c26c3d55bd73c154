/** Exactly-once effect over at-least-once delivery. The bus hands a command to its handler any number of times,
    in any order, and the handler may fail before its transaction, or commit and fail afterwards; the base tables
    end up as if each command had been delivered once, when its transaction first committed. */
module ForumDelivery {
  import opened Options
  import opened ForumModel
  import opened ForumTables
  import opened ForumReplay
  import opened ForumStore
  import E = ForumEffects

  /** Where a delivery breaks off: not at all, before the transaction, or after it with or without the stats refresh. */
  datatype Fault = NoFault | BeforeCommit | AfterCommit(counted: bool)

  datatype Delivery = Delivery(cmd: Command, clock: int, fault: Fault)

  /** The delivery's transaction commits. */
  predicate Accepted(db: Db, d: Delivery) {
    d.fault != BeforeCommit && Refusal(db, d.cmd).None?
  }

  function Deliver(db: Db, d: Delivery): Db {
    if !Accepted(db, d) then db
    else
      var seen := SeenRow(db, d.cmd);
      var committed := CommitTx(db, d.cmd, seen, d.clock);
      var ticket := EventOf(d.cmd, seen, d.clock).ticket;
      match d.fault
      case AfterCommit(counted) => if counted && MovesCounts(d.cmd) then RefreshStats(committed, ticket) else committed
      case _ => RefreshedAfter(committed, d.cmd, ticket)
  }

  function Run(db: Db, ds: seq<Delivery>): Db
    decreases |ds|
  {
    if |ds| == 0 then db else Run(Deliver(db, ds[0]), ds[1..])
  }

  /** What is left when every delivery but those that committed is struck out and those are made faultless. */
  function Kept(db: Db, ds: seq<Delivery>): seq<Delivery>
    decreases |ds|
  {
    if |ds| == 0 then []
    else
      var rest := Kept(Deliver(db, ds[0]), ds[1..]);
      if Accepted(db, ds[0]) then [ds[0].(fault := NoFault)] + rest else rest
  }

  /** A delivery logs its event exactly if the command runs and the delivery does not break off before the transaction; otherwise it
      does nothing. One that breaks off later leaves the queue behind, and the stats unless they were refreshed first. */
  lemma DeliverExactly(db: Db, d: Delivery)
    requires StoreInv(db)
    ensures var db', id := Deliver(db, d), d.cmd.env.eventId;
            && (HasEvent(db'.events, id) <==> HasEvent(db.events, id) || (d.fault != BeforeCommit && E.Runs(db, d.cmd)))
            && (d.fault == BeforeCommit || !E.Runs(db, d.cmd) ==> db' == db)
            && (d.fault == NoFault ==> db' == Handled(db, d.cmd, d.clock))
            && (d.fault.AfterCommit? ==> db'.queue == db.queue && db'.stats == if d.fault.counted then Handled(db, d.cmd, d.clock).stats else db.stats)
  {
    E.RunsExactly(db, d.cmd);
    if Accepted(db, d) {
      var seen := SeenRow(db, d.cmd);
      DeliveredLog(db, d);
      HasEventAppend(db.events, EventOf(d.cmd, seen, d.clock), d.cmd.env.eventId);
      RefreshedStatsAre(CommitTx(db, d.cmd, seen, d.clock), d.cmd, EventOf(d.cmd, seen, d.clock).ticket);
    }
  }

  lemma RefreshedStatsAre(db: Db, cmd: Command, ticket: string)
    ensures RefreshedAfter(db, cmd, ticket).stats == if MovesCounts(cmd) then RefreshStats(db, ticket).stats else db.stats
  {
  }

  predicate SameBase(a: Db, b: Db) {
    a.events == b.events && a.threads == b.threads && a.posts == b.posts && a.transitions == b.transitions
  }

  lemma DeliverIsHandled(db: Db, d: Delivery)
    requires d.fault == NoFault
    ensures Deliver(db, d) == Handled(db, d.cmd, d.clock)
  {
  }

  lemma DeliveredTables(db: Db, d: Delivery)
    requires StoreInv(db) && Accepted(db, d)
    ensures StoreInv(Deliver(db, d))
    ensures SameBase(Deliver(db, d), CommitTx(db, d.cmd, SeenRow(db, d.cmd), d.clock))
  {
    var seen := SeenRow(db, d.cmd);
    var committed, ticket := CommitTx(db, d.cmd, seen, d.clock), EventOf(d.cmd, seen, d.clock).ticket;
    CommitKeepsStore(db, d.cmd, seen, d.clock);
    RefreshedAfterIsDerived(committed, d.cmd, ticket);
    DerivedTablesAreFree(committed, Deliver(db, d));
  }

  /** Handlers see the base tables only: with equal ones they decide alike. */
  lemma SameBaseDecidesAlike(a: Db, b: Db, cmd: Command)
    requires ViewsCurrent(a) && ViewsCurrent(b) && SameBase(a, b)
    ensures Refusal(a, cmd) == Refusal(b, cmd)
    ensures cmd.OpenThread? || cmd.env.threadId in a.views ==> SeenRow(a, cmd) == SeenRow(b, cmd)
  {
  }

  lemma SameBaseCommitsAlike(a: Db, b: Db, cmd: Command, seen: Thread, clock: int)
    requires SameBase(a, b) && !Conflicts(a, cmd) && !Conflicts(b, cmd)
    ensures SameBase(CommitTx(a, cmd, seen, clock), CommitTx(b, cmd, seen, clock))
  {
  }

  lemma DeliverAlike(a: Db, b: Db, d: Delivery)
    requires StoreInv(a) && StoreInv(b) && SameBase(a, b) && Accepted(a, d)
    ensures var d' := d.(fault := NoFault);
            Accepted(b, d') && StoreInv(Deliver(a, d)) && StoreInv(Deliver(b, d')) && SameBase(Deliver(a, d), Deliver(b, d'))
  {
    var d' := d.(fault := NoFault);
    SameBaseDecidesAlike(a, b, d.cmd);
    DeliveredTables(a, d);
    DeliveredTables(b, d');
    SameBaseCommitsAlike(a, b, d.cmd, SeenRow(a, d.cmd), d.clock);
  }

  /** Any delivery sequence leaves the base tables of its kept deliveries, handled without a fault. */
  lemma {:induction false} ExactlyOnceEffect(a: Db, b: Db, ds: seq<Delivery>)
    requires StoreInv(a) && StoreInv(b) && SameBase(a, b)
    ensures StoreInv(Run(a, ds)) && SameBase(Run(a, ds), Run(b, Kept(a, ds)))
    decreases |ds|
  {
    if |ds| > 0 {
      if Accepted(a, ds[0]) {
        var d' := ds[0].(fault := NoFault);
        DeliverAlike(a, b, ds[0]);
        ExactlyOnceEffect(Deliver(a, ds[0]), Deliver(b, d'), ds[1..]);
        assert Kept(a, ds)[0] == d' && Kept(a, ds)[1..] == Kept(Deliver(a, ds[0]), ds[1..]);
      } else {
        ExactlyOnceEffect(a, b, ds[1..]);
      }
    }
  }

  function IdsOf(events: seq<Event>): seq<string> {
    seq(|events|, i requires 0 <= i < |events| => events[i].eventId)
  }

  function CommandIds(ds: seq<Delivery>): seq<string> {
    seq(|ds|, i requires 0 <= i < |ds| => ds[i].cmd.env.eventId)
  }

  lemma IdsAppend(events: seq<Event>, e: Event)
    ensures IdsOf(events + [e]) == IdsOf(events) + [e.eventId]
  {
  }

  lemma CommandIdsCons(d: Delivery, ds: seq<Delivery>)
    ensures CommandIds([d] + ds) == [d.cmd.env.eventId] + CommandIds(ds)
  {
  }

  lemma CommitAppends(db: Db, cmd: Command, seen: Thread, clock: int)
    requires !Conflicts(db, cmd)
    ensures CommitTx(db, cmd, seen, clock).events == db.events + [EventOf(cmd, seen, clock)]
  {
  }

  lemma DeliveredLog(db: Db, d: Delivery)
    requires Accepted(db, d)
    ensures Deliver(db, d).events == db.events + [EventOf(d.cmd, SeenRow(db, d.cmd), d.clock)]
  {
    var seen := SeenRow(db, d.cmd);
    var committed, ticket := CommitTx(db, d.cmd, seen, d.clock), EventOf(d.cmd, seen, d.clock).ticket;
    CommitAppends(db, d.cmd, seen, d.clock);
    RefreshedAfterIsDerived(committed, d.cmd, ticket);
    assert RefreshStats(committed, ticket).events == committed.events;
  }

  function AcceptedId(db: Db, d: Delivery): seq<string> {
    if Accepted(db, d) then [d.cmd.env.eventId] else []
  }

  lemma KeptIds(db: Db, d: Delivery, ds: seq<Delivery>)
    ensures CommandIds(Kept(db, [d] + ds)) == AcceptedId(db, d) + CommandIds(Kept(Deliver(db, d), ds))
  {
    assert ([d] + ds)[1..] == ds;
    CommandIdsCons(d.(fault := NoFault), Kept(Deliver(db, d), ds));
  }

  lemma LogStep(db: Db, d: Delivery)
    ensures IdsOf(Deliver(db, d).events) == IdsOf(db.events) + AcceptedId(db, d)
  {
    if Accepted(db, d) {
      DeliveredLog(db, d);
      IdsAppend(db.events, EventOf(d.cmd, SeenRow(db, d.cmd), d.clock));
    }
  }

  lemma RunCons(db: Db, d: Delivery, ds: seq<Delivery>)
    ensures Run(db, [d] + ds) == Run(Deliver(db, d), ds)
  {
    assert ([d] + ds)[1..] == ds;
  }

  lemma {:induction false} LogGrowsByKept(db: Db, ds: seq<Delivery>)
    ensures IdsOf(Run(db, ds).events) == IdsOf(db.events) + CommandIds(Kept(db, ds))
    decreases |ds|
  {
    if |ds| > 0 {
      var d, rest := ds[0], ds[1..];
      assert ds == [d] + rest;
      LogStep(db, d);
      LogGrowsByKept(Deliver(db, d), rest);
      RunCons(db, d, rest);
      KeptIds(db, d, rest);
    }
  }

  /** The log grows by exactly the kept commands, in the order they committed, and no event id occurs twice:
      so each command is kept at most once, and never when it was logged before. */
  lemma LogIsKeptCommands(db: Db, ds: seq<Delivery>)
    requires StoreInv(db)
    ensures IdsOf(Run(db, ds).events) == IdsOf(db.events) + CommandIds(Kept(db, ds))
    ensures UniqueIds(Run(db, ds).events)
  {
    LogGrowsByKept(db, ds);
    ExactlyOnceEffect(db, db, ds);
  }

  /** A command that was ever delivered without a fault to a store that could run it is in the log, whatever else happens. */
  lemma {:induction false} CommittedStays(db: Db, ds: seq<Delivery>, id: string)
    requires StoreInv(db) && HasEvent(db.events, id)
    ensures HasEvent(Run(db, ds).events, id)
    decreases |ds|
  {
    if |ds| > 0 {
      if Accepted(db, ds[0]) {
        DeliveredTables(db, ds[0]);
        var seen := SeenRow(db, ds[0].cmd);
        HasEventAppend(db.events, EventOf(ds[0].cmd, seen, ds[0].clock), id);
      }
      CommittedStays(Deliver(db, ds[0]), ds[1..], id);
    }
  }
}
