/** The bus between the outbox and the handlers as a state machine: claims, Redis publishes, acks, nacks, crashes
    and redeliveries in any order. Redis keeps an entry until it is acked. No published message is ever lost,
    provided handlers are not registered in the middle of a processing pass. */
module ForumBus {
  import opened Options
  import opened ForumModel
  import opened ForumOutbox

  /** An entry of the Redis stream that has not been acked. */
  datatype Entry = Entry(messageId: string, topic: string, payload: Message)

  /** `batch` holds the messages the running pass has claimed and not yet marked, `published` those it has sent to Redis
      and not yet marked, `handled` the messages whose handler has ever succeeded. `snapshot` is the handler table the
      running pass took when it began, `listed` the topics it consumes, once it has listed them. A pass that ends forgets its
      batch, whatever is left of it. */
  datatype Bus = Bus(
    outbox: seq<Row>,
    stream: multiset<Entry>,
    batch: set<string>,
    published: set<string>,
    handled: set<string>,
    handlers: set<string>,
    subs: set<string>,
    snapshot: Option<set<string>>,
    listed: Option<set<string>>)

  const Init := Bus([], multiset{}, {}, {}, {}, {}, {}, None, None)

  datatype Step =
    | Publish(id: string, topic: string, payload: Message, now: int)
    | ClaimBatch(limit: nat, marker: int)
    | SendToRedis(i: nat, confirmed: bool)
    | MarkSent(id: string, now: int)
    | MarkFailed(id: string, now: int)
    | Register(topic: string, subscribed: bool)
    | Start
    | Stop
    | BeginPass
    | EnsureSubscriptions(granted: set<string>)
    | ListTopics
    | EndPass
    | HandlerSucceeds(entry: Entry)
    | Ack(entry: Entry)
    | Crash

  predicate HasEntry(stream: multiset<Entry>, id: string) {
    exists e :: e in stream && e.messageId == id
  }

  /** The running pass consumes the topic: it was subscribed when the pass listed its topics. */
  predicate Listed(s: Bus, topic: string) {
    s.listed.Some? && topic in s.listed.value
  }

  /** The consumer finds no handler for a topic it consumes. */
  predicate Orphaned(s: Bus, e: Entry) {
    s.snapshot.Some? && Listed(s, e.topic) && e.topic !in s.snapshot.value
  }

  function StampedIds(rows: seq<Row>, marker: int): set<string> {
    set i | 0 <= i < |rows| && HasStamp(rows[i], marker) :: rows[i].messageId
  }

  /** The running pass has a handler for the topic. */
  predicate HasHandler(s: Bus, topic: string) {
    s.snapshot.Some? && topic in s.snapshot.value
  }

  predicate Enabled(s: Bus, step: Step) {
    match step
    case ClaimBatch(_, marker) => s.snapshot.Some? && forall i :: 0 <= i < |s.outbox| ==> !HasStamp(s.outbox[i], marker)
    case SendToRedis(i, _) => i < |s.outbox| && s.outbox[i].messageId in s.batch && HasHandler(s, s.outbox[i].topic)
    case MarkSent(id, _) => id in s.published
    case MarkFailed(id, _) => s.snapshot.Some? && (id in s.batch || HasEntry(s.stream, id))
    case BeginPass => s.snapshot.None?
    case EnsureSubscriptions(_) => s.snapshot.Some?
    case ListTopics => s.snapshot.Some? && s.listed.None?
    case HandlerSucceeds(e) => e in s.stream && Listed(s, e.topic) && HasHandler(s, e.topic)
    case Ack(e) => e in s.stream && (e.messageId in s.handled || Orphaned(s, e))
    case _ => true
  }

  /** The pass is over: its claims are forgotten. */
  function Ended(s: Bus): Bus {
    s.(snapshot := None, listed := None, batch := {}, published := {})
  }

  function Next(s: Bus, step: Step): Bus
    requires Enabled(s, step)
  {
    match step
    case Publish(id, topic, payload, now) => s.(outbox := Enqueue(s.outbox, id, topic, payload, now))
    case ClaimBatch(limit, marker) =>
      var rows := Claim(s.outbox, limit, marker);
      s.(outbox := rows, batch := s.batch + StampedIds(rows, marker))
    case SendToRedis(i, confirmed) =>
      var row := s.outbox[i];
      s.(stream := s.stream + multiset{Entry(row.messageId, row.topic, row.payload)},
         published := if confirmed then s.published + {row.messageId} else s.published)
    case MarkSent(id, now) =>
      s.(outbox := Mark(s.outbox, id, Sent, now), published := s.published - {id}, batch := s.batch - {id})
    case MarkFailed(id, now) => s.(outbox := Mark(s.outbox, id, Failed, now), batch := s.batch - {id})
    case Register(topic, subscribed) =>
      s.(handlers := s.handlers + {topic}, subs := if subscribed then s.subs + {topic} else s.subs)
    case Start => s.(subs := s.handlers)
    case Stop => s.(subs := {})
    case BeginPass => s.(snapshot := Some(s.handlers))
    case EnsureSubscriptions(granted) => s.(subs := s.subs + s.snapshot.value * granted)
    case ListTopics => s.(listed := Some(s.subs))
    case EndPass => Ended(s)
    case HandlerSucceeds(e) => s.(handled := s.handled + {e.messageId})
    case Ack(e) => s.(stream := s.stream - multiset{e})
    case Crash => Ended(s).(handlers := {}, subs := {})
  }

  /** RegisterHandler does not interleave with ProcessOnce. */
  predicate Serialized(s: Bus, step: Step) {
    step.Register? ==> s.snapshot.None?
  }

  ghost predicate Linked(s: Bus, s': Bus) {
    exists step :: Enabled(s, step) && Serialized(s, step) && s' == Next(s, step)
  }

  ghost predicate Behavior(run: seq<Bus>) {
    && |run| > 0 && run[0] == Init
    && forall i :: 0 <= i < |run| - 1 ==> Linked(run[i], run[i + 1])
  }

  // ----- No message is lost -----

  /** The message will be claimed or is claimed, or Redis still holds it, or its handler has succeeded. */
  predicate Kept(s: Bus, row: Row) {
    row.status != Sent || HasEntry(s.stream, row.messageId) || row.messageId in s.handled
  }

  ghost predicate NoLoss(s: Bus) {
    forall i :: 0 <= i < |s.outbox| ==> Kept(s, s.outbox[i])
  }

  ghost predicate PublishedKept(s: Bus) {
    forall id :: id in s.published ==> HasEntry(s.stream, id) || id in s.handled
  }

  /** Every topic consumed in a pass has a handler in the pass's snapshot. */
  predicate SubscribedHandled(s: Bus) {
    && s.subs <= s.handlers && (s.snapshot.Some? ==> s.snapshot.value == s.handlers)
    && (s.listed.Some? ==> s.listed.value <= s.handlers)
  }

  ghost predicate EntriesBacked(s: Bus) {
    forall e :: e in s.stream ==> Backed(s.outbox, e)
  }

  predicate Backed(rows: seq<Row>, e: Entry) {
    exists i :: 0 <= i < |rows| && rows[i].messageId == e.messageId && rows[i].topic == e.topic && rows[i].payload == e.payload
  }

  /** The running pass may be sending the message. */
  predicate Sending(s: Bus, id: string) {
    exists i :: 0 <= i < |s.outbox| && s.outbox[i].messageId == id && HasHandler(s, s.outbox[i].topic)
  }

  /** Only a running pass owns claims and topics. */
  ghost predicate PassOwned(s: Bus) {
    (s.snapshot.None? ==> s.batch == {} && s.listed.None?) && forall id :: id in s.published ==> Sending(s, id)
  }

  /** The part of the invariant that holds however registrations are timed, as long as nothing is lost. */
  ghost predicate Core(s: Bus) {
    UniqueMessages(s.outbox) && NoLoss(s) && PublishedKept(s) && EntriesBacked(s) && PassOwned(s)
  }

  ghost predicate Inv(s: Bus) {
    Core(s) && SubscribedHandled(s)
  }

  /** The contents of a message never change, and messages are never removed. */
  ghost predicate SameMessages(rows: seq<Row>, rows': seq<Row>) {
    |rows| <= |rows'| && forall i :: 0 <= i < |rows| ==>
      rows'[i].messageId == rows[i].messageId && rows'[i].topic == rows[i].topic && rows'[i].payload == rows[i].payload
  }

  lemma BackedStays(rows: seq<Row>, rows': seq<Row>, e: Entry)
    requires SameMessages(rows, rows') && Backed(rows, e)
    ensures Backed(rows', e)
  {
    var i :| 0 <= i < |rows| && rows[i].messageId == e.messageId && rows[i].topic == e.topic && rows[i].payload == e.payload;
    assert rows'[i].messageId == e.messageId;
  }

  /** A change of the outbox that keeps every message, and marks none sent but published ones, keeps the core. */
  lemma RowsKeepCore(s: Bus, s': Bus)
    requires Core(s) && SameMessages(s.outbox, s'.outbox) && UniqueMessages(s'.outbox)
    requires s'.stream == s.stream && s'.handled == s.handled && s'.snapshot == s.snapshot && s'.listed == s.listed && s'.published <= s.published
    requires s.snapshot.None? ==> s'.batch == {}
    requires forall i :: 0 <= i < |s'.outbox| && s'.outbox[i].status == Sent ==>
               i < |s.outbox| && (s.outbox[i].status == Sent || s.outbox[i].messageId in s.published)
    ensures Core(s')
  {
    forall e | e in s'.stream ensures Backed(s'.outbox, e) { BackedStays(s.outbox, s'.outbox, e); }
    forall i | 0 <= i < |s'.outbox| ensures Kept(s', s'.outbox[i]) {
      if s'.outbox[i].status == Sent { assert Kept(s, s.outbox[i]); }
    }
    forall id | id in s'.published ensures Sending(s', id) { SendingStays(s, s', id); }
  }

  lemma SendingStays(s: Bus, s': Bus, id: string)
    requires Sending(s, id) && SameMessages(s.outbox, s'.outbox) && s'.snapshot == s.snapshot
    ensures Sending(s', id)
  {
    var i :| 0 <= i < |s.outbox| && s.outbox[i].messageId == id && HasHandler(s, s.outbox[i].topic);
    assert s'.outbox[i].messageId == id && HasHandler(s', s'.outbox[i].topic);
  }

  lemma ClaimKeepsRows(rows: seq<Row>, limit: nat, marker: int)
    ensures var rows' := Claim(rows, limit, marker);
            && |rows'| == |rows| && SameMessages(rows, rows') && (UniqueMessages(rows) ==> UniqueMessages(rows'))
            && forall i :: 0 <= i < |rows| && rows'[i].status == Sent ==> rows[i].status == Sent
  {
    ClaimMeaning(rows, limit, marker);
  }

  /** The steps that write the outbox. */
  lemma RowStepKeepsCore(s: Bus, step: Step)
    requires Core(s) && Enabled(s, step) && (step.Publish? || step.ClaimBatch? || step.MarkSent? || step.MarkFailed?)
    ensures Core(Next(s, step))
  {
    if step.ClaimBatch? { ClaimKeepsRows(s.outbox, step.limit, step.marker); }
    RowsKeepCore(s, Next(s, step));
  }

  lemma SendKeepsCore(s: Bus, i: nat, confirmed: bool)
    requires Core(s) && Enabled(s, SendToRedis(i, confirmed))
    ensures Core(Next(s, SendToRedis(i, confirmed)))
  {
    var s' := Next(s, SendToRedis(i, confirmed));
    var row := s.outbox[i];
    var e := Entry(row.messageId, row.topic, row.payload);
    assert Backed(s'.outbox, e) && e in s'.stream;
    EntriesGrow(s, s');
    forall id | id in s'.published ensures Sending(s', id) {
      if id in s.published { SendingStays(s, s', id); }
    }
  }

  lemma EntriesGrow(s: Bus, s': Bus)
    requires NoLoss(s) && PublishedKept(s)
    requires s'.outbox == s.outbox && s.stream <= s'.stream && s.handled <= s'.handled
    ensures NoLoss(s')
    ensures forall id :: id in s.published ==> HasEntry(s'.stream, id) || id in s'.handled
  {
    assert forall e :: e in s.stream ==> e in s'.stream;
    forall i | 0 <= i < |s'.outbox| ensures Kept(s', s'.outbox[i]) { assert Kept(s, s.outbox[i]); }
  }

  /** The steps that leave the outbox and the stream alone. */
  lemma OtherStepKeepsCore(s: Bus, step: Step)
    requires Core(s) && Enabled(s, step)
    requires !step.Publish? && !step.ClaimBatch? && !step.MarkSent? && !step.MarkFailed? && !step.SendToRedis? && !step.Ack?
    ensures Core(Next(s, step))
  {
    var s' := Next(s, step);
    EntriesGrow(s, s');
    if s'.snapshot == s.snapshot {
      forall id | id in s'.published ensures Sending(s', id) { SendingStays(s, s', id); }
    } else {
      NothingPublished(s);
    }
  }

  /** Between passes nothing is published and unmarked. */
  lemma NothingPublished(s: Bus)
    requires PassOwned(s)
    ensures s.snapshot.None? ==> s.published == {}
  {
    forall id | Sending(s, id)
      ensures s.snapshot.Some?
    {
    }
  }

  /** An entry for which the pass has no handler is not one the pass is about to mark. */
  lemma OrphansAreNotSending(s: Bus, e: Entry)
    requires UniqueMessages(s.outbox) && PassOwned(s) && Backed(s.outbox, e) && Orphaned(s, e)
    ensures e.messageId !in s.published
  {
    SendingHasHandler(s, e);
  }

  lemma SendingHasHandler(s: Bus, e: Entry)
    requires UniqueMessages(s.outbox) && Backed(s.outbox, e)
    ensures Sending(s, e.messageId) ==> HasHandler(s, e.topic)
  {
  }

  /** Acking is harmless to the core unless it loses a message. */
  lemma AckKeepsCore(s: Bus, e: Entry)
    requires Core(s) && Enabled(s, Ack(e)) && NoLoss(Next(s, Ack(e)))
    ensures Core(Next(s, Ack(e)))
  {
    var s' := Next(s, Ack(e));
    assert forall f :: f in s.stream && f != e ==> f in s'.stream;
    if e.messageId !in s.handled { OrphansAreNotSending(s, e); }
    forall id | id in s'.published ensures Sending(s', id) { SendingStays(s, s', id); }
  }

  lemma HandledAckLosesNothing(s: Bus, e: Entry)
    requires NoLoss(s) && e in s.stream && e.messageId in s.handled
    ensures NoLoss(Next(s, Ack(e)))
  {
    var s' := Next(s, Ack(e));
    assert forall f :: f in s.stream && f != e ==> f in s'.stream;
    forall i | 0 <= i < |s'.outbox| ensures Kept(s', s'.outbox[i]) { assert Kept(s, s.outbox[i]); }
  }

  /** Every step keeps the core, but an ack that loses a message. */
  lemma StepKeepsCore(s: Bus, step: Step)
    requires Core(s) && Enabled(s, step) && (step.Ack? ==> NoLoss(Next(s, step)))
    ensures Core(Next(s, step))
  {
    if step.Publish? || step.ClaimBatch? || step.MarkSent? || step.MarkFailed? {
      RowStepKeepsCore(s, step);
    } else if step.SendToRedis? {
      SendKeepsCore(s, step.i, step.confirmed);
    } else if step.Ack? {
      AckKeepsCore(s, step.entry);
    } else {
      OtherStepKeepsCore(s, step);
    }
  }

  /** Serialized registrations keep what is consumed handled. */
  lemma StepKeepsSubscribed(s: Bus, step: Step)
    requires SubscribedHandled(s) && Enabled(s, step) && Serialized(s, step)
    ensures SubscribedHandled(Next(s, step))
  {
  }

  lemma StepKeepsInv(s: Bus, step: Step)
    requires Inv(s) && Enabled(s, step) && Serialized(s, step)
    ensures Inv(Next(s, step))
  {
    if step.Ack? { HandledAckLosesNothing(s, step.entry); }
    StepKeepsCore(s, step);
    StepKeepsSubscribed(s, step);
  }

  lemma {:induction false} RunKeepsInv(run: seq<Bus>)
    requires Behavior(run)
    ensures Inv(run[|run| - 1])
  {
    if |run| > 1 {
      var before := run[..|run| - 1];
      forall i | 0 <= i < |before| - 1
        ensures Linked(before[i], before[i + 1])
      {
        assert Linked(run[i], run[i + 1]);
      }
      RunKeepsInv(before);
      var s := before[|before| - 1];
      assert Linked(run[|run| - 2], run[|run| - 2 + 1]);
      var step :| Enabled(s, step) && Serialized(s, step) && run[|run| - 1] == Next(s, step);
      StepKeepsInv(s, step);
    }
  }

  /** Over every serialized run a message whose handler has never succeeded has a pending, failed or processing row
      or an un-acked entry; and a sent row has an un-acked entry or a past success. */
  lemma NothingIsLost(run: seq<Bus>, i: nat)
    requires Behavior(run) && i < |run[|run| - 1].outbox|
    ensures var s := run[|run| - 1];
            var row := s.outbox[i];
            && (row.messageId !in s.handled ==>
                  row.status in {Pending, Failed, Processing} || HasEntry(s.stream, row.messageId))
            && (row.status == Sent ==> HasEntry(s.stream, row.messageId) || row.messageId in s.handled)
  {
    RunKeepsInv(run);
    assert Kept(run[|run| - 1], run[|run| - 1].outbox[i]);
  }

  /** Without serialization, exactly one kind of step loses a message: the consumer acks, for want of a handler in its
      snapshot, the last entry of a sent message that was never handled. */
  lemma LossExactly(s: Bus, step: Step)
    requires Core(s) && Enabled(s, step)
    ensures !NoLoss(Next(s, step)) <==>
              && step.Ack? && step.entry.messageId !in s.handled
              && !HasEntry(s.stream - multiset{step.entry}, step.entry.messageId)
              && exists i :: 0 <= i < |s.outbox| && s.outbox[i].messageId == step.entry.messageId && s.outbox[i].status == Sent
  {
    if step.Ack? { AckLossExactly(s, step.entry); } else { StepKeepsCore(s, step); }
  }

  lemma AckLossExactly(s: Bus, e: Entry)
    requires NoLoss(s) && Enabled(s, Ack(e))
    ensures !NoLoss(Next(s, Ack(e))) <==>
              && e.messageId !in s.handled && !HasEntry(s.stream - multiset{e}, e.messageId)
              && exists i :: 0 <= i < |s.outbox| && s.outbox[i].messageId == e.messageId && s.outbox[i].status == Sent
  {
    var s' := Next(s, Ack(e));
    assert forall f :: f in s.stream && f != e ==> f in s'.stream;
    forall i | 0 <= i < |s.outbox| && s.outbox[i].messageId != e.messageId
      ensures Kept(s', s'.outbox[i])
    {
      assert Kept(s, s.outbox[i]);
    }
    if i :| 0 <= i < |s.outbox| && s.outbox[i].messageId == e.messageId && s.outbox[i].status == Sent {
      assert Kept(s', s'.outbox[i]) <==> HasEntry(s'.stream, e.messageId) || e.messageId in s'.handled;
    }
    if !NoLoss(s') {
      var i :| 0 <= i < |s'.outbox| && !Kept(s', s'.outbox[i]);
      assert s.outbox[i].messageId == e.messageId;
    }
  }

  /** A reused message id is dropped without a word: the outbox holds the new message iff the id was fresh, or stood
      for the same message already. */
  lemma EnqueueExactly(rows: seq<Row>, id: string, topic: string, payload: Message, now: int)
    requires UniqueMessages(rows)
    ensures Backed(Enqueue(rows, id, topic, payload, now), Entry(id, topic, payload)) <==>
            (!HasMessage(rows, id) || Backed(rows, Entry(id, topic, payload)))
  {
    var rows' := Enqueue(rows, id, topic, payload, now);
    if !HasMessage(rows, id) {
      assert rows'[|rows|].messageId == id;
    }
  }

  // ----- Quiescence -----

  /** Nothing is waiting: every row is sent and Redis holds no un-acked entry. */
  predicate Quiescent(s: Bus) {
    (forall i :: 0 <= i < |s.outbox| ==> s.outbox[i].status == Sent) && s.stream == multiset{}
  }

  lemma QuiescentHandled(s: Bus, i: nat)
    requires Inv(s) && Quiescent(s) && i < |s.outbox|
    ensures s.outbox[i].messageId in s.handled
  {
    assert Kept(s, s.outbox[i]);
  }

  // ----- Traces: what an imperative pass over the bus is made of -----

  /** Every step of `trace` is enabled and serialized in turn. */
  ghost predicate CanRun(s: Bus, trace: seq<Step>)
    decreases |trace|, 0
  {
    |trace| == 0 ||
    var before, last := trace[..|trace| - 1], trace[|trace| - 1];
    CanRun(s, before) && Enabled(Exec(s, before), last) && Serialized(Exec(s, before), last)
  }

  ghost function Exec(s: Bus, trace: seq<Step>): Bus
    requires CanRun(s, trace)
    decreases |trace|, 1
  {
    if |trace| == 0 then s else Next(Exec(s, trace[..|trace| - 1]), trace[|trace| - 1])
  }

  ghost predicate Runs(s: Bus, trace: seq<Step>, s': Bus) {
    CanRun(s, trace) && Exec(s, trace) == s'
  }

  lemma RunsOn(s: Bus, trace: seq<Step>, s': Bus, step: Step)
    requires Runs(s, trace, s') && Enabled(s', step) && Serialized(s', step)
    ensures Runs(s, trace + [step], Next(s', step))
  {
    assert (trace + [step])[..|trace + [step]| - 1] == trace;
  }

  lemma {:induction false} RunsThrough(s: Bus, first: seq<Step>, mid: Bus, second: seq<Step>, s': Bus)
    requires Runs(s, first, mid) && Runs(mid, second, s')
    ensures Runs(s, first + second, s')
    decreases |second|
  {
    if |second| == 0 {
      assert first + second == first;
    } else {
      var before := second[..|second| - 1];
      RunsThrough(s, first, mid, before, Exec(mid, before));
      RunsOn(s, first + before, Exec(mid, before), second[|second| - 1]);
      assert first + before + [second[|second| - 1]] == first + second;
    }
  }

  lemma {:induction false} RunsKeepInv(s: Bus, trace: seq<Step>, s': Bus)
    requires Inv(s) && Runs(s, trace, s')
    ensures Inv(s')
    decreases |trace|
  {
    if |trace| > 0 {
      var before := trace[..|trace| - 1];
      RunsKeepInv(s, before, Exec(s, before));
      StepKeepsInv(Exec(s, before), trace[|trace| - 1]);
    }
  }

  /** Some trace of the machine leads from `s` to `s'`. */
  ghost predicate Reaches(s: Bus, s': Bus) {
    exists trace :: Runs(s, trace, s')
  }

  lemma ReachesSelf(s: Bus)
    ensures Reaches(s, s)
  {
    assert Runs(s, [], s);
  }

  lemma ReachesStep(s: Bus, mid: Bus, step: Step)
    requires Reaches(s, mid) && Enabled(mid, step) && Serialized(mid, step)
    ensures Reaches(s, Next(mid, step))
  {
    var trace :| Runs(s, trace, mid);
    RunsOn(s, trace, mid, step);
  }

  lemma ReachesThrough(s: Bus, mid: Bus, s': Bus)
    requires Reaches(s, mid) && Reaches(mid, s')
    ensures Reaches(s, s')
  {
    var first :| Runs(s, first, mid);
    var second :| Runs(mid, second, s');
    RunsThrough(s, first, mid, second, s');
  }

  lemma ReachesKeepsInv(s: Bus, s': Bus)
    requires Inv(s) && Reaches(s, s')
    ensures Inv(s')
  {
    var trace :| Runs(s, trace, s');
    RunsKeepInv(s, trace, s');
  }

  lemma {:induction false} RunsKeepMessages(s: Bus, trace: seq<Step>, s': Bus)
    requires Runs(s, trace, s')
    ensures SameMessages(s.outbox, s'.outbox)
    decreases |trace|
  {
    if |trace| > 0 {
      var before := trace[..|trace| - 1];
      RunsKeepMessages(s, before, Exec(s, before));
      StepKeepsMessages(Exec(s, before), trace[|trace| - 1]);
    }
  }

  lemma StepKeepsMessages(s: Bus, step: Step)
    requires Enabled(s, step)
    ensures SameMessages(s.outbox, Next(s, step).outbox)
  {
    if step.ClaimBatch? { ClaimKeepsRows(s.outbox, step.limit, step.marker); }
  }

  // ----- Registering a handler in the middle of a pass -----

  /** A message of the topic is sent and was never handled. */
  predicate Exposed(s: Bus, topic: string) {
    exists i :: 0 <= i < |s.outbox| && s.outbox[i].topic == topic && s.outbox[i].status == Sent && s.outbox[i].messageId !in s.handled
  }

  /** The running pass has no handler for `topic`, which is the one topic registered since it began, and it does not consume
      the topic, or no message of the topic is exposed. */
  ghost predicate LateButSafe(s: Bus, topic: string) {
    && s.snapshot.Some? && topic !in s.snapshot.value && s.handlers == s.snapshot.value + {topic}
    && s.subs <= s.handlers && (s.listed.Some? ==> s.listed.value <= s.handlers)
    && (!Exposed(s, topic) || (s.listed.Some? && topic !in s.listed.value))
  }

  lemma LateAckIsSafe(s: Bus, topic: string, e: Entry)
    requires Core(s) && LateButSafe(s, topic) && Enabled(s, Ack(e))
    ensures NoLoss(Next(s, Ack(e)))
  {
    if e.messageId in s.handled {
      HandledAckLosesNothing(s, e);
    } else {
      AckLossExactly(s, e);
      assert Backed(s.outbox, e);
      assert e.topic == topic;
    }
  }

  lemma LateStepIsSafe(s: Bus, topic: string, step: Step)
    requires Core(s) && LateButSafe(s, topic) && Enabled(s, step) && Serialized(s, step)
    ensures Inv(Next(s, step)) || (Core(Next(s, step)) && LateButSafe(Next(s, step), topic))
  {
    if step.Ack? { LateAckIsSafe(s, topic, step.entry); }
    StepKeepsCore(s, step);
    if !step.EndPass? && !step.Crash? { LateStaysSafe(s, topic, step); }
  }

  lemma LateStaysSafe(s: Bus, topic: string, step: Step)
    requires Core(s) && LateButSafe(s, topic) && Enabled(s, step) && Serialized(s, step) && !step.EndPass? && !step.Crash?
    ensures LateButSafe(Next(s, step), topic)
  {
    var s' := Next(s, step);
    StepKeepsMessages(s, step);
    forall i: nat | !Exposed(s, topic) && i < |s'.outbox| && s'.outbox[i].topic == topic && s'.outbox[i].status == Sent
      ensures s'.outbox[i].messageId in s'.handled
    {
      SentWasSending(s, step, i);
    }
  }

  /** A row a step leaves sent was sent, or the running pass was sending it. */
  lemma SentWasSending(s: Bus, step: Step, i: nat)
    requires Core(s) && Enabled(s, step) && i < |Next(s, step).outbox| && Next(s, step).outbox[i].status == Sent
    ensures i < |s.outbox| && (s.outbox[i].status == Sent || HasHandler(s, s.outbox[i].topic))
  {
    if step.ClaimBatch? { ClaimKeepsRows(s.outbox, step.limit, step.marker); }
    if step.MarkSent? { assert Sending(s, step.id); }
  }

  lemma {:induction false} LateRunIsSafe(s: Bus, topic: string, trace: seq<Step>, s': Bus)
    requires Core(s) && LateButSafe(s, topic) && Runs(s, trace, s')
    ensures Inv(s') || (Core(s') && LateButSafe(s', topic))
    decreases |trace|
  {
    if |trace| > 0 {
      var before, last := trace[..|trace| - 1], trace[|trace| - 1];
      var mid := Exec(s, before);
      LateRunIsSafe(s, topic, before, mid);
      if Inv(mid) { StepKeepsInv(mid, last); } else { LateStepIsSafe(mid, topic, last); }
    }
  }

  /** Acks, for want of a handler, every entry of a message. */
  lemma {:induction false} AckAll(s: Bus, e: Entry) returns (s': Bus)
    requires e in s.stream ==> Orphaned(s, e)
    ensures Reaches(s, s') && s' == s.(stream := s.stream[e := 0])
    decreases s.stream[e]
  {
    ReachesSelf(s);
    if e in s.stream {
      var acked := Next(s, Ack(e));
      ReachesStep(s, s, Ack(e));
      assert acked.stream[e] == s.stream[e] - 1;
      s' := AckAll(acked, e);
      ReachesThrough(s, acked, s');
      assert acked.stream[e := 0] == s.stream[e := 0];
    } else {
      s' := s;
      assert s.stream[e := 0] == s.stream;
    }
  }

  /** An exposed message of a topic that is subscribed without a handler can be lost, while the topics are not listed yet. */
  lemma ExposedCanBeLost(s: Bus, topic: string)
    requires Core(s) && Exposed(s, topic) && s.snapshot.Some? && s.listed.None? && topic in s.subs && topic !in s.snapshot.value
    ensures exists s' :: Reaches(s, s') && !NoLoss(s')
  {
    var subscribed := Next(s, EnsureSubscriptions(s.snapshot.value));
    var listing := Next(subscribed, ListTopics);
    ReachesSelf(s);
    ReachesStep(s, s, EnsureSubscriptions(s.snapshot.value));
    ReachesStep(s, subscribed, ListTopics);
    OrphanCanBeLost(listing, topic);
    var s' :| Reaches(listing, s') && !NoLoss(s');
    ReachesThrough(s, listing, s');
  }

  lemma OrphanCanBeLost(s: Bus, topic: string)
    requires EntriesBacked(s) && UniqueMessages(s.outbox)
    requires Exposed(s, topic) && s.snapshot.Some? && Listed(s, topic) && topic !in s.snapshot.value
    ensures exists s' :: Reaches(s, s') && !NoLoss(s')
  {
    var i :| 0 <= i < |s.outbox| && s.outbox[i].topic == topic && s.outbox[i].status == Sent && s.outbox[i].messageId !in s.handled;
    var row := s.outbox[i];
    var e := Entry(row.messageId, topic, row.payload);
    var s' := AckAll(s, e);
    assert !HasEntry(s'.stream, row.messageId) by {
      forall other | other in s'.stream && other.messageId == row.messageId
        ensures other == e
      {
        assert other in s.stream && Backed(s.outbox, other);
      }
    }
    assert !Kept(s', s'.outbox[i]);
  }

  /** Registering a topic while a pass is running: some run after it, in which nothing else is registered during a pass, loses
      a message if and only if the pass began without the topic, has not listed the topics it consumes yet, and a message of
      the topic is sent and unhandled. */
  lemma RegistrationLosesExactly(s: Bus, topic: string)
    requires Inv(s) && s.snapshot.Some?
    ensures (exists s' :: Reaches(Next(s, Register(topic, true)), s') && !NoLoss(s')) <==>
            topic !in s.snapshot.value && s.listed.None? && Exposed(s, topic)
  {
    var late := Next(s, Register(topic, true));
    OtherStepKeepsCore(s, Register(topic, true));
    if topic !in s.snapshot.value && s.listed.None? && Exposed(s, topic) {
      assert Exposed(late, topic);
      ExposedCanBeLost(late, topic);
    } else {
      forall s' | Reaches(late, s')
        ensures NoLoss(s')
      {
        var trace :| Runs(late, trace, s');
        if topic in s.snapshot.value {
          assert late.handlers == s.handlers;
          RunsKeepInv(late, trace, s');
        } else {
          assert Exposed(late, topic) == Exposed(s, topic);
          LateRunIsSafe(late, topic, trace, s');
        }
      }
    }
  }

  /** Between passes a topic can be registered and a pass begun with it. */
  lemma PassBegins(s: Bus, mid: Bus, topic: string)
    requires Reaches(s, mid) && mid.snapshot.None?
    ensures var handlers := mid.handlers + {topic};
            Reaches(s, mid.(handlers := handlers, subs := mid.subs + {topic}, snapshot := Some(handlers)))
  {
    var registered := Next(mid, Register(topic, true));
    ReachesStep(s, mid, Register(topic, true));
    ReachesStep(s, registered, BeginPass);
    assert Next(registered, BeginPass) ==
           mid.(handlers := mid.handlers + {topic}, subs := mid.subs + {topic}, snapshot := Some(mid.handlers + {topic}));
  }

  lemma FirstMessage(topic: string, payload: Message) returns (s: Bus)
    ensures Reaches(Init, s)
    ensures s == Init.(outbox := [Row("m", topic, payload, Pending, 0, 0, Second(0))])
  {
    ReachesSelf(Init);
    s := Next(Init, Publish("m", topic, payload, 0));
    ReachesStep(Init, Init, Publish("m", topic, payload, 0));
  }

  /** The first message published and claimed. */
  lemma FirstClaim(topic: string, payload: Message) returns (s: Bus)
    ensures Reaches(Init, s)
    ensures var row := Moved(Row("m", topic, payload, Pending, 0, 0, Second(0)), 1);
            s == Bus([row], multiset{}, {"m"}, {}, {}, {topic}, {topic}, Some({topic}), None)
  {
    var waiting := FirstMessage(topic, payload);
    PassBegins(Init, waiting, topic);
    var row := waiting.outbox[0];
    var begun := Bus([row], multiset{}, {}, {}, {}, {topic}, {topic}, Some({topic}), None);
    assert {} + {topic} == {topic};
    ClaimOne(row, 1);
    s := Next(begun, ClaimBatch(1, 1));
    ReachesStep(Init, begun, ClaimBatch(1, 1));
  }

  lemma ClaimOne(row: Row, marker: int)
    requires Eligible(row)
    ensures Claim([row], 1, marker) == [Moved(row, marker)] && StampedIds([Moved(row, marker)], marker) == {row.messageId}
  {
    assert Oldest([row][..0]).None?;
    assert Oldest([row]) == Some(0);
    assert Claim([row], 1, marker) == Claim([row][0 := Moved(row, marker)], 0, marker) == [Moved(row, marker)];
    assert HasStamp([Moved(row, marker)][0], marker);
  }

  /** The first message sent, and the process restarted before it was handled. */
  lemma SentThenRestarted(topic: string, payload: Message) returns (s: Bus)
    ensures Reaches(Init, s)
    ensures s.snapshot.None? && s.listed.None? && s.handlers == {} && s.handled == {} && |s.outbox| == 1
    ensures s.outbox[0].topic == topic && s.outbox[0].status == Sent
  {
    var s1 := FirstClaim(topic, payload);
    var s2 := Next(s1, SendToRedis(0, true));
    ReachesStep(Init, s1, SendToRedis(0, true));
    var s3 := Next(s2, MarkSent("m", 0));
    ReachesStep(Init, s2, MarkSent("m", 0));
    s := Next(s3, Crash);
    ReachesStep(Init, s3, Crash);
  }

  /** And it happens: a message is sent by one pass, the process restarts before it is handled, and its handler comes back
      while a pass that began without it is running. */
  lemma LateRegistrationLoses(topic: string, payload: Message) returns (s: Bus)
    ensures Reaches(Init, s) && s.snapshot.Some?
    ensures exists s' :: Reaches(Next(s, Register(topic, true)), s') && !NoLoss(s')
  {
    var restarted := SentThenRestarted(topic, payload);
    s := Next(restarted, BeginPass);
    ReachesStep(Init, restarted, BeginPass);
    InitialBus();
    ReachesKeepsInv(Init, s);
    assert Exposed(s, topic) by { assert s.outbox[0].messageId !in s.handled; }
    RegistrationLosesExactly(s, topic);
  }

  lemma InitialBus()
    ensures Inv(Init)
  {
  }

  // ----- Stranded rows -----

  /** A row left in processing by a pass that is gone, with no entry in the stream. */
  ghost predicate Stranded(s: Bus, i: nat) {
    && i < |s.outbox| && s.outbox[i].status == Processing
    && s.outbox[i].messageId !in s.batch && s.outbox[i].messageId !in s.published
    && s.outbox[i].messageId !in s.handled && !HasEntry(s.stream, s.outbox[i].messageId)
  }

  lemma ClaimLeavesStranded(s: Bus, limit: nat, marker: int, i: nat)
    requires UniqueMessages(s.outbox) && Enabled(s, ClaimBatch(limit, marker)) && Stranded(s, i)
    ensures Stranded(Next(s, ClaimBatch(limit, marker)), i) && Next(s, ClaimBatch(limit, marker)).outbox[i] == s.outbox[i]
  {
    var rows := Claim(s.outbox, limit, marker);
    ClaimMeaning(s.outbox, limit, marker);
    assert rows[i] == s.outbox[i];
    forall j | 0 <= j < |rows| && HasStamp(rows[j], marker)
      ensures rows[j].messageId != s.outbox[i].messageId
    {
      assert j != i;
    }
  }

  lemma SendLeavesStranded(s: Bus, j: nat, confirmed: bool, i: nat)
    requires Enabled(s, SendToRedis(j, confirmed)) && Stranded(s, i)
    ensures Stranded(Next(s, SendToRedis(j, confirmed)), i)
  {
    assert forall e :: e in Next(s, SendToRedis(j, confirmed)).stream ==> e in s.stream || e.messageId == s.outbox[j].messageId;
  }

  lemma AckLeavesStranded(s: Bus, e: Entry, i: nat)
    requires Enabled(s, Ack(e)) && Stranded(s, i)
    ensures Stranded(Next(s, Ack(e)), i)
  {
    assert forall other :: other in Next(s, Ack(e)).stream ==> other in s.stream;
  }

  lemma MarkLeavesStranded(s: Bus, step: Step, i: nat)
    requires (step.MarkSent? || step.MarkFailed?) && Enabled(s, step) && Stranded(s, i)
    ensures Stranded(Next(s, step), i) && Next(s, step).outbox[i] == s.outbox[i]
  {
    assert s.outbox[i].messageId != step.id;
  }

  lemma HandlerLeavesStranded(s: Bus, e: Entry, i: nat)
    requires Enabled(s, HandlerSucceeds(e)) && Stranded(s, i)
    ensures Stranded(Next(s, HandlerSucceeds(e)), i)
  {
    assert e in s.stream && e.messageId != s.outbox[i].messageId;
  }

  /** Nothing ever reclaims a stranded row: no step sends it, handles it, or changes it. */
  lemma StrandedStep(s: Bus, step: Step, i: nat)
    requires Inv(s) && Enabled(s, step) && Stranded(s, i)
    ensures Stranded(Next(s, step), i) && Next(s, step).outbox[i] == s.outbox[i]
  {
    if step.ClaimBatch? {
      ClaimLeavesStranded(s, step.limit, step.marker, i);
    } else if step.SendToRedis? {
      SendLeavesStranded(s, step.i, step.confirmed, i);
    } else if step.Ack? {
      AckLeavesStranded(s, step.entry, i);
    } else if step.MarkSent? || step.MarkFailed? {
      MarkLeavesStranded(s, step, i);
    } else if step.HandlerSucceeds? {
      HandlerLeavesStranded(s, step.entry, i);
    }
  }

  /** A stranded row stays as it is in every run. */
  lemma {:induction false} StrandedForever(s: Bus, trace: seq<Step>, s': Bus, i: nat)
    requires Inv(s) && Stranded(s, i) && Runs(s, trace, s')
    ensures Stranded(s', i) && s'.outbox[i] == s.outbox[i]
    decreases |trace|
  {
    if |trace| > 0 {
      var before := trace[..|trace| - 1];
      StrandedForever(s, before, Exec(s, before), i);
      RunsKeepInv(s, before, Exec(s, before));
      StrandedStep(Exec(s, before), trace[|trace| - 1], i);
    }
  }

  /** A marker no row carries. */
  function FreshMarker(rows: seq<Row>): int {
    if |rows| == 0 then 0
    else
      var before, stamp := FreshMarker(rows[..|rows| - 1]), rows[|rows| - 1].updatedAt;
      if stamp.Marker? && stamp.t >= before then stamp.t + 1 else before
  }

  lemma {:induction false} FreshMarkerIsFresh(rows: seq<Row>, marker: int)
    requires marker >= FreshMarker(rows)
    ensures forall i :: 0 <= i < |rows| ==> !HasStamp(rows[i], marker)
  {
    if |rows| > 0 { FreshMarkerIsFresh(rows[..|rows| - 1], marker); }
  }

  lemma {:induction false} CountedRow(rows: seq<Row>, i: nat)
    requires i < |rows| && Eligible(rows[i])
    ensures EligibleCount(rows) > 0
  {
    if i < |rows| - 1 { CountedRow(rows[..|rows| - 1], i); }
  }

  /** A claim without a limit that matters moves every eligible row. */
  lemma ClaimTakes(rows: seq<Row>, marker: int, i: nat)
    requires i < |rows| && Eligible(rows[i])
    ensures var rows' := Claim(rows, EligibleCount(rows), marker);
            |rows'| == |rows| && rows'[i] == Moved(rows[i], marker) && rows[i].messageId in StampedIds(rows', marker)
  {
    ClaimMeaning(rows, EligibleCount(rows), marker);
    var rows' := Claim(rows, EligibleCount(rows), marker);
    if rows'[i] == rows[i] { CountedRow(rows', i); }
    assert HasStamp(rows'[i], marker);
  }

  /** A pass with a handler for the topic handles a message Redis holds. */
  lemma HeldCanBeHandled(s: Bus, mid: Bus, e: Entry)
    requires Reaches(s, mid) && e in mid.stream && e.topic in mid.subs && HasHandler(mid, e.topic) && mid.listed.None?
    ensures exists s' :: Reaches(s, s') && e.messageId in s'.handled
  {
    var listing := Next(mid, ListTopics);
    ReachesStep(s, mid, ListTopics);
    ReachesStep(s, listing, HandlerSucceeds(e));
    assert e.messageId in Next(listing, HandlerSucceeds(e)).handled;
  }

  /** A pass with a handler for the topic claims, sends and handles a waiting message. */
  lemma EligibleCanBeHandled(s: Bus, mid: Bus, i: nat)
    requires Reaches(s, mid) && i < |mid.outbox| && Eligible(mid.outbox[i])
    requires mid.outbox[i].topic in mid.subs && HasHandler(mid, mid.outbox[i].topic) && mid.listed.None?
    ensures exists s' :: Reaches(s, s') && mid.outbox[i].messageId in s'.handled
  {
    var row := mid.outbox[i];
    var claim := ClaimBatch(EligibleCount(mid.outbox), FreshMarker(mid.outbox));
    FreshMarkerIsFresh(mid.outbox, claim.marker);
    ClaimTakes(mid.outbox, claim.marker, i);
    var claimed := Next(mid, claim);
    ReachesStep(s, mid, claim);
    var sent := Next(claimed, SendToRedis(i, true));
    ReachesStep(s, claimed, SendToRedis(i, true));
    HeldCanBeHandled(s, sent, Entry(row.messageId, row.topic, row.payload));
  }

  /** Between passes a message that waits in the outbox, or in Redis, can be handled by the next pass. */
  lemma WaitingCanBeHandled(s: Bus, mid: Bus, i: nat)
    requires Reaches(s, mid) && Inv(mid) && mid.snapshot.None? && i < |mid.outbox|
    requires Eligible(mid.outbox[i]) || HasEntry(mid.stream, mid.outbox[i].messageId)
    ensures exists s' :: Reaches(s, s') && mid.outbox[i].messageId in s'.handled
  {
    var row := mid.outbox[i];
    var handlers := mid.handlers + {row.topic};
    var begun := mid.(handlers := handlers, subs := mid.subs + {row.topic}, snapshot := Some(handlers));
    PassBegins(s, mid, row.topic);
    if HasEntry(mid.stream, row.messageId) {
      var e :| e in mid.stream && e.messageId == row.messageId;
      assert Backed(mid.outbox, e);
      HeldCanBeHandled(s, begun, e);
    } else {
      EligibleCanBeHandled(s, begun, i);
    }
  }

  /** A row that is not stranded can be brought to wait between passes. */
  lemma CanWait(s: Bus, i: nat) returns (s': Bus)
    requires Inv(s) && i < |s.outbox| && !Stranded(s, i) && s.outbox[i].messageId !in s.handled
    ensures Reaches(s, s') && Inv(s') && s'.snapshot.None? && i < |s'.outbox| && s'.outbox[i].messageId == s.outbox[i].messageId
    ensures Eligible(s'.outbox[i]) || HasEntry(s'.stream, s'.outbox[i].messageId)
  {
    var id := s.outbox[i].messageId;
    ReachesSelf(s);
    assert Kept(s, s.outbox[i]);
    s' := s;
    if s.outbox[i].status == Processing && id in s.batch && !HasEntry(s.stream, id) {
      s' := Next(s, MarkFailed(id, 0));
      ReachesStep(s, s, MarkFailed(id, 0));
    }
    var mid := s';
    if mid.snapshot.Some? {
      s' := Next(mid, EndPass);
      ReachesStep(s, mid, EndPass);
    }
    ReachesKeepsInv(s, s');
  }

  /** Exactly the stranded rows are out of reach: a message not handled yet is handled in some run if and only if its row is not
      stranded. */
  lemma HandledUnlessStranded(s: Bus, i: nat)
    requires Inv(s) && i < |s.outbox| && s.outbox[i].messageId !in s.handled
    ensures (exists s' :: Reaches(s, s') && s.outbox[i].messageId in s'.handled) <==> !Stranded(s, i)
  {
    if Stranded(s, i) {
      forall s' | Reaches(s, s')
        ensures s.outbox[i].messageId !in s'.handled
      {
        var trace :| Runs(s, trace, s');
        StrandedForever(s, trace, s', i);
      }
    } else {
      var mid := CanWait(s, i);
      WaitingCanBeHandled(s, mid, i);
    }
  }

  /** A crash strands exactly the rows its pass had claimed, not yet marked, and put no entry in Redis for. */
  lemma CrashStrandsExactly(s: Bus, i: nat)
    requires Inv(s) && i < |s.outbox| && s.outbox[i].messageId in s.batch && s.outbox[i].messageId !in s.handled
    ensures Stranded(Next(s, Crash), i) <==> s.outbox[i].status == Processing && !HasEntry(s.stream, s.outbox[i].messageId)
  {
  }

  /** A crash right after a claim does. */
  lemma CrashStrands(payload: Message) returns (s: Bus)
    ensures Reaches(Init, s) && Stranded(s, 0)
  {
    var claimed := FirstClaim("t", payload);
    s := Next(claimed, Crash);
    ReachesStep(Init, claimed, Crash);
  }
}
