/** The in-process fan-out of forum events: one bounded channel per subscriber, from which a full channel's oldest event
    is dropped to make room. Publishes and channel operations are taken one at a time. */
module EventBroker {
  import opened Options
  import opened ForumModel
  import Text

  /** A forum event with the sequence the log gave it. */
  datatype Row = Row(sequence: nat, event: Event)

  // ----- One subscriber's channel, over any history -----

  /** What happens to a channel: a matching event is published to it, or its reader takes the oldest event. */
  datatype Step = Offered(row: Row) | Taken

  datatype Feed = Feed(buffer: seq<Row>, received: seq<Row>)

  function Push(capacity: nat, buffer: seq<Row>, row: Row): seq<Row>
    requires capacity > 0
  {
    if |buffer| < capacity then buffer + [row] else buffer[1..] + [row]
  }

  function Advance(capacity: nat, feed: Feed, step: Step): Feed
    requires capacity > 0
  {
    match step
    case Offered(row) => feed.(buffer := Push(capacity, feed.buffer, row))
    case Taken => if |feed.buffer| == 0 then feed else Feed(feed.buffer[1..], feed.received + [feed.buffer[0]])
  }

  /** A subscriber's feed after a publish that did or did not concern it. */
  function Reached(capacity: nat, feed: Feed, matching: bool, row: Row): Feed
    requires capacity > 0
  {
    if matching then Advance(capacity, feed, Offered(row)) else feed
  }

  function After(capacity: nat, steps: seq<Step>): Feed
    requires capacity > 0
  {
    if |steps| == 0 then Feed([], []) else Advance(capacity, After(capacity, steps[..|steps| - 1]), steps[|steps| - 1])
  }

  /** The matching events published since the subscription, in order. */
  function Published(steps: seq<Step>): seq<Row> {
    if |steps| == 0 then []
    else Published(steps[..|steps| - 1]) + (if steps[|steps| - 1].Offered? then [steps[|steps| - 1].row] else [])
  }

  /** `part` can be had from `whole` by leaving events out. */
  predicate Subsequence(part: seq<Row>, whole: seq<Row>) {
    if |part| == 0 then true
    else if |whole| == 0 then false
    else if part[|part| - 1] == whole[|whole| - 1] then Subsequence(part[..|part| - 1], whole[..|whole| - 1])
    else Subsequence(part, whole[..|whole| - 1])
  }

  predicate Suffix(part: seq<Row>, whole: seq<Row>) {
    |part| <= |whole| && part == whole[|whole| - |part|..]
  }

  lemma PushKeepsSuffix(capacity: nat, buffer: seq<Row>, whole: seq<Row>, row: Row)
    requires capacity > 0 && Suffix(buffer, whole)
    ensures Suffix(Push(capacity, buffer, row), whole + [row])
  {
  }

  /** A buffer is always the latest matching events, contiguous, and never more than its capacity. */
  lemma {:induction false} BufferIsSuffix(capacity: nat, steps: seq<Step>)
    requires capacity > 0
    ensures Suffix(After(capacity, steps).buffer, Published(steps))
    ensures |After(capacity, steps).buffer| <= capacity
  {
    if |steps| > 0 {
      var before, last := steps[..|steps| - 1], steps[|steps| - 1];
      BufferIsSuffix(capacity, before);
      if last.Offered? {
        PushKeepsSuffix(capacity, After(capacity, before).buffer, Published(before), last.row);
      }
    }
  }

  /** Events offered while the buffer was full, each of which pushed one out. */
  function Dropped(capacity: nat, steps: seq<Step>): nat
    requires capacity > 0
  {
    if |steps| == 0 then 0
    else
      var before := steps[..|steps| - 1];
      Dropped(capacity, before) + (if steps[|steps| - 1].Offered? && |After(capacity, before).buffer| >= capacity then 1 else 0)
  }

  /** Every matching event is received, buffered or dropped. */
  lemma {:induction false} EventsAreConserved(capacity: nat, steps: seq<Step>)
    requires capacity > 0
    ensures |After(capacity, steps).received| + |After(capacity, steps).buffer| + Dropped(capacity, steps) == |Published(steps)|
  {
    if |steps| > 0 {
      EventsAreConserved(capacity, steps[..|steps| - 1]);
    }
  }

  lemma {:induction false} SubsequenceDropsMiddle(a: seq<Row>, b: seq<Row>, whole: seq<Row>)
    requires |b| > 0 && Subsequence(a + b, whole)
    ensures Subsequence(a + b[1..], whole)
    decreases |b| + |whole|
  {
    var part, shorter := a + b, a + b[1..];
    assert part[|part| - 1] == b[|b| - 1];
    if |shorter| == 0 {
    } else if |b| == 1 {
      assert part[..|part| - 1] == a && shorter == a;
      SubsequenceOfMore(part, whole);
    } else {
      assert shorter[|shorter| - 1] == b[|b| - 1];
      assert part[..|part| - 1] == a + b[..|b| - 1];
      assert shorter[..|shorter| - 1] == a + b[..|b| - 1][1..];
      if part[|part| - 1] == whole[|whole| - 1] {
        SubsequenceDropsMiddle(a, b[..|b| - 1], whole[..|whole| - 1]);
      } else {
        SubsequenceDropsMiddle(a, b, whole[..|whole| - 1]);
      }
    }
  }

  /** Leaving out the last event of a subsequence leaves a subsequence. */
  lemma {:induction false} SubsequenceOfMore(part: seq<Row>, whole: seq<Row>)
    requires |part| > 0 && Subsequence(part, whole)
    ensures Subsequence(part[..|part| - 1], whole)
  {
    var shorter := part[..|part| - 1];
    if |shorter| > 0 {
      if part[|part| - 1] == whole[|whole| - 1] {
        if shorter[|shorter| - 1] == whole[|whole| - 1] {
          SubsequenceOfMore(shorter, whole[..|whole| - 1]);
        }
      } else {
        SubsequenceOfMore(part, whole[..|whole| - 1]);
        if shorter[|shorter| - 1] == whole[|whole| - 1] {
          SubsequenceOfMore(shorter, whole[..|whole| - 1]);
        }
      }
    }
  }

  lemma SubsequenceGrows(part: seq<Row>, whole: seq<Row>, row: Row)
    requires Subsequence(part, whole)
    ensures Subsequence(part + [row], whole + [row])
  {
    assert (part + [row])[..|part|] == part && (whole + [row])[..|whole|] == whole;
  }

  lemma PushKeepsOrder(capacity: nat, received: seq<Row>, buffer: seq<Row>, whole: seq<Row>, row: Row)
    requires capacity > 0 && Subsequence(received + buffer, whole)
    ensures Subsequence(received + Push(capacity, buffer, row), whole + [row])
  {
    var kept := if |buffer| < capacity then buffer else buffer[1..];
    if |buffer| >= capacity { SubsequenceDropsMiddle(received, buffer, whole); }
    SubsequenceGrows(received + kept, whole, row);
    assert (received + kept) + [row] == received + Push(capacity, buffer, row);
  }

  /** What a reader receives, followed by what waits for it, keeps the order of publication and invents nothing. */
  lemma {:induction false} DeliveryKeepsOrder(capacity: nat, steps: seq<Step>)
    requires capacity > 0
    ensures var feed := After(capacity, steps); Subsequence(feed.received + feed.buffer, Published(steps))
  {
    if |steps| > 0 {
      var before := steps[..|steps| - 1];
      DeliveryKeepsOrder(capacity, before);
      var feed := After(capacity, before);
      if steps[|steps| - 1].Offered? {
        var row := steps[|steps| - 1].row;
        PushKeepsOrder(capacity, feed.received, feed.buffer, Published(before), row);
        assert After(capacity, steps) == Feed(Push(capacity, feed.buffer, row), feed.received);
        assert Published(steps) == Published(before) + [row];
      } else {
        var next := After(capacity, steps);
        assert next.received + next.buffer == feed.received + feed.buffer;
        assert Published(steps) == Published(before);
      }
    }
  }

  lemma {:induction false} SubsequenceLength(part: seq<Row>, whole: seq<Row>)
    requires Subsequence(part, whole)
    ensures |part| <= |whole|
    ensures |part| == |whole| ==> part == whole
  {
    if |part| > 0 {
      if part[|part| - 1] == whole[|whole| - 1] {
        SubsequenceLength(part[..|part| - 1], whole[..|whole| - 1]);
      } else {
        SubsequenceLength(part, whole[..|whole| - 1]);
      }
    }
  }

  /** A subscriber misses nothing exactly when no event ever found its buffer full. */
  lemma LosslessExactly(capacity: nat, steps: seq<Step>)
    requires capacity > 0
    ensures var feed := After(capacity, steps);
            feed.received + feed.buffer == Published(steps) <==> Dropped(capacity, steps) == 0
  {
    EventsAreConserved(capacity, steps);
    DeliveryKeepsOrder(capacity, steps);
    var feed := After(capacity, steps);
    SubsequenceLength(feed.received + feed.buffer, Published(steps));
  }

  // ----- The broker -----

  /** A Go channel of the given capacity, with a record of what its reader has taken. */
  class Channel {
    const capacity: nat
    ghost const id: nat
    var buffer: seq<Row>
    var closed: bool
    ghost var received: seq<Row>

    ghost function Contents(): Feed
      reads this
    {
      Feed(buffer, received)
    }

    ghost predicate Valid()
      reads this
    {
      0 < capacity && |buffer| <= capacity
    }

    constructor (capacity: nat, ghost id: nat)
      requires capacity > 0
      ensures Valid() && this.capacity == capacity && this.id == id && !closed && Contents() == After(capacity, [])
    {
      this.capacity := capacity;
      this.id := id;
      buffer, closed, received := [], false, [];
    }

    /** A send that does not block. */
    method TrySend(row: Row) returns (sent: bool)
      modifies this`buffer
      ensures sent == (old(|buffer|) < capacity)
      ensures buffer == if sent then old(buffer) + [row] else old(buffer)
    {
      sent := |buffer| < capacity;
      if sent { buffer := buffer + [row]; }
    }

    /** A receive that does not block; None when the channel is empty. */
    method TryReceive() returns (row: Option<Row>)
      requires Valid()
      modifies this`buffer, this`received
      ensures Valid() && Contents() == Advance(capacity, old(Contents()), Taken)
      ensures row == if old(|buffer|) == 0 then None else Some(old(buffer)[0])
    {
      if |buffer| == 0 { return None; }
      row := Some(buffer[0]);
      buffer, received := buffer[1..], received + [buffer[0]];
    }

    /** tryPublishEvent: send, or drop the oldest event and send. It never fails. */
    method TryPublish(row: Row) returns (sent: bool)
      requires Valid()
      modifies this`buffer
      ensures Valid() && sent && Contents() == Advance(capacity, old(Contents()), Offered(row))
    {
      sent := TrySend(row);
      if !sent {
        buffer := buffer[1..];
        sent := TrySend(row);
      }
    }
  }

  datatype Subscriber = Subscriber(id: nat, ticket: string, runId: string, channel: Channel)

  /** matchesEventFilter, for a subscriber's filters. */
  predicate Matches(ticket: string, runId: string, row: Row) {
    (ticket == "" || Text.EqualFold(Text.Trim(row.event.ticket), ticket)) && (runId == "" || Text.EqualFold(Text.Trim(row.event.runId), runId))
  }

  /** An event is for a subscriber if it carries the subscriber's ticket and run, whatever their case, where those are given. */
  lemma MatchesExactly(ticket: string, runId: string, row: Row)
    ensures Matches(ticket, runId, row) <==> ForTicketAndRun(ticket, runId, row.event)
  {
    Text.EqualFoldExactly(Text.Trim(row.event.ticket), ticket);
    Text.EqualFoldExactly(Text.Trim(row.event.runId), runId);
  }

  predicate ForTicketAndRun(ticket: string, runId: string, event: Event) {
    && (|ticket| > 0 ==> Text.SameText(Text.Trim(event.ticket), ticket))
    && (|runId| > 0 ==> Text.SameText(Text.Trim(event.runId), runId))
  }

  class Broker {
    const bufferSize: nat
    var closed: bool
    var nextID: nat
    var subscribers: map<nat, Subscriber>
    ghost var channels: set<Channel>

    /** Every subscriber has an open channel of its own. */
    ghost predicate Valid()
      reads this, channels
    {
      && bufferSize > 0
      && (closed ==> subscribers == map[])
      && (forall id <- subscribers :: 0 < id <= nextID && subscribers[id].channel in channels && Registered(id))
    }

    ghost predicate Registered(id: nat)
      requires id in subscribers && subscribers[id].channel in channels
      reads this, channels
    {
      var channel := subscribers[id].channel;
      channel.Valid() && channel.id == id == subscribers[id].id && !channel.closed && channel.capacity == bufferSize
    }

    constructor (bufferSize: int)
      ensures Valid() && !closed && subscribers == map[] && channels == {}
      ensures this.bufferSize == if bufferSize <= 0 then 64 else bufferSize
    {
      this.bufferSize := if bufferSize <= 0 then 64 else bufferSize;
      closed, nextID, subscribers, channels := false, 0, map[], {};
    }

    /** A subscription to a closed broker gets a closed channel and is not registered. */
    method Subscribe(ticket: string, runId: string) returns (channel: Channel)
      requires Valid()
      modifies this
      ensures Valid() && closed == old(closed)
      ensures fresh(channel) && channel.Valid() && channel.Contents() == After(bufferSize, []) && channel.closed == closed
      ensures closed ==> subscribers == old(subscribers) && channels == old(channels)
      ensures !closed ==> nextID !in old(subscribers) && channels == old(channels) + {channel} &&
                          subscribers == old(subscribers)[nextID := Subscriber(nextID, Text.Trim(ticket), Text.Trim(runId), channel)]
    {
      channel := new Channel(bufferSize, nextID + 1);
      if closed {
        channel.closed := true;
        return;
      }
      nextID := nextID + 1;
      subscribers := subscribers[nextID := Subscriber(nextID, Text.Trim(ticket), Text.Trim(runId), channel)];
      channels := channels + {channel};
    }

    /** The subscribers `row` is for. */
    ghost function Audience(row: Row): set<nat>
      reads this
    {
      set id | id in subscribers && ForTicketAndRun(subscribers[id].ticket, subscribers[id].runId, row.event)
    }

    method Offer(id: nat, row: Row) returns (sent: bool)
      requires Valid() && id in subscribers
      modifies subscribers[id].channel
      ensures Valid() && sent
      ensures subscribers[id].channel.Contents() == Advance(bufferSize, old(subscribers[id].channel.Contents()), Offered(row))
      ensures forall other <- subscribers ::
                other != id ==> subscribers[other].channel.Contents() == old(subscribers[other].channel.Contents())
    {
      sent := subscribers[id].channel.TryPublish(row);
    }

    /** Offers the event to every matching subscriber, and to no other, and counts them. */
    method Publish(row: Row) returns (delivered: nat)
      requires Valid()
      modifies channels
      ensures Valid()
      ensures delivered == |Audience(row)|
      ensures forall id <- subscribers ::
                subscribers[id].channel.Contents() ==
                Reached(bufferSize, old(subscribers[id].channel.Contents()), id in Audience(row), row)
    {
      delivered := 0;
      ghost var audience: set<nat>, served: set<nat> := Audience(row), {};
      if closed { return; }
      var remaining := subscribers.Keys;
      while remaining != {}
        invariant Valid() && remaining <= subscribers.Keys
        invariant (forall id :: id in served <==> id in audience && id !in remaining) && delivered == |served|
        invariant forall id <- subscribers ::
                    subscribers[id].channel.Contents() ==
                    Reached(bufferSize, old(subscribers[id].channel.Contents()), id in served, row)
      {
        var id :| id in remaining;
        remaining := remaining - {id};
        MatchesExactly(subscribers[id].ticket, subscribers[id].runId, row);
        if Matches(subscribers[id].ticket, subscribers[id].runId, row) {
          var sent := Offer(id, row);
          if sent { delivered := delivered + 1; }
          served := served + {id};
        }
      }
      assert served == audience;
    }

    method Unsubscribe(id: nat)
      requires Valid()
      modifies this`subscribers, channels
      ensures Valid() && subscribers == old(subscribers) - {id}
      ensures id in old(subscribers) ==> old(subscribers)[id].channel.closed
      ensures forall channel <- channels ::
                channel.Contents() == old(channel.Contents()) && (old(channel.closed) ==> channel.closed)
    {
      if id !in subscribers { return; }
      var channel := subscribers[id].channel;
      subscribers := subscribers - {id};
      channel.closed := true;
    }

    /** Closes every subscriber's channel; what waits in one can still be received. */
    method Close()
      requires Valid()
      modifies this`closed, this`subscribers, channels
      ensures Valid() && closed && subscribers == map[]
      ensures forall id <- old(subscribers) :: old(subscribers)[id].channel.closed
      ensures forall channel <- channels :: channel.Contents() == old(channel.Contents())
    {
      if closed { return; }
      var remaining := subscribers.Keys;
      ghost var registered := subscribers;
      while remaining != {}
        invariant Valid() && !closed && remaining == subscribers.Keys && subscribers == registered - (registered.Keys - remaining)
        invariant forall id <- registered :: id !in remaining ==> registered[id].channel in channels && registered[id].channel.closed
        invariant forall channel <- channels :: channel.Contents() == old(channel.Contents())
      {
        var id :| id in remaining;
        Unsubscribe(id);
        remaining := remaining - {id};
      }
      closed := true;
    }
  }
}
