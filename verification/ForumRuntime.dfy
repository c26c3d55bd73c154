/** The bus runtime as an object: handler and subscription tables changed in place, and the flush and consume loops.
    Every method is shown to take only steps of the bus state machine, and to do exactly what its results say. */
module ForumRuntime {
  import opened Options
  import opened ForumModel
  import opened ForumOutbox
  import opened ForumBus
  import Lex

  /** How Redis answers the publishing of one message: accepted; refused; refused although the entry was added. */
  datatype RedisAnswer = Accepted | Refused | Ambiguous

  /** The answers to one turn of the flush: Redis's, if it is asked at all, and whether the row could then be marked. */
  datatype Reply = Reply(redis: RedisAnswer, marked: bool)

  /** What a handler makes of one delivery; on failure the row may not get marked either. */
  datatype Verdict = Succeeds | Fails(marked: bool)

  datatype Arrival = Arrival(entry: Entry, verdict: Verdict)

  /** The mark a flushed message's row is to get. */
  function MarkFor(topic: string, table: set<string>, reply: Reply): Status {
    if topic in table && reply.redis.Accepted? then Sent else Failed
  }

  /** The row a flushed message ends as: unchanged when the mark is lost. */
  function Flushed(row: Row, table: set<string>, reply: Reply, now: int): Row {
    if reply.marked then MarkedAs(row, MarkFor(row.topic, table, reply), now) else row
  }

  /** Redis has the entry after the turn. */
  predicate Entered(row: Row, table: set<string>, reply: Reply) {
    row.topic in table && !reply.redis.Refused?
  }

  /** The flush stops here: the message was accepted and its row could not be marked. The error of a lost `failed` mark is
      ignored. */
  predicate Stops(row: Row, table: set<string>, reply: Reply) {
    row.topic in table && reply.redis.Accepted? && !reply.marked
  }

  /** One turn of the flush loop over the handler table `table`. Rows are marked by message id. */
  function FlushOne(s: Bus, i: nat, table: set<string>, reply: Reply, now: int): (s': Bus)
    requires i < |s.outbox|
    ensures |s'.outbox| == |s.outbox|
  {
    var row := s.outbox[i];
    var sent := if Entered(row, table, reply)
                then s.(stream := s.stream + multiset{Entry(row.messageId, row.topic, row.payload)},
                        published := if reply.redis.Accepted? then s.published + {row.messageId} else s.published)
                else s;
    if !reply.marked then sent
    else
      var status := MarkFor(row.topic, table, reply);
      sent.(outbox := Mark(s.outbox, row.messageId, status, now),
            batch := s.batch - {row.messageId},
            published := if status == Sent then sent.published - {row.messageId} else sent.published)
  }

  /** The flush loop: the end state, the count of messages sent, and whether it ran to the end of the batch. */
  function FlushFrom(s: Bus, claimed: seq<nat>, table: set<string>, now: int, reply: nat -> Reply): (r: (Bus, nat, bool))
    requires forall k :: 0 <= k < |claimed| ==> claimed[k] < |s.outbox|
    ensures |r.0.outbox| == |s.outbox|
    decreases |claimed|
  {
    if |claimed| == 0 then (s, 0, true)
    else
      var i := claimed[0];
      var row := s.outbox[i];
      var s' := FlushOne(s, i, table, reply(i), now);
      if Stops(row, table, reply(i)) then (s', 0, false)
      else
        var rest := FlushFrom(s', claimed[1..], table, now, reply);
        (rest.0, (if row.topic in table && reply(i) == Reply(Accepted, true) then 1 else 0) + rest.1, rest.2)
  }

  /** A flush is a turn on its first message and, unless that stops it, the flush of the others. */
  lemma FlushTurn(s: Bus, claimed: seq<nat>, table: set<string>, now: int, reply: nat -> Reply)
    requires |claimed| > 0 && forall k :: 0 <= k < |claimed| ==> claimed[k] < |s.outbox|
    ensures var s1 := FlushOne(s, claimed[0], table, reply(claimed[0]), now);
            if Stops(s.outbox[claimed[0]], table, reply(claimed[0])) then FlushFrom(s, claimed, table, now, reply) == (s1, 0, false)
            else
              var rest := FlushFrom(s1, claimed[1..], table, now, reply);
              FlushFrom(s, claimed, table, now, reply) ==
              (rest.0, (if s.outbox[claimed[0]].topic in table && reply(claimed[0]) == Reply(Accepted, true) then 1 else 0) + rest.1, rest.2)
  {
  }

  /** One turn of the consume loop: acked for want of a handler, handled and acked, or marked failed and left. */
  function ConsumeOne(s: Bus, a: Arrival, table: set<string>, now: int): Bus {
    if a.entry.topic !in table then s.(stream := s.stream - multiset{a.entry})
    else match a.verdict
      case Succeeds => s.(handled := s.handled + {a.entry.messageId}, stream := s.stream - multiset{a.entry})
      case Fails(marked) =>
        if marked then s.(outbox := Mark(s.outbox, a.entry.messageId, Failed, now), batch := s.batch - {a.entry.messageId}) else s
  }

  function ConsumeAll(s: Bus, feed: seq<Arrival>, table: set<string>, now: int): Bus
    decreases |feed|
  {
    if |feed| == 0 then s else ConsumeAll(ConsumeOne(s, feed[0], table, now), feed[1..], table, now)
  }

  lemma ConsumeTurn(s: Bus, feed: seq<Arrival>, table: set<string>, now: int)
    requires |feed| > 0
    ensures ConsumeAll(s, feed, table, now) == ConsumeAll(ConsumeOne(s, feed[0], table, now), feed[1..], table, now)
  {
  }

  lemma {:induction false} ConsumeAllConcat(s: Bus, feed: seq<Arrival>, more: seq<Arrival>, table: set<string>, now: int)
    ensures ConsumeAll(s, feed + more, table, now) == ConsumeAll(ConsumeAll(s, feed, table, now), more, table, now)
    decreases |feed|
  {
    if |feed| == 0 {
      assert feed + more == more;
    } else {
      assert (feed + more)[1..] == feed[1..] + more;
      ConsumeAllConcat(ConsumeOne(s, feed[0], table, now), feed[1..], more, table, now);
    }
  }

  lemma ConsumeAllSnoc(s: Bus, feed: seq<Arrival>, a: Arrival, table: set<string>, now: int)
    ensures ConsumeAll(s, feed + [a], table, now) == ConsumeOne(ConsumeAll(s, feed, table, now), a, table, now)
  {
    ConsumeAllConcat(s, feed, [a], table, now);
    assert [a][1..] == [];
  }

  /** What one look at a topic's channel gives: nothing, a message and what its handler makes of it, or the pass is cancelled. */
  datatype Poll = Nothing | Took(messageId: string, payload: Message, verdict: Verdict) | Cancelled

  /** What the consume loop meets: what each round's looks give, by topic; the idle rounds after which it is cancelled while it
      waits; and the first round that ends after the deadline. */
  datatype Polls = Polls(rounds: seq<map<string, Poll>>, cancelledIdle: set<nat>, deadline: nat)

  function Look(polls: Polls, round: nat, topic: string): Poll {
    if round < |polls.rounds| && topic in polls.rounds[round] then polls.rounds[round][topic] else Nothing
  }

  datatype Taken = Taken(feed: seq<Arrival>, cancelled: bool)

  function Then(feed: seq<Arrival>, rest: Taken): Taken {
    rest.(feed := feed + rest.feed)
  }

  /** What a round has taken after its first `k` looks: one message a topic at most, while there is room. */
  function RoundTo(topics: seq<string>, k: nat, room: nat, round: nat, polls: Polls): (taken: Taken)
    requires k <= |topics|
    ensures |taken.feed| <= room
  {
    if k == 0 then Taken([], false)
    else
      var before := RoundTo(topics, k - 1, room, round, polls);
      if before.cancelled || |before.feed| == room then before
      else match Look(polls, round, topics[k - 1])
        case Cancelled => before.(cancelled := true)
        case Nothing => before
        case Took(id, payload, verdict) => before.(feed := before.feed + [Arrival(Entry(id, topics[k - 1], payload), verdict)])
  }

  function RoundOf(topics: seq<string>, room: nat, round: nat, polls: Polls): (taken: Taken)
    ensures |taken.feed| <= room
  {
    RoundTo(topics, |topics|, room, round, polls)
  }

  /** A round that is cancelled or has no room left takes nothing more. */
  lemma {:induction false} RoundSettled(topics: seq<string>, k: nat, n: nat, room: nat, round: nat, polls: Polls)
    requires k <= n <= |topics|
    requires var taken := RoundTo(topics, k, room, round, polls); taken.cancelled || |taken.feed| == room
    ensures RoundTo(topics, n, room, round, polls) == RoundTo(topics, k, room, round, polls)
    decreases n
  {
    if k < n { RoundSettled(topics, k, n - 1, room, round, polls); }
  }

  /** What is taken, and whether the loop is over. */
  datatype Progress = Progress(taken: Taken, over: bool)

  /** What the rounds so far come to. An idle round after the deadline is the last; so is one that is cancelled, while it looks
      or while it waits, or that fills what room is left. */
  function InAll(rounds: seq<Taken>, limit: nat, polls: Polls): Progress {
    if |rounds| == 0 then Progress(Taken([], false), limit == 0)
    else
      var n := |rounds| - 1;
      var before, last := InAll(rounds[..n], limit, polls), rounds[n];
      var room := if |before.taken.feed| <= limit then limit - |before.taken.feed| else 0;
      Progress(Taken(before.taken.feed + last.feed, last.cancelled || Stopped(last, n, polls)), Over(last, room, n, polls))
  }

  /** The loop is cancelled while it waits after this round. */
  predicate Stopped(last: Taken, n: nat, polls: Polls) {
    !last.cancelled && |last.feed| == 0 && n < polls.deadline && n in polls.cancelledIdle
  }

  predicate Over(last: Taken, room: nat, n: nat, polls: Polls) {
    last.cancelled || |last.feed| >= room || (|last.feed| == 0 && (n >= polls.deadline || n in polls.cancelledIdle))
  }

  /** The loop got to its round `n`, with room left, and this is what the round took. */
  predicate IsRound(topics: seq<string>, rounds: seq<Taken>, n: nat, limit: nat, polls: Polls)
    requires n < |rounds|
  {
    var before := InAll(rounds[..n], limit, polls);
    !before.over && |before.taken.feed| < limit && rounds[n] == RoundOf(topics, limit - |before.taken.feed|, n, polls)
  }

  ghost predicate AreRounds(topics: seq<string>, rounds: seq<Taken>, limit: nat, polls: Polls) {
    forall n :: 0 <= n < |rounds| ==> IsRound(topics, rounds, n, limit, polls)
  }

  /** What the consume loop takes in all: its rounds up to the last. */
  ghost predicate IsTaken(topics: seq<string>, limit: nat, polls: Polls, taken: Taken) {
    exists rounds: seq<Taken> :: AreRounds(topics, rounds, limit, polls) && InAll(rounds, limit, polls) == Progress(taken, true)
  }

  lemma RoundMore(topics: seq<string>, rounds: seq<Taken>, next: Taken, limit: nat, polls: Polls) returns (more: seq<Taken>)
    requires AreRounds(topics, rounds, limit, polls)
    requires var before := InAll(rounds, limit, polls);
             !before.over && |before.taken.feed| < limit && next == RoundOf(topics, limit - |before.taken.feed|, |rounds|, polls)
    ensures AreRounds(topics, more, limit, polls) && |more| == |rounds| + 1
    ensures var before, n := InAll(rounds, limit, polls), |rounds|;
            InAll(more, limit, polls) ==
            Progress(Taken(before.taken.feed + next.feed, next.cancelled || Stopped(next, n, polls)), Over(next, limit - |before.taken.feed|, n, polls))
  {
    more := rounds + [next];
    assert more[..|rounds|] == rounds;
    forall n | 0 <= n < |more|
      ensures IsRound(topics, more, n, limit, polls)
    {
      if n < |rounds| {
        assert more[..n] == rounds[..n];
        assert IsRound(topics, rounds, n, limit, polls);
      }
    }
  }

  /** What a further round comes to. */
  lemma RoundDone(topics: seq<string>, rounds: seq<Taken>, next: Taken, limit: nat, polls: Polls, s: Bus, table: set<string>, now: int)
    returns (more: seq<Taken>, q: Progress)
    requires AreRounds(topics, rounds, limit, polls)
    requires var p := InAll(rounds, limit, polls);
             !p.over && |p.taken.feed| < limit && next == RoundOf(topics, limit - |p.taken.feed|, |rounds|, polls)
    ensures AreRounds(topics, more, limit, polls) && |more| == |rounds| + 1 && q == InAll(more, limit, polls)
    ensures var p, n := InAll(rounds, limit, polls), |rounds|;
            && |q.taken.feed| == |p.taken.feed| + |next.feed| && q.taken.cancelled == (next.cancelled || Stopped(next, n, polls))
            && q.over == Over(next, limit - |p.taken.feed|, n, polls)
            && ConsumeAll(s, q.taken.feed, table, now) == ConsumeAll(ConsumeAll(s, p.taken.feed, table, now), next.feed, table, now)
  {
    more := RoundMore(topics, rounds, next, limit, polls);
    q := InAll(more, limit, polls);
    ConsumeAllConcat(s, InAll(rounds, limit, polls).taken.feed, next.feed, table, now);
  }

  /** A loop that is not over has taken something in every round since the deadline. */
  lemma {:induction false} RoundsEnd(topics: seq<string>, rounds: seq<Taken>, limit: nat, polls: Polls)
    requires AreRounds(topics, rounds, limit, polls)
    ensures var p := InAll(rounds, limit, polls);
            !p.over ==> !p.taken.cancelled && |rounds| <= polls.deadline + |p.taken.feed| && |p.taken.feed| < limit
    decreases |rounds|
  {
    if |rounds| > 0 {
      var before := rounds[..|rounds| - 1];
      assert IsRound(topics, rounds, |before|, limit, polls);
      forall n | 0 <= n < |before| ensures IsRound(topics, before, n, limit, polls) {
        assert before[..n] == rounds[..n];
        assert IsRound(topics, rounds, n, limit, polls);
      }
      RoundsEnd(topics, before, limit, polls);
    }
  }

  predicate Ascending(topics: seq<string>) {
    forall i, j :: 0 <= i < j < |topics| ==> Lex.Less(topics[i], topics[j])
  }

  /** The topics of a set, sorted. */
  ghost predicate IsOrder(topics: seq<string>, listed: set<string>) {
    Ascending(topics) && forall t :: t in topics <==> t in listed
  }

  lemma {:induction false} OrderIsUnique(a: seq<string>, b: seq<string>)
    requires Ascending(a) && Ascending(b) && forall t :: t in a <==> t in b
    ensures a == b
    decreases |a|
  {
    if a != [] || b != [] {
      assert (a != [] ==> a[0] in b) && (b != [] ==> b[0] in a);
      Lex.LessTotal(a[0], b[0]);
      assert a[0] == b[0];
      forall t ensures t in a[1..] <==> t in b[1..] {
        Lex.LessTotal(a[0], a[0]);
        assert t in a[1..] <==> t in a && t != a[0];
        assert t in b[1..] <==> t in b && t != b[0];
      }
      OrderIsUnique(a[1..], b[1..]);
      assert a == [a[0]] + a[1..] && b == [b[0]] + b[1..];
    }
  }

  /** Puts a topic in its place. */
  function Inserted(topics: seq<string>, t: string): seq<string> {
    if |topics| == 0 || Lex.Less(t, topics[0]) then [t] + topics else [topics[0]] + Inserted(topics[1..], t)
  }

  lemma {:induction false} InsertedAscends(topics: seq<string>, t: string)
    requires Ascending(topics) && t !in topics
    ensures Ascending(Inserted(topics, t)) && forall u :: u in Inserted(topics, t) <==> u in topics || u == t
  {
    if |topics| > 0 {
      Lex.LessTotal(t, topics[0]);
      if Lex.Less(t, topics[0]) {
        forall j | 0 <= j < |topics| ensures Lex.Less(t, topics[j]) {
          if j > 0 { Lex.LessTransitive(t, topics[0], topics[j]); }
        }
      } else {
        InsertedAscends(topics[1..], t);
        assert topics == [topics[0]] + topics[1..];
        assert forall u :: u in Inserted(topics[1..], t) ==> Lex.Less(topics[0], u);
      }
    }
  }

  ghost function OrderOf(listed: set<string>): seq<string> {
    if listed == {} then []
    else
      var t :| t in listed;
      Inserted(OrderOf(listed - {t}), t)
  }

  lemma {:induction false} OrderIsSorted(listed: set<string>)
    ensures IsOrder(OrderOf(listed), listed)
    decreases listed
  {
    if listed != {} {
      var t :| t in listed && OrderOf(listed) == Inserted(OrderOf(listed - {t}), t);
      OrderIsSorted(listed - {t});
      InsertedAscends(OrderOf(listed - {t}), t);
    }
  }

  /** Sorts the topics of a subscription table. */
  method SortTopics(listed: set<string>) returns (topics: seq<string>)
    ensures topics == OrderOf(listed)
  {
    topics := [];
    var left := listed;
    while left != {}
      invariant left <= listed && IsOrder(topics, listed - left)
    {
      var t :| t in left;
      InsertedAscends(topics, t);
      topics, left := Inserted(topics, t), left - {t};
    }
    OrderIsSorted(listed);
    OrderIsUnique(topics, OrderOf(listed));
  }

  function ClaimAll(s: Bus, limit: nat, marker: int): Bus {
    var rows := Claim(s.outbox, limit, marker);
    s.(outbox := rows, batch := s.batch + StampedIds(rows, marker))
  }

  // ----- What the loops do -----

  predicate Distinct(claimed: seq<nat>) {
    forall a, b :: 0 <= a < b < |claimed| ==> claimed[a] != claimed[b]
  }

  predicate InBatch(s: Bus, claimed: seq<nat>) {
    forall k :: 0 <= k < |claimed| ==> claimed[k] < |s.outbox| && s.outbox[claimed[k]].messageId in s.batch
  }

  lemma MarkOne(rows: seq<Row>, i: nat, status: Status, now: int)
    requires UniqueMessages(rows) && i < |rows|
    ensures Mark(rows, rows[i].messageId, status, now) == rows[i := MarkedAs(rows[i], status, now)]
  {
  }

  /** A turn of the flush is a run of the bus machine. */
  lemma FlushOneReaches(s: Bus, i: nat, table: set<string>, reply: Reply, now: int)
    requires i < |s.outbox| && s.outbox[i].messageId in s.batch && s.snapshot == Some(table)
    ensures Reaches(s, FlushOne(s, i, table, reply, now))
  {
    var row := s.outbox[i];
    ReachesSelf(s);
    var sent := s;
    if Entered(row, table, reply) {
      sent := Next(s, SendToRedis(i, reply.redis.Accepted?));
      ReachesStep(s, s, SendToRedis(i, reply.redis.Accepted?));
    }
    if reply.marked {
      if MarkFor(row.topic, table, reply) == Sent {
        ReachesStep(s, sent, MarkSent(row.messageId, now));
      } else {
        ReachesStep(s, sent, MarkFailed(row.messageId, now));
      }
    }
  }

  lemma FlushOneRow(s: Bus, i: nat, table: set<string>, reply: Reply, now: int)
    requires UniqueMessages(s.outbox) && i < |s.outbox|
    ensures FlushOne(s, i, table, reply, now).outbox == s.outbox[i := Flushed(s.outbox[i], table, reply, now)]
  {
    MarkOne(s.outbox, i, Failed, now);
    MarkOne(s.outbox, i, Sent, now);
  }

  /** A turn touches one row, and takes at most that row's message out of the batch. */
  lemma FlushOneKeeps(s: Bus, claimed: seq<nat>, table: set<string>, reply: Reply, now: int)
    requires UniqueMessages(s.outbox) && Distinct(claimed) && InBatch(s, claimed) && |claimed| > 0
    ensures var s' := FlushOne(s, claimed[0], table, reply, now);
            && UniqueMessages(s'.outbox) && Distinct(claimed[1..]) && InBatch(s', claimed[1..])
            && (forall i: nat :: i < |s.outbox| && i != claimed[0] ==> s'.outbox[i] == s.outbox[i])
  {
    var s', id := FlushOne(s, claimed[0], table, reply, now), s.outbox[claimed[0]].messageId;
    FlushOneRow(s, claimed[0], table, reply, now);
    assert forall i: nat :: i < |s.outbox| ==> s'.outbox[i].messageId == s.outbox[i].messageId;
    forall k | 0 <= k < |claimed[1..]|
      ensures s'.outbox[claimed[1..][k]].messageId in s'.batch
    {
      var i := claimed[k + 1];
      assert i != claimed[0] && s.outbox[i].messageId != id;
    }
  }

  /** The flush takes steps of the bus machine only, however it ends; so it loses nothing. */
  lemma {:induction false} FlushReaches(s: Bus, claimed: seq<nat>, table: set<string>, now: int, reply: nat -> Reply)
    requires UniqueMessages(s.outbox) && Distinct(claimed) && InBatch(s, claimed) && s.snapshot == Some(table)
    ensures Reaches(s, FlushFrom(s, claimed, table, now, reply).0)
    decreases |claimed|
  {
    if |claimed| == 0 {
      ReachesSelf(s);
    } else {
      var s1 := FlushOne(s, claimed[0], table, reply(claimed[0]), now);
      FlushOneReaches(s, claimed[0], table, reply(claimed[0]), now);
      if !Stops(s.outbox[claimed[0]], table, reply(claimed[0])) {
        FlushOneKeeps(s, claimed, table, reply(claimed[0]), now);
        FlushReaches(s1, claimed[1..], table, now, reply);
        ReachesThrough(s, s1, FlushFrom(s1, claimed[1..], table, now, reply).0);
      }
    }
  }

  /** Rows outside the batch are never touched. */
  lemma {:induction false} FlushLeavesRest(s: Bus, claimed: seq<nat>, table: set<string>, now: int, reply: nat -> Reply, i: nat)
    requires UniqueMessages(s.outbox) && Distinct(claimed) && InBatch(s, claimed)
    requires i < |s.outbox| && i !in claimed
    ensures FlushFrom(s, claimed, table, now, reply).0.outbox[i] == s.outbox[i]
    decreases |claimed|
  {
    if |claimed| > 0 {
      assert claimed[0] in claimed;
      FlushOneKeeps(s, claimed, table, reply(claimed[0]), now);
      if !Stops(s.outbox[claimed[0]], table, reply(claimed[0])) {
        FlushLeavesRest(FlushOne(s, claimed[0], table, reply(claimed[0]), now), claimed[1..], table, now, reply, i);
      }
    }
  }

  /** On the `k`-th turn Redis accepts the message of a handled topic, and its row cannot be marked. */
  predicate StopsAt(rows: seq<Row>, claimed: seq<nat>, table: set<string>, reply: nat -> Reply, k: nat)
    requires k < |claimed| && claimed[k] < |rows|
  {
    rows[claimed[k]].topic in table && reply(claimed[k]) == Reply(Accepted, false)
  }

  /** A flush ends early exactly when some mark fails. */
  lemma {:induction false} FlushStopsExactly(s: Bus, claimed: seq<nat>, table: set<string>, now: int, reply: nat -> Reply)
    requires UniqueMessages(s.outbox) && Distinct(claimed) && InBatch(s, claimed)
    ensures FlushFrom(s, claimed, table, now, reply).2 <==> forall k: nat :: k < |claimed| ==> !StopsAt(s.outbox, claimed, table, reply, k)
    decreases |claimed|
  {
    if |claimed| > 0 {
      var first, rest := claimed[0], claimed[1..];
      var s1 := FlushOne(s, first, table, reply(first), now);
      assert StopsAt(s.outbox, claimed, table, reply, 0) == Stops(s.outbox[first], table, reply(first));
      if !Stops(s.outbox[first], table, reply(first)) {
        FlushOneKeeps(s, claimed, table, reply(first), now);
        FlushStopsExactly(s1, rest, table, now, reply);
        forall k: nat | k < |rest|
          ensures StopsAt(s1.outbox, rest, table, reply, k) == StopsAt(s.outbox, claimed, table, reply, k + 1)
        {
          assert rest[k] == claimed[k + 1] && claimed[k + 1] != claimed[0];
        }
        forall k: nat | k < |claimed|
          ensures StopsAt(s.outbox, claimed, table, reply, k) ==> !FlushFrom(s, claimed, table, now, reply).2
        {
          if k > 0 { assert StopsAt(s1.outbox, rest, table, reply, k - 1) == StopsAt(s.outbox, claimed, table, reply, k - 1 + 1); }
        }
      }
    }
  }

  /** No turn before the `k`-th stops the flush. */
  predicate TurnReached(rows: seq<Row>, claimed: seq<nat>, table: set<string>, reply: nat -> Reply, k: nat)
    requires k < |claimed| && forall j :: 0 <= j < |claimed| ==> claimed[j] < |rows|
  {
    forall j: nat :: j < k ==> !StopsAt(rows, claimed, table, reply, j)
  }

  /** Turns after the first, seen from the rest of the batch. */
  lemma TurnShift(s: Bus, claimed: seq<nat>, table: set<string>, now: int, reply: nat -> Reply, k: nat)
    requires UniqueMessages(s.outbox) && Distinct(claimed) && InBatch(s, claimed) && 0 < k < |claimed|
    ensures var s1, rest := FlushOne(s, claimed[0], table, reply(claimed[0]), now), claimed[1..];
            && rest[k - 1] == claimed[k] != claimed[0] && s1.outbox[claimed[k]] == s.outbox[claimed[k]]
            && UniqueMessages(s1.outbox) && Distinct(rest) && InBatch(s1, rest)
            && (TurnReached(s.outbox, claimed, table, reply, k) <==>
                !StopsAt(s.outbox, claimed, table, reply, 0) && TurnReached(s1.outbox, rest, table, reply, k - 1))
  {
    var s1, rest := FlushOne(s, claimed[0], table, reply(claimed[0]), now), claimed[1..];
    FlushOneKeeps(s, claimed, table, reply(claimed[0]), now);
    forall j: nat | j < |rest|
      ensures StopsAt(s1.outbox, rest, table, reply, j) == StopsAt(s.outbox, claimed, table, reply, j + 1)
    {
      assert rest[j] == claimed[j + 1] && claimed[j + 1] != claimed[0];
    }
    if !StopsAt(s.outbox, claimed, table, reply, 0) && TurnReached(s1.outbox, rest, table, reply, k - 1) {
      forall j: nat | j < k
        ensures !StopsAt(s.outbox, claimed, table, reply, j)
      {
        if j > 0 { assert !StopsAt(s1.outbox, rest, table, reply, j - 1); }
      }
    }
  }

  /** However the flush ends, each row of its batch is untouched when its turn was not reached or its mark was lost, and
      otherwise sent if its topic is handled and Redis accepted the message, and failed if not. */
  lemma {:induction false} FlushMeaning(s: Bus, claimed: seq<nat>, table: set<string>, now: int, reply: nat -> Reply, k: nat)
    requires UniqueMessages(s.outbox) && Distinct(claimed) && InBatch(s, claimed) && k < |claimed|
    ensures var row, answer := s.outbox[claimed[k]], reply(claimed[k]);
            FlushFrom(s, claimed, table, now, reply).0.outbox[claimed[k]] ==
            if !TurnReached(s.outbox, claimed, table, reply, k) || !answer.marked then row
            else row.(status := if row.topic in table && answer.redis == Accepted then Sent else Failed, updatedAt := Second(now))
    decreases |claimed|
  {
    var first, rest := claimed[0], claimed[1..];
    var s1 := FlushOne(s, first, table, reply(first), now);
    FlushOneRow(s, first, table, reply(first), now);
    FlushOneKeeps(s, claimed, table, reply(first), now);
    if k == 0 {
      if !Stops(s.outbox[first], table, reply(first)) { FlushLeavesRest(s1, rest, table, now, reply, first); }
    } else {
      TurnShift(s, claimed, table, now, reply, k);
      assert StopsAt(s.outbox, claimed, table, reply, 0) == Stops(s.outbox[first], table, reply(first));
      if !Stops(s.outbox[first], table, reply(first)) { FlushMeaning(s1, rest, table, now, reply, k - 1); }
    }
  }

  /** A claimed row is still in processing after the flush exactly when its turn was not reached or its mark was lost. */
  lemma FlushLeavesProcessing(s: Bus, claimed: seq<nat>, table: set<string>, now: int, reply: nat -> Reply, k: nat)
    requires UniqueMessages(s.outbox) && Distinct(claimed) && InBatch(s, claimed) && k < |claimed|
    requires s.outbox[claimed[k]].status == Processing
    ensures FlushFrom(s, claimed, table, now, reply).0.outbox[claimed[k]].status == Processing <==>
            !TurnReached(s.outbox, claimed, table, reply, k) || !reply(claimed[k]).marked
  {
    FlushMeaning(s, claimed, table, now, reply, k);
  }

  /** A flush that runs to the end reaches every turn. */
  lemma CompleteReachesAll(s: Bus, claimed: seq<nat>, table: set<string>, now: int, reply: nat -> Reply, k: nat)
    requires UniqueMessages(s.outbox) && Distinct(claimed) && InBatch(s, claimed) && k < |claimed|
    ensures FlushFrom(s, claimed, table, now, reply).2 ==> TurnReached(s.outbox, claimed, table, reply, k)
  {
    FlushStopsExactly(s, claimed, table, now, reply);
  }

  lemma FlushOneEntry(s: Bus, i: nat, table: set<string>, reply: Reply, now: int, id: string)
    requires i < |s.outbox|
    ensures HasEntry(FlushOne(s, i, table, reply, now).stream, id) <==>
            HasEntry(s.stream, id) || (s.outbox[i].messageId == id && Entered(s.outbox[i], table, reply))
  {
    var row, s' := s.outbox[i], FlushOne(s, i, table, reply, now);
    var e := Entry(row.messageId, row.topic, row.payload);
    if Entered(row, table, reply) {
      assert e in s'.stream && forall other :: other in s'.stream <==> other in s.stream || other == e;
    }
  }

  /** Other messages get no entry. */
  lemma {:induction false} FlushEntersOnly(s: Bus, claimed: seq<nat>, table: set<string>, now: int, reply: nat -> Reply, i: nat)
    requires UniqueMessages(s.outbox) && Distinct(claimed) && InBatch(s, claimed) && i < |s.outbox| && i !in claimed
    ensures var id := s.outbox[i].messageId;
            HasEntry(FlushFrom(s, claimed, table, now, reply).0.stream, id) <==> HasEntry(s.stream, id)
    decreases |claimed|
  {
    if |claimed| > 0 {
      assert claimed[0] in claimed;
      FlushOneKeeps(s, claimed, table, reply(claimed[0]), now);
      FlushOneEntry(s, claimed[0], table, reply(claimed[0]), now, s.outbox[i].messageId);
      if !Stops(s.outbox[claimed[0]], table, reply(claimed[0])) {
        FlushEntersOnly(FlushOne(s, claimed[0], table, reply(claimed[0]), now), claimed[1..], table, now, reply, i);
      }
    }
  }

  lemma FirstEnters(s: Bus, claimed: seq<nat>, table: set<string>, now: int, reply: nat -> Reply)
    requires UniqueMessages(s.outbox) && Distinct(claimed) && InBatch(s, claimed) && |claimed| > 0
    ensures var row := s.outbox[claimed[0]];
            HasEntry(FlushFrom(s, claimed, table, now, reply).0.stream, row.messageId) <==>
            HasEntry(s.stream, row.messageId) || Entered(row, table, reply(claimed[0]))
  {
    var first := claimed[0];
    FlushOneEntry(s, first, table, reply(first), now, s.outbox[first].messageId);
    if !Stops(s.outbox[first], table, reply(first)) {
      FlushOneKeeps(s, claimed, table, reply(first), now);
      FlushOneRow(s, first, table, reply(first), now);
      DistinctTail(claimed);
      FlushEntersOnly(FlushOne(s, first, table, reply(first), now), claimed[1..], table, now, reply, first);
    }
  }

  /** Redis has an entry for a claimed message afterwards exactly when it had one before, or the message's turn was reached and
      Redis took it. */
  lemma {:induction false} FlushEnters(s: Bus, claimed: seq<nat>, table: set<string>, now: int, reply: nat -> Reply, k: nat)
    requires UniqueMessages(s.outbox) && Distinct(claimed) && InBatch(s, claimed) && k < |claimed|
    ensures var row := s.outbox[claimed[k]];
            HasEntry(FlushFrom(s, claimed, table, now, reply).0.stream, row.messageId) <==>
            HasEntry(s.stream, row.messageId) ||
            (TurnReached(s.outbox, claimed, table, reply, k) && row.topic in table && reply(claimed[k]).redis in {Accepted, Ambiguous})
    decreases |claimed|
  {
    var first, rest := claimed[0], claimed[1..];
    var s1, id := FlushOne(s, first, table, reply(first), now), s.outbox[claimed[k]].messageId;
    if k == 0 {
      FirstEnters(s, claimed, table, now, reply);
    } else {
      FlushOneKeeps(s, claimed, table, reply(first), now);
      FlushOneRow(s, first, table, reply(first), now);
      FlushOneEntry(s, first, table, reply(first), now, id);
      TurnShift(s, claimed, table, now, reply, k);
      assert StopsAt(s.outbox, claimed, table, reply, 0) == Stops(s.outbox[first], table, reply(first));
      assert s.outbox[first].messageId != id;
      if !Stops(s.outbox[first], table, reply(first)) { FlushEnters(s1, rest, table, now, reply, k - 1); }
    }
  }

  lemma {:induction false} FlushHandlesNothing(s: Bus, claimed: seq<nat>, table: set<string>, now: int, reply: nat -> Reply)
    requires forall k :: 0 <= k < |claimed| ==> claimed[k] < |s.outbox|
    ensures FlushFrom(s, claimed, table, now, reply).0.handled == s.handled
    ensures forall i :: 0 <= i < |s.outbox| ==> FlushFrom(s, claimed, table, now, reply).0.outbox[i].messageId == s.outbox[i].messageId
    decreases |claimed|
  {
    if |claimed| > 0 && !Stops(s.outbox[claimed[0]], table, reply(claimed[0])) {
      FlushHandlesNothing(FlushOne(s, claimed[0], table, reply(claimed[0]), now), claimed[1..], table, now, reply);
    }
  }

  /** Which claims a flush strands, however it ends: those of unhandled messages Redis had no entry for, whose turn was never
      reached, or whose mark was lost without Redis having taken the message. */
  lemma FlushStrandsExactly(s: Bus, claimed: seq<nat>, table: set<string>, now: int, reply: nat -> Reply, k: nat)
    requires UniqueMessages(s.outbox) && Distinct(claimed) && InBatch(s, claimed) && k < |claimed|
    requires s.outbox[claimed[k]].status == Processing
    ensures var row := s.outbox[claimed[k]];
            Stranded(Ended(FlushFrom(s, claimed, table, now, reply).0), claimed[k]) <==>
            && row.messageId !in s.handled && !HasEntry(s.stream, row.messageId)
            && (!TurnReached(s.outbox, claimed, table, reply, k) ||
                (!reply(claimed[k]).marked && (row.topic !in table || reply(claimed[k]).redis == Refused)))
  {
    FlushLeavesProcessing(s, claimed, table, now, reply, k);
    FlushEnters(s, claimed, table, now, reply, k);
    FlushHandlesNothing(s, claimed, table, now, reply);
  }

  /** The claimed rows that are sent in `rows`. */
  function SentIn(rows: seq<Row>, claimed: seq<nat>): set<nat> {
    set i | i in claimed && i < |rows| && rows[i].status == Sent
  }

  /** However the flush ends, its count is the number of rows of its batch that are sent then. */
  lemma {:induction false} FlushCount(s: Bus, claimed: seq<nat>, table: set<string>, now: int, reply: nat -> Reply)
    requires UniqueMessages(s.outbox) && Distinct(claimed) && InBatch(s, claimed)
    requires forall k :: 0 <= k < |claimed| ==> s.outbox[claimed[k]].status == Processing
    ensures var r := FlushFrom(s, claimed, table, now, reply); r.1 == |SentIn(r.0.outbox, claimed)|
    decreases |claimed|
  {
    if |claimed| > 0 {
      var first, rest := claimed[0], claimed[1..];
      var s1, r := FlushOne(s, first, table, reply(first), now), FlushFrom(s, claimed, table, now, reply);
      FlushOneKeeps(s, claimed, table, reply(first), now);
      FlushOneRow(s, first, table, reply(first), now);
      DistinctTail(claimed);
      if Stops(s.outbox[first], table, reply(first)) {
        NoneSent(r.0.outbox, claimed);
      } else {
        forall k | 0 <= k < |rest|
          ensures s1.outbox[rest[k]].status == Processing
        {
          assert rest[k] == claimed[k + 1] && claimed[k + 1] != first;
        }
        FlushCount(s1, rest, table, now, reply);
        FlushLeavesRest(s1, rest, table, now, reply, first);
        SentOfFirst(r.0.outbox, claimed);
      }
    }
  }

  lemma NoneSent(rows: seq<Row>, claimed: seq<nat>)
    requires forall k :: 0 <= k < |claimed| ==> claimed[k] < |rows| && rows[claimed[k]].status == Processing
    ensures SentIn(rows, claimed) == {}
  {
  }

  lemma SentOfFirst(rows: seq<Row>, claimed: seq<nat>)
    requires |claimed| > 0 && Distinct(claimed) && forall k :: 0 <= k < |claimed| ==> claimed[k] < |rows|
    ensures |SentIn(rows, claimed)| == |SentIn(rows, claimed[1..])| + (if rows[claimed[0]].status == Sent then 1 else 0)
  {
    DistinctTail(claimed);
    var first: set<nat> := if rows[claimed[0]].status == Sent then {claimed[0]} else {};
    assert SentIn(rows, claimed) == SentIn(rows, claimed[1..]) + first;
    assert SentIn(rows, claimed[1..]) !! first;
  }

  lemma DistinctTail(claimed: seq<nat>)
    requires |claimed| > 0 && Distinct(claimed)
    ensures claimed[0] !in claimed[1..]
    ensures forall i :: i in claimed <==> i == claimed[0] || i in claimed[1..]
  {
    assert claimed == [claimed[0]] + claimed[1..];
  }

  // ----- Consuming -----

  /** The entries no handler refused: one accepted them, or there was none. */
  function UnrefusedOf(feed: seq<Arrival>, table: set<string>): multiset<Entry> {
    if |feed| == 0 then multiset{}
    else (if feed[0].entry.topic in table && feed[0].verdict.Fails? then multiset{} else multiset{feed[0].entry}) + UnrefusedOf(feed[1..], table)
  }

  /** The messages a handler accepted. */
  function HandledBy(feed: seq<Arrival>, table: set<string>): set<string> {
    set a | a in feed && a.entry.topic in table && a.verdict.Succeeds? :: a.entry.messageId
  }

  /** What Redis can yield: at its turn each entry is un-acked, so one whose handler failed may come again. */
  predicate Feedable(stream: multiset<Entry>, feed: seq<Arrival>, table: set<string>)
    decreases |feed|
  {
    |feed| == 0 ||
    (feed[0].entry in stream && feed[0].entry.topic in table &&
     Feedable(if feed[0].verdict.Succeeds? then stream - multiset{feed[0].entry} else stream, feed[1..], table))
  }

  /** The pass consumes what its table handles. */
  predicate Consuming(s: Bus, table: set<string>) {
    s.snapshot == Some(table) && s.listed.Some? && table <= s.listed.value
  }

  lemma ConsumeOneReaches(s: Bus, a: Arrival, table: set<string>, now: int)
    requires Consuming(s, table) && a.entry in s.stream && a.entry.topic in table
    ensures Reaches(s, ConsumeOne(s, a, table, now))
  {
    ReachesSelf(s);
    assert HasEntry(s.stream, a.entry.messageId);
    if a.verdict.Succeeds? {
      ReachesStep(s, s, HandlerSucceeds(a.entry));
      ReachesStep(s, Next(s, HandlerSucceeds(a.entry)), Ack(a.entry));
    } else if a.verdict.marked {
      ReachesStep(s, s, MarkFailed(a.entry.messageId, now));
    }
  }

  lemma FeedStep(s: Bus, feed: seq<Arrival>, table: set<string>, now: int)
    requires Feedable(s.stream, feed, table) && |feed| > 0
    ensures feed[0].entry in s.stream && Feedable(ConsumeOne(s, feed[0], table, now).stream, feed[1..], table)
  {
  }

  /** Consuming takes machine steps only. */
  lemma {:induction false} ConsumeReaches(s: Bus, feed: seq<Arrival>, table: set<string>, now: int)
    requires Consuming(s, table) && Feedable(s.stream, feed, table)
    ensures Reaches(s, ConsumeAll(s, feed, table, now))
    decreases |feed|
  {
    if |feed| == 0 {
      ReachesSelf(s);
    } else {
      var s1 := ConsumeOne(s, feed[0], table, now);
      FeedStep(s, feed, table, now);
      ConsumeOneReaches(s, feed[0], table, now);
      ConsumeReaches(s1, feed[1..], table, now);
      ReachesThrough(s, s1, ConsumeAll(s1, feed[1..], table, now));
    }
  }

  lemma ConsumeOneEffect(s: Bus, a: Arrival, table: set<string>, now: int)
    ensures var s' := ConsumeOne(s, a, table, now);
            && s'.stream == s.stream - (if a.entry.topic in table && a.verdict.Fails? then multiset{} else multiset{a.entry})
            && s'.handled == s.handled + (if a.entry.topic in table && a.verdict.Succeeds? then {a.entry.messageId} else {})
  {
  }

  lemma HandledByStep(feed: seq<Arrival>, table: set<string>)
    requires |feed| > 0
    ensures HandledBy(feed, table) ==
            (if feed[0].entry.topic in table && feed[0].verdict.Succeeds? then {feed[0].entry.messageId} else {}) + HandledBy(feed[1..], table)
  {
    assert feed == [feed[0]] + feed[1..];
  }

  /** Consuming acks exactly the deliveries that no handler refuses, those for which there is none included. */
  lemma {:induction false} ConsumeAcks(s: Bus, feed: seq<Arrival>, table: set<string>, now: int)
    ensures ConsumeAll(s, feed, table, now).stream == s.stream - UnrefusedOf(feed, table)
    decreases |feed|
  {
    if |feed| > 0 {
      ConsumeOneEffect(s, feed[0], table, now);
      ConsumeAcks(ConsumeOne(s, feed[0], table, now), feed[1..], table, now);
    }
  }

  /** And exactly the messages a handler accepts become handled. */
  lemma {:induction false} ConsumeHandles(s: Bus, feed: seq<Arrival>, table: set<string>, now: int)
    ensures ConsumeAll(s, feed, table, now).handled == s.handled + HandledBy(feed, table)
    decreases |feed|
  {
    if |feed| > 0 {
      ConsumeOneEffect(s, feed[0], table, now);
      ConsumeHandles(ConsumeOne(s, feed[0], table, now), feed[1..], table, now);
      HandledByStep(feed, table);
    }
  }

  /** Some delivery of the message is refused by its handler, and the refusal gets marked. */
  predicate RefusedIn(feed: seq<Arrival>, id: string, table: set<string>) {
    exists k :: 0 <= k < |feed| && feed[k].entry.messageId == id && feed[k].entry.topic in table && feed[k].verdict == Fails(true)
  }

  lemma RefusedFirstOrLater(feed: seq<Arrival>, id: string, table: set<string>)
    requires |feed| > 0
    ensures var a := feed[0];
            RefusedIn(feed, id, table) <==>
            (a.entry.messageId == id && a.entry.topic in table && a.verdict == Fails(true)) || RefusedIn(feed[1..], id, table)
  {
    if RefusedIn(feed[1..], id, table) {
      var k :| 0 <= k < |feed[1..]| && feed[1..][k].entry.messageId == id && feed[1..][k].entry.topic in table && feed[1..][k].verdict == Fails(true);
      assert feed[k + 1] == feed[1..][k];
    }
  }

  /** What consuming does to the outbox: the rows of the messages that were refused are failed, all others are as they were. */
  lemma {:induction false} ConsumeMarks(s: Bus, feed: seq<Arrival>, table: set<string>, now: int, i: nat)
    requires i < |s.outbox|
    ensures var row, s' := s.outbox[i], ConsumeAll(s, feed, table, now);
            && |s'.outbox| == |s.outbox|
            && s'.outbox[i] == if RefusedIn(feed, row.messageId, table) then row.(status := Failed, updatedAt := Second(now)) else row
    decreases |feed|
  {
    if |feed| > 0 {
      RefusedFirstOrLater(feed, s.outbox[i].messageId, table);
      ConsumeMarks(ConsumeOne(s, feed[0], table, now), feed[1..], table, now, i);
    }
  }

  // ----- What a round takes -----

  /** What the topics have to offer at a round, in order. */
  function Offers(topics: seq<string>, round: nat, polls: Polls): seq<Arrival> {
    if |topics| == 0 then []
    else
      var n := |topics| - 1;
      var look := Look(polls, round, topics[n]);
      Offers(topics[..n], round, polls) + if look.Took? then [Arrival(Entry(look.messageId, topics[n], look.payload), look.verdict)] else []
  }

  /** A round that has looked at the first `n` topics took what they offer, and what ended it there. */
  predicate RoundEndsAt(topics: seq<string>, n: nat, room: nat, round: nat, polls: Polls, taken: Taken)
    requires n <= |topics|
  {
    && taken.feed == Offers(topics[..n], round, polls)
    && (forall j :: 0 <= j < n ==> Look(polls, round, topics[j]) != Cancelled)
    && if taken.cancelled then |taken.feed| < room && n < |topics| && Look(polls, round, topics[n]) == Cancelled
       else n == |topics| || |taken.feed| == room
  }

  /** A round takes what its topics offer, one message each and in order, up to the first look that is cancelled or until there
      is no room. */
  lemma {:induction false} RoundMeaning(topics: seq<string>, room: nat, round: nat, polls: Polls) returns (n: nat)
    ensures n <= |topics| && RoundEndsAt(topics, n, room, round, polls, RoundOf(topics, room, round, polls))
  {
    n := RoundToMeaning(topics, |topics|, room, round, polls);
    assert topics[..|topics|] == topics;
  }

  lemma {:induction false} RoundToMeaning(topics: seq<string>, k: nat, room: nat, round: nat, polls: Polls) returns (n: nat)
    requires k <= |topics|
    ensures n <= k && RoundEndsAt(topics[..k], n, room, round, polls, RoundTo(topics, k, room, round, polls))
  {
    n := 0;
    if k > 0 {
      n := RoundToMeaning(topics, k - 1, room, round, polls);
      var before, all := topics[..k - 1], topics[..k];
      assert all[..k - 1] == before && before[..n] == all[..n];
      var taken := RoundTo(topics, k - 1, room, round, polls);
      if !taken.cancelled && |taken.feed| < room && Look(polls, round, topics[k - 1]) != Cancelled {
        n := k;
        assert all[..k] == all;
      }
    }
  }

  function AllOf(rounds: seq<Taken>): seq<Arrival> {
    if |rounds| == 0 then [] else AllOf(rounds[..|rounds| - 1]) + rounds[|rounds| - 1].feed
  }

  /** The loop goes on after its round `n`: it was not cancelled, and if it took nothing the deadline has not passed. */
  predicate GoesOn(rounds: seq<Taken>, n: nat, polls: Polls)
    requires n < |rounds|
  {
    !rounds[n].cancelled && (|rounds[n].feed| == 0 ==> n < polls.deadline && n !in polls.cancelledIdle)
  }

  /** The loop ends after its round `n`: it is cancelled, looking or waiting, or the limit is reached, or the round took nothing
      and the deadline has passed. */
  predicate EndsAfter(rounds: seq<Taken>, n: nat, limit: nat, polls: Polls, taken: Taken)
    requires n < |rounds|
  {
    && (taken.cancelled <==> rounds[n].cancelled || (|rounds[n].feed| == 0 && n < polls.deadline && n in polls.cancelledIdle))
    && (!taken.cancelled ==> |taken.feed| == limit || (|rounds[n].feed| == 0 && n >= polls.deadline))
  }

  /** Round `n` had room left by the rounds before, and took what it could. */
  predicate TookItsTurn(topics: seq<string>, rounds: seq<Taken>, n: nat, limit: nat, polls: Polls)
    requires n < |rounds|
  {
    var taken := |AllOf(rounds[..n])|;
    taken < limit && rounds[n] == RoundOf(topics, limit - taken, n, polls)
  }

  lemma {:induction false} InAllMeaning(topics: seq<string>, rounds: seq<Taken>, limit: nat, polls: Polls)
    requires AreRounds(topics, rounds, limit, polls)
    ensures var p := InAll(rounds, limit, polls);
            && p.taken.feed == AllOf(rounds) && |p.taken.feed| <= limit
            && (forall n: nat :: n + 1 < |rounds| ==> GoesOn(rounds, n, polls))
            && (|rounds| > 0 && !p.over ==> GoesOn(rounds, |rounds| - 1, polls))
            && (|rounds| > 0 && p.over ==> EndsAfter(rounds, |rounds| - 1, limit, polls, p.taken))
    decreases |rounds|
  {
    if |rounds| > 0 {
      var before := rounds[..|rounds| - 1];
      assert IsRound(topics, rounds, |before|, limit, polls);
      forall n | 0 <= n < |before| ensures IsRound(topics, before, n, limit, polls) {
        assert before[..n] == rounds[..n];
        assert IsRound(topics, rounds, n, limit, polls);
      }
      InAllMeaning(topics, before, limit, polls);
      forall n: nat | n + 1 < |rounds| ensures GoesOn(rounds, n, polls) {
        if n + 1 < |before| { assert GoesOn(before, n, polls); } else { assert GoesOn(before, |before| - 1, polls); }
      }
    }
  }

  /** What the consume loop takes, all in all: rounds that each took what the topics offered while there was room, of which only
      the last one had a reason to be the last. */
  lemma TakenMeaning(topics: seq<string>, limit: nat, polls: Polls, taken: Taken) returns (rounds: seq<Taken>)
    requires IsTaken(topics, limit, polls, taken)
    ensures taken.feed == AllOf(rounds) && |taken.feed| <= limit && (limit == 0 <==> |rounds| == 0)
    ensures forall n: nat :: n + 1 < |rounds| ==> GoesOn(rounds, n, polls)
    ensures |rounds| > 0 ==> EndsAfter(rounds, |rounds| - 1, limit, polls, taken)
    ensures forall n: nat :: n < |rounds| ==> TookItsTurn(topics, rounds, n, limit, polls)
  {
    rounds :| AreRounds(topics, rounds, limit, polls) && InAll(rounds, limit, polls) == Progress(taken, true);
    InAllMeaning(topics, rounds, limit, polls);
    forall n: nat | n < |rounds| ensures TookItsTurn(topics, rounds, n, limit, polls) { RoundTook(topics, rounds, n, limit, polls); }
    if |rounds| > 0 { assert TookItsTurn(topics, rounds, 0, limit, polls); }
  }

  lemma RoundTook(topics: seq<string>, rounds: seq<Taken>, n: nat, limit: nat, polls: Polls)
    requires AreRounds(topics, rounds, limit, polls) && n < |rounds|
    ensures TookItsTurn(topics, rounds, n, limit, polls)
  {
    assert IsRound(topics, rounds, n, limit, polls);
    forall m | 0 <= m < n ensures IsRound(topics, rounds[..n], m, limit, polls) {
      assert rounds[..n][..m] == rounds[..m];
      assert IsRound(topics, rounds, m, limit, polls);
    }
    InAllMeaning(topics, rounds[..n], limit, polls);
  }

  // ----- A whole pass -----

  /** How the claim ends: its rows are claimed and read back; claimed, but not read back; or nothing is claimed, because the bus
      is unhealthy or the store refuses. */
  datatype ClaimAnswer = Claimed | Unread | NotClaimed

  /** What a pass finds on its way: the claim's answer, whether there is a publisher, and the topics that can be subscribed. */
  datatype Access = Access(claim: ClaimAnswer, connected: bool, granted: set<string>)

  /** The first half of ProcessOnce: take the handler table, claim, flush. */
  function PassFlush(s: Bus, limit: nat, marker: int, now: int, reply: nat -> Reply, access: Access): (Bus, nat, bool) {
    var begun := s.(snapshot := Some(s.handlers));
    if access.claim == NotClaimed then (begun, 0, false)
    else
      var claimed := ClaimAll(begun, limit, marker);
      var positions := Stamped(claimed.outbox, marker);
      StampedMeaning(claimed.outbox, marker);
      assert forall k :: 0 <= k < |positions| ==> positions[k] in positions;
      if access.claim == Unread || (|positions| > 0 && !access.connected) then (claimed, 0, false)
      else FlushFrom(claimed, positions, s.handlers, now, reply)
  }

  /** The second half: subscribe, list the topics, and consume with the same table. A cancelled pass reports what it flushed
      only. */
  function PassConsume(s: Bus, table: set<string>, now: int, access: Access, taken: Taken): (Bus, nat, bool) {
    var ready := s.(subs := s.subs + table * access.granted);
    if !(table <= ready.subs) then (Ended(ready), 0, false)
    else (Ended(ConsumeAll(ready.(listed := Some(ready.subs)), taken.feed, table, now)),
          if taken.cancelled then 0 else |taken.feed|, !taken.cancelled)
  }

  function Pass(s: Bus, limit: nat, marker: int, now: int, reply: nat -> Reply, access: Access, taken: Taken): (Bus, nat, bool) {
    var (flushed, sent, ok) := PassFlush(s, limit, marker, now, reply, access);
    if !ok then (Ended(flushed), sent, false)
    else
      var (s', consumed, done) := PassConsume(flushed, s.handlers, now, access, taken);
      (s', sent + consumed, done)
  }

  /** A pass whose flush fails ends there. */
  lemma PassEnds(s: Bus, limit: nat, marker: int, now: int, reply: nat -> Reply, access: Access, taken: Taken, flushed: Bus, sent: nat)
    requires PassFlush(s, limit, marker, now, reply, access) == (flushed, sent, false)
    ensures Pass(s, limit, marker, now, reply, access, taken) == (Ended(flushed), sent, false)
  {
  }

  /** One whose flush succeeds goes on to consume. */
  lemma PassGoesOn(s: Bus, limit: nat, marker: int, now: int, reply: nat -> Reply, access: Access, taken: Taken, flushed: Bus, sent: nat)
    requires PassFlush(s, limit, marker, now, reply, access) == (flushed, sent, true)
    ensures var (s', consumed, ok) := PassConsume(flushed, s.handlers, now, access, taken);
            Pass(s, limit, marker, now, reply, access, taken) == (s', sent + consumed, ok)
  {
  }

  /** A pass, however it ends, is a run of the bus machine from one state that satisfies the invariant to another: it loses no
      message. It may take what it has just flushed, and what a handler has just refused. */
  lemma PassReaches(s: Bus, limit: nat, marker: int, now: int, reply: nat -> Reply, access: Access, taken: Taken)
    requires Inv(s) && s.snapshot.None? && Feedable(PassFlush(s, limit, marker, now, reply, access).0.stream, taken.feed, s.handlers)
    requires forall i :: 0 <= i < |s.outbox| ==> !HasStamp(s.outbox[i], marker)
    ensures var s' := Pass(s, limit, marker, now, reply, access, taken).0; Reaches(s, s') && Inv(s')
  {
    var (flushed, sent, ok) := PassFlush(s, limit, marker, now, reply, access);
    PassFlushReaches(s, limit, marker, now, reply, access);
    if !ok {
      EndReaches(s, flushed);
    } else {
      PassConsumeReaches(s, flushed, now, access, taken);
    }
    ReachesKeepsInv(s, Pass(s, limit, marker, now, reply, access, taken).0);
  }

  lemma PassFlushReaches(s: Bus, limit: nat, marker: int, now: int, reply: nat -> Reply, access: Access)
    requires Inv(s) && s.snapshot.None? && forall i :: 0 <= i < |s.outbox| ==> !HasStamp(s.outbox[i], marker)
    ensures var flushed := PassFlush(s, limit, marker, now, reply, access).0;
            Reaches(s, flushed) && flushed.snapshot == Some(s.handlers) && flushed.listed.None?
  {
    var table := s.handlers;
    var begun := s.(snapshot := Some(table));
    var claimed := ClaimAll(begun, limit, marker);
    BeginReaches(s, limit, marker);
    ClaimedInBatch(begun, limit, marker);
    var positions := Stamped(claimed.outbox, marker);
    FlushReaches(claimed, positions, table, now, reply);
    ReachesThrough(s, claimed, FlushFrom(claimed, positions, table, now, reply).0);
    FlushKeepsRest(claimed, positions, table, now, reply);
  }

  lemma PassConsumeReaches(s: Bus, flushed: Bus, now: int, access: Access, taken: Taken)
    requires Reaches(s, flushed) && flushed.snapshot == Some(s.handlers) && flushed.listed.None?
    requires Feedable(flushed.stream, taken.feed, s.handlers)
    ensures Reaches(s, PassConsume(flushed, s.handlers, now, access, taken).0)
  {
    var table := s.handlers;
    var ready := flushed.(subs := flushed.subs + table * access.granted);
    SubscribeReaches(s, flushed, table, access.granted);
    if table <= ready.subs {
      var listing := ready.(listed := Some(ready.subs));
      ReachesStep(s, ready, ListTopics);
      ConsumeReaches(listing, taken.feed, table, now);
      ReachesThrough(s, listing, ConsumeAll(listing, taken.feed, table, now));
      EndReaches(s, ConsumeAll(listing, taken.feed, table, now));
    } else {
      EndReaches(s, ready);
    }
  }

  /** A pass comes to consume: its claim is read back, and for every row it claimed there is a publisher and the mark of an
      accepted message is not lost. */
  predicate ComesToConsume(s: Bus, limit: nat, marker: int, reply: nat -> Reply, access: Access) {
    var rows := Claim(s.outbox, limit, marker);
    access.claim == Claimed && forall i: nat :: i < |rows| && HasStamp(rows[i], marker) ==>
      access.connected && !(rows[i].topic in s.handlers && reply(i) == Reply(Accepted, false))
  }

  /** The rows a pass claimed and sent. */
  function SentByPass(claimed: seq<Row>, flushed: seq<Row>, marker: int): set<nat> {
    set i: nat | i < |claimed| && HasStamp(claimed[i], marker) && i < |flushed| && flushed[i].status == Sent
  }

  lemma PassFlushEnds(s: Bus, limit: nat, marker: int, now: int, reply: nat -> Reply, access: Access)
    requires UniqueMessages(s.outbox) && forall i :: 0 <= i < |s.outbox| ==> !HasStamp(s.outbox[i], marker)
    ensures var (flushed, sent, done) := PassFlush(s, limit, marker, now, reply, access);
            && (done <==> ComesToConsume(s, limit, marker, reply, access))
            && sent == |SentByPass(Claim(s.outbox, limit, marker), flushed.outbox, marker)|
            && flushed.subs == s.subs && flushed.handlers == s.handlers && |flushed.outbox| == |s.outbox|
  {
    var claimed := ClaimAll(s.(snapshot := Some(s.handlers)), limit, marker);
    var positions := Stamped(claimed.outbox, marker);
    ClaimMeaning(s.outbox, limit, marker);
    StampedMeaning(claimed.outbox, marker);
    if access.claim == Claimed && (|positions| == 0 || access.connected) {
      ClaimedInBatch(s.(snapshot := Some(s.handlers)), limit, marker);
      ClaimedFlushEnds(claimed, positions, s.handlers, marker, now, reply);
    } else {
      NothingFlushed(s, limit, marker, now, reply, access);
    }
  }

  lemma NothingFlushed(s: Bus, limit: nat, marker: int, now: int, reply: nat -> Reply, access: Access)
    requires forall i :: 0 <= i < |s.outbox| ==> !HasStamp(s.outbox[i], marker)
    requires var rows := Claim(s.outbox, limit, marker);
             && |rows| == |s.outbox|
             && (access.claim == Claimed ==> |Stamped(rows, marker)| > 0 && !access.connected)
             && forall i :: i in Stamped(rows, marker) ==> i < |rows| && HasStamp(rows[i], marker)
    ensures !ComesToConsume(s, limit, marker, reply, access)
    ensures var (flushed, sent, done) := PassFlush(s, limit, marker, now, reply, access);
            && !done && sent == 0 && SentByPass(Claim(s.outbox, limit, marker), flushed.outbox, marker) == {}
            && flushed.subs == s.subs && flushed.handlers == s.handlers && |flushed.outbox| == |s.outbox|
  {
    var rows := Claim(s.outbox, limit, marker);
    if access.claim == Claimed { assert Stamped(rows, marker)[0] in Stamped(rows, marker); }
    if access.claim == NotClaimed { UnsentWithoutClaim(s.outbox, limit, marker); }
  }

  lemma UnsentWithoutClaim(rows: seq<Row>, limit: nat, marker: int)
    requires forall i :: 0 <= i < |rows| ==> !HasStamp(rows[i], marker)
    ensures SentByPass(Claim(rows, limit, marker), rows, marker) == {}
  {
    ClaimMeaning(rows, limit, marker);
  }

  lemma ClaimedFlushEnds(claimed: Bus, positions: seq<nat>, table: set<string>, marker: int, now: int, reply: nat -> Reply)
    requires UniqueMessages(claimed.outbox) && Distinct(positions) && InBatch(claimed, positions)
    requires forall i: nat :: i in positions <==> i < |claimed.outbox| && HasStamp(claimed.outbox[i], marker)
    ensures var (flushed, sent, done) := FlushFrom(claimed, positions, table, now, reply);
            && (done <==> forall i: nat :: i < |claimed.outbox| && HasStamp(claimed.outbox[i], marker) ==>
                  !(claimed.outbox[i].topic in table && reply(i) == Reply(Accepted, false)))
            && sent == |SentByPass(claimed.outbox, flushed.outbox, marker)|
            && flushed.subs == claimed.subs && flushed.handlers == claimed.handlers && |flushed.outbox| == |claimed.outbox|
  {
    forall k | 0 <= k < |positions| ensures HasStamp(claimed.outbox[positions[k]], marker) { assert positions[k] in positions; }
    FlushStopsExactly(claimed, positions, table, now, reply);
    StopsOfClaimed(table, positions, claimed.outbox, marker, reply);
    FlushCount(claimed, positions, table, now, reply);
    FlushKeepsTables(claimed, positions, table, now, reply);
    var flushed := FlushFrom(claimed, positions, table, now, reply).0;
    assert SentByPass(claimed.outbox, flushed.outbox, marker) == SentIn(flushed.outbox, positions);
  }

  lemma StopsOfClaimed(table: set<string>, positions: seq<nat>, rows: seq<Row>, marker: int, reply: nat -> Reply)
    requires forall k :: 0 <= k < |positions| ==> positions[k] < |rows|
    requires forall i: nat :: i in positions <==> i < |rows| && HasStamp(rows[i], marker)
    ensures (forall k: nat :: k < |positions| ==> !StopsAt(rows, positions, table, reply, k)) <==>
            (forall i: nat :: i < |rows| && HasStamp(rows[i], marker) ==> !(rows[i].topic in table && reply(i) == Reply(Accepted, false)))
  {
    forall k: nat | k < |positions| ensures positions[k] in positions {}
    if forall k: nat :: k < |positions| ==> !StopsAt(rows, positions, table, reply, k) {
      forall i: nat | i < |rows| && HasStamp(rows[i], marker)
        ensures !(rows[i].topic in table && reply(i) == Reply(Accepted, false))
      {
        var k: nat :| k < |positions| && positions[k] == i;
        assert !StopsAt(rows, positions, table, reply, k);
      }
    }
  }

  /** How a pass ends: without an error exactly if it comes to consume, the topics it handles are or can be subscribed, and it is
      not cancelled. It counts the rows it sent and, unless cancelled, the messages it took; and it subscribes what it can. */
  lemma PassOutcome(s: Bus, limit: nat, marker: int, now: int, reply: nat -> Reply, access: Access, taken: Taken)
    requires Inv(s) && s.snapshot.None? && forall i :: 0 <= i < |s.outbox| ==> !HasStamp(s.outbox[i], marker)
    ensures var (s', count, ok) := Pass(s, limit, marker, now, reply, access, taken);
            var flushed := PassFlush(s, limit, marker, now, reply, access).0;
            && (ok <==> ComesToConsume(s, limit, marker, reply, access) && s.handlers <= s.subs + access.granted && !taken.cancelled)
            && count == |SentByPass(Claim(s.outbox, limit, marker), flushed.outbox, marker)| + (if ok then |taken.feed| else 0)
            && s'.handlers == s.handlers
            && s'.subs == s.subs + (if ComesToConsume(s, limit, marker, reply, access) then s.handlers * access.granted else {})
  {
    PassFlushEnds(s, limit, marker, now, reply, access);
    var (flushed, sent, done) := PassFlush(s, limit, marker, now, reply, access);
    if done {
      var ready := flushed.(subs := flushed.subs + s.handlers * access.granted);
      PassGoesOn(s, limit, marker, now, reply, access, taken, flushed, sent);
      if s.handlers <= ready.subs { ConsumeKeepsTables(ready.(listed := Some(ready.subs)), taken.feed, s.handlers, now); }
    } else {
      PassEnds(s, limit, marker, now, reply, access, taken, flushed, sent);
    }
  }

  lemma {:induction false} FlushKeepsTables(s: Bus, claimed: seq<nat>, table: set<string>, now: int, reply: nat -> Reply)
    requires forall k :: 0 <= k < |claimed| ==> claimed[k] < |s.outbox|
    ensures var s' := FlushFrom(s, claimed, table, now, reply).0; s'.subs == s.subs && s'.handlers == s.handlers
    decreases |claimed|
  {
    if |claimed| > 0 && !Stops(s.outbox[claimed[0]], table, reply(claimed[0])) {
      FlushKeepsTables(FlushOne(s, claimed[0], table, reply(claimed[0]), now), claimed[1..], table, now, reply);
    }
  }

  lemma {:induction false} ConsumeKeepsTables(s: Bus, feed: seq<Arrival>, table: set<string>, now: int)
    ensures var s' := ConsumeAll(s, feed, table, now); s'.subs == s.subs && s'.handlers == s.handlers
    decreases |feed|
  {
    if |feed| > 0 { ConsumeKeepsTables(ConsumeOne(s, feed[0], table, now), feed[1..], table, now); }
  }

  /** What a pass that consumes leaves of each row: the row as its flush left it, or failed, so that the next claim may take it,
      exactly if a delivery of its message was refused and marked. */
  lemma PassLeaves(s: Bus, limit: nat, marker: int, now: int, reply: nat -> Reply, access: Access, taken: Taken, i: nat)
    requires Inv(s) && s.snapshot.None? && forall j :: 0 <= j < |s.outbox| ==> !HasStamp(s.outbox[j], marker)
    requires ComesToConsume(s, limit, marker, reply, access) && s.handlers <= s.subs + access.granted && i < |s.outbox|
    ensures var flushed, s' := PassFlush(s, limit, marker, now, reply, access).0, Pass(s, limit, marker, now, reply, access, taken).0;
            && |flushed.outbox| == |s'.outbox| == |s.outbox| && s'.outbox[i].messageId == s.outbox[i].messageId
            && var refused := RefusedIn(taken.feed, s.outbox[i].messageId, s.handlers);
            && s'.outbox[i] == (if refused then flushed.outbox[i].(status := Failed, updatedAt := Second(now)) else flushed.outbox[i])
            && (refused ==> Eligible(s'.outbox[i]))
  {
    PassFlushEnds(s, limit, marker, now, reply, access);
    var (flushed, sent, done) := PassFlush(s, limit, marker, now, reply, access);
    var ready := flushed.(subs := flushed.subs + s.handlers * access.granted);
    PassGoesOn(s, limit, marker, now, reply, access, taken, flushed, sent);
    var claimed := ClaimAll(s.(snapshot := Some(s.handlers)), limit, marker);
    ClaimMeaning(s.outbox, limit, marker);
    ClaimedInBatch(s.(snapshot := Some(s.handlers)), limit, marker);
    FlushHandlesNothing(claimed, Stamped(claimed.outbox, marker), s.handlers, now, reply);
    ConsumeMarks(ready.(listed := Some(ready.subs)), taken.feed, s.handlers, now, i);
  }

  /** A store that answers everything but the marking of an accepted message. */
  const NoMarks: nat -> Reply := _ => Reply(Accepted, false)

  function Waiting(id: string, topic: string, payload: Message, now: int): Row {
    Row(id, topic, payload, Pending, 0, now, Second(now))
  }

  lemma ClaimTwo(a: Row, b: Row, marker: int)
    requires Eligible(a) && Eligible(b) && a.createdAt < b.createdAt
    ensures Claim([a, b], 2, marker) == [Moved(a, marker), Moved(b, marker)]
    ensures Stamped([Moved(a, marker), Moved(b, marker)], marker) == [0, 1]
  {
    var first, both := [Moved(a, marker), b], [Moved(a, marker), Moved(b, marker)];
    assert [a, b][..1] == [a] && [a][..0] == [] && first[..1] == [Moved(a, marker)] && both[..1] == [Moved(a, marker)];
    assert [Moved(a, marker)][..0] == [];
    assert Oldest([a]) == Some(0) && Oldest([a, b]) == Some(0);
    assert Oldest([Moved(a, marker)]) == None && Oldest(first) == Some(1);
    assert [a, b][0 := Moved(a, marker)] == first && first[1 := Moved(b, marker)] == both;
    assert Claim(first, 1, marker) == Claim(both, 0, marker) == both;
    assert Stamped([Moved(a, marker)], marker) == [0];
  }

  /** Two messages wait for one handled topic. */
  lemma TwoWaiting(topic: string, p: Message, q: Message) returns (s: Bus)
    ensures Reaches(Init, s) && s == Init.(outbox := [Waiting("m", topic, p, 0), Waiting("n", topic, q, 1)], handlers := {topic}, subs := {topic})
  {
    var one := FirstMessage(topic, p);
    var two := Next(one, Publish("n", topic, q, 1));
    ReachesStep(Init, one, Publish("n", topic, q, 1));
    assert !HasMessage(one.outbox, "n");
    s := Next(two, Step.Register(topic, true));
    ReachesStep(Init, two, Step.Register(topic, true));
  }

  /** No crash is needed: a pass that claims two messages and cannot mark the first as sent strands the second. */
  lemma EarlyStopStrands(topic: string, p: Message, q: Message) returns (s: Bus)
    ensures Reaches(Init, s)
    ensures var (s', sent, ok) := Pass(s, 2, 1, 2, NoMarks, Access(Claimed, true, {topic}), Taken([], false));
            !ok && Stranded(s', 1)
  {
    s := TwoWaiting(topic, p, q);
    var a, b := s.outbox[0], s.outbox[1];
    ClaimTwo(a, b, 1);
    var begun := s.(snapshot := Some(s.handlers));
    var claimed := ClaimAll(begun, 2, 1);
    assert claimed.outbox == [Moved(a, 1), Moved(b, 1)];
    ClaimedInBatch(begun, 2, 1);
    FlushStrandsExactly(claimed, [0, 1], {topic}, 2, NoMarks, 1);
    FlushStopsExactly(claimed, [0, 1], {topic}, 2, NoMarks);
    assert StopsAt(claimed.outbox, [0, 1], {topic}, NoMarks, 0);
    assert !TurnReached(claimed.outbox, [0, 1], {topic}, NoMarks, 1);
  }

  lemma BeginReaches(s: Bus, limit: nat, marker: int)
    requires s.snapshot.None? && forall i :: 0 <= i < |s.outbox| ==> !HasStamp(s.outbox[i], marker)
    ensures Reaches(s, s.(snapshot := Some(s.handlers)))
    ensures Reaches(s, ClaimAll(s.(snapshot := Some(s.handlers)), limit, marker))
  {
    ReachesSelf(s);
    ReachesStep(s, s, BeginPass);
    ReachesStep(s, Next(s, BeginPass), ClaimBatch(limit, marker));
  }

  lemma EndReaches(s: Bus, mid: Bus)
    requires Reaches(s, mid)
    ensures Reaches(s, Ended(mid))
  {
    ReachesStep(s, mid, EndPass);
  }

  lemma SubscribeReaches(s: Bus, mid: Bus, table: set<string>, granted: set<string>)
    requires Reaches(s, mid) && mid.snapshot == Some(table)
    ensures Reaches(s, mid.(subs := mid.subs + table * granted))
  {
    ReachesStep(s, mid, EnsureSubscriptions(granted));
  }

  lemma ClaimedInBatch(s: Bus, limit: nat, marker: int)
    requires UniqueMessages(s.outbox)
    ensures var claimed := ClaimAll(s, limit, marker);
            UniqueMessages(claimed.outbox) && Distinct(Stamped(claimed.outbox, marker)) && InBatch(claimed, Stamped(claimed.outbox, marker))
  {
    var rows := Claim(s.outbox, limit, marker);
    ClaimMeaning(s.outbox, limit, marker);
    StampedMeaning(rows, marker);
    var positions := Stamped(rows, marker);
    forall k | 0 <= k < |positions|
      ensures positions[k] < |rows| && rows[positions[k]].messageId in StampedIds(rows, marker)
    {
      assert positions[k] in positions;
    }
  }

  lemma {:induction false} FlushKeepsRest(s: Bus, claimed: seq<nat>, table: set<string>, now: int, reply: nat -> Reply)
    requires forall k :: 0 <= k < |claimed| ==> claimed[k] < |s.outbox|
    ensures var s' := FlushFrom(s, claimed, table, now, reply).0;
            s'.snapshot == s.snapshot && s'.listed == s.listed
    decreases |claimed|
  {
    if |claimed| > 0 && !Stops(s.outbox[claimed[0]], table, reply(claimed[0])) {
      FlushKeepsRest(FlushOne(s, claimed[0], table, reply(claimed[0]), now), claimed[1..], table, now, reply);
    }
  }

  /** A consume loop that gets all its subscriptions takes the rounds over the topics subscribed. */
  ghost predicate Consumes(subs: set<string>, handlers: set<string>, access: Access, limit: nat, polls: Polls, taken: Taken) {
    var subscribed := subs + handlers * access.granted;
    handlers <= subscribed ==> IsTaken(OrderOf(subscribed), limit, polls, taken)
  }

  class Runtime {
    var outbox: seq<Row>
    var stream: multiset<Entry>
    var handlers: set<string>
    var subs: set<string>
    var running: bool
    var snapshot: Option<set<string>>  // the handler table a pass works with
    var listed: Option<set<string>>  // the topics it consumes
    ghost var batch: set<string>
    ghost var published: set<string>
    ghost var handled: set<string>

    ghost function State(): Bus
      reads this
    {
      Bus(outbox, stream, batch, published, handled, handlers, subs, snapshot, listed)
    }

    constructor ()
      ensures State() == Init && !running
    {
      outbox, stream, handlers, subs, running := [], multiset{}, {}, {}, false;
      batch, published, handled, snapshot, listed := {}, {}, {}, None, None;
    }

    /** Subscribes every handled topic and runs, if Redis can be reached and grants them all. */
    method Start(reachable: bool, granted: set<string>) returns (ok: bool)
      modifies this`subs, this`running
      ensures ok <==> old(running) || (reachable && handlers <= granted)
      ensures running == ok
      ensures old(running) || !reachable ==> subs == old(subs)
      ensures !old(running) && reachable ==>
                subs == (if ok then handlers else {}) && State() == Next(old(State()), if ok then Step.Start else Step.Stop)
    {
      if running { return true; }
      if !reachable { return false; }
      subs := {};
      var left := handlers;
      while left != {}
        invariant !running && left <= handlers && subs == handlers - left && subs <= granted
      {
        var topic :| topic in left;
        if topic !in granted {
          assert topic in handlers;
          subs := {};
          return false;
        }
        subs, left := subs + {topic}, left - {topic};
      }
      running, ok := true, true;
    }

    /** Drops the subscriptions; the handlers stay. */
    method Stop()
      modifies this`subs, this`running
      ensures !running
      ensures subs == if old(running) then {} else old(subs)
      ensures State() == if old(running) then Next(old(State()), Step.Stop) else old(State())
    {
      if running { subs, running := {}, false; }
    }

    /** While the runtime runs, a topic that is not subscribed yet is subscribed; if that fails the handler stays. */
    method RegisterHandler(topic: string, granted: bool) returns (ok: bool)
      modifies this
      ensures running == old(running)
      ensures IsBlank(topic) ==> !ok && State() == old(State())
      ensures !IsBlank(topic) ==>
                && ok == (running && topic !in old(subs) ==> granted)
                && handlers == old(handlers) + {topic} && subs == (if running && granted then old(subs) + {topic} else old(subs))
                && State() == Next(old(State()), Step.Register(topic, running && granted))
    {
      if IsBlank(topic) { return false; }
      handlers := handlers + {topic};
      if running && topic !in subs {
        if !granted { return false; }
        subs := subs + {topic};
      }
      return true;
    }

    /** Enqueues under an id taken from the clock. */
    method PublishMessage(id: string, topic: string, payload: Message, now: int) returns (ok: bool)
      modifies this`outbox
      ensures ok <==> !IsBlank(topic)
      ensures State() == if ok then Next(old(State()), Step.Publish(id, topic, payload, now)) else old(State())
    {
      if IsBlank(topic) { return false; }
      outbox := Enqueue(outbox, id, topic, payload, now);
      return true;
    }

    method FlushMessage(i: nat, now: int, reply: Reply) returns (stops: bool, counts: bool)
      requires i < |outbox| && snapshot.Some?
      modifies this`outbox, this`stream, this`batch, this`published
      ensures State() == FlushOne(old(State()), i, snapshot.value, reply, now)
      ensures stops == Stops(old(outbox)[i], snapshot.value, reply)
      ensures counts == (old(outbox)[i].topic in snapshot.value && reply == Reply(Accepted, true))
    {
      var row := outbox[i];
      if row.topic !in snapshot.value {
        MarkRow(row.messageId, Failed, now, reply.marked);
        return false, false;
      }
      if !reply.redis.Refused? { stream := stream + multiset{Entry(row.messageId, row.topic, row.payload)}; }
      if !reply.redis.Accepted? {
        MarkRow(row.messageId, Failed, now, reply.marked);
        return false, false;
      }
      published := published + {row.messageId};
      MarkRow(row.messageId, Sent, now, reply.marked);
      return !reply.marked, reply.marked;
    }

    /** Marks a row of the batch, if the store lets it. */
    method MarkRow(id: string, status: Status, now: int, marked: bool)
      modifies this`outbox, this`batch, this`published
      ensures State() == if !marked then old(State())
                         else old(State()).(outbox := Mark(old(outbox), id, status, now), batch := old(batch) - {id},
                                            published := if status == Sent then old(published) - {id} else old(published))
    {
      if !marked { return; }
      outbox := Mark(outbox, id, status, now);
      batch := batch - {id};
      if status == Sent { published := published - {id}; }
    }

    /** flushOutboxToRedis over one claimed batch, given as row positions. */
    method FlushBatch(claimed: seq<nat>, now: int, reply: nat -> Reply) returns (sent: nat, ok: bool)
      requires snapshot.Some? && forall k :: 0 <= k < |claimed| ==> claimed[k] < |outbox|
      modifies this`outbox, this`stream, this`batch, this`published
      ensures (State(), sent, ok) == FlushFrom(old(State()), claimed, snapshot.value, now, reply)
    {
      sent := 0;
      ghost var table, s, rest := snapshot.value, State(), claimed;
      ghost var whole := FlushFrom(s, rest, table, now, reply);
      var k := 0;
      while k < |claimed|
        invariant k <= |claimed| && rest == claimed[k..] && s == State()
        invariant |s.outbox| == old(|outbox|)
        invariant FlushFrom(s, rest, table, now, reply).0 == whole.0
        invariant sent + FlushFrom(s, rest, table, now, reply).1 == whole.1
        invariant FlushFrom(s, rest, table, now, reply).2 == whole.2
      {
        FlushTurn(s, rest, table, now, reply);
        var stops, counts := FlushMessage(claimed[k], now, reply(claimed[k]));
        s, rest, k := State(), rest[1..], k + 1;
        if stops { return sent, false; }
        if counts { sent := sent + 1; }
      }
      ok := true;
    }

    method ConsumeMessage(a: Arrival, now: int)
      requires snapshot.Some?
      modifies this`outbox, this`stream, this`batch, this`handled
      ensures State() == ConsumeOne(old(State()), a, snapshot.value, now)
    {
      if a.entry.topic !in snapshot.value {
        stream := stream - multiset{a.entry};
        return;
      }
      match a.verdict
      case Succeeds =>
        handled := handled + {a.entry.messageId};
        stream := stream - multiset{a.entry};
      case Fails(marked) =>
        if marked {
          outbox := Mark(outbox, a.entry.messageId, Failed, now);
          batch := batch - {a.entry.messageId};
        }
    }

    /** One round of the consume loop: at most one message of each topic, in the order of the topics. */
    method ConsumeRound(topics: seq<string>, room: nat, round: nat, now: int, polls: Polls)
      returns (processed: nat, cancelled: bool)
      requires snapshot.Some?
      modifies this`outbox, this`stream, this`batch, this`handled
      ensures var taken := RoundOf(topics, room, round, polls);
              && processed == |taken.feed| && cancelled == taken.cancelled
              && State() == ConsumeAll(old(State()), taken.feed, snapshot.value, now)
    {
      processed := 0;
      ghost var start, table, taken := State(), snapshot.value, Taken([], false);
      for k := 0 to |topics|
        invariant taken == RoundTo(topics, k, room, round, polls) && !taken.cancelled && processed == |taken.feed|
        invariant State() == ConsumeAll(start, taken.feed, table, now)
      {
        if processed >= room {
          RoundSettled(topics, k, |topics|, room, round, polls);
          return processed, false;
        }
        var look := Look(polls, round, topics[k]);
        if look.Cancelled? {
          RoundSettled(topics, k + 1, |topics|, room, round, polls);
          return processed, true;
        }
        if look.Took? {
          var a := Arrival(Entry(look.messageId, topics[k], look.payload), look.verdict);
          ConsumeMessage(a, now);
          ConsumeAllSnoc(start, taken.feed, a, table, now);
          processed := processed + 1;
        }
        taken := RoundTo(topics, k + 1, room, round, polls);
      }
      cancelled := false;
    }

    /** The consume loop over the topics listed, in order. */
    method ConsumeMessages(limit: nat, now: int, polls: Polls) returns (processed: nat, cancelled: bool, ghost taken: Taken)
      requires snapshot.Some? && listed.Some?
      modifies this`outbox, this`stream, this`batch, this`handled
      ensures IsTaken(OrderOf(listed.value), limit, polls, taken) && processed == |taken.feed| && cancelled == taken.cancelled
      ensures State() == ConsumeAll(old(State()), taken.feed, snapshot.value, now)
    {
      var topics := SortTopics(listed.value);
      processed, cancelled, taken := ConsumeRounds(topics, limit, now, polls);
    }

    /** One turn of the outer loop: a round, and whether the loop is over. */
    method ConsumeOnce(topics: seq<string>, room: nat, round: nat, now: int, polls: Polls)
      returns (processed: nat, cancelled: bool, over: bool, ghost next: Taken)
      requires snapshot.Some? && room > 0
      modifies this`outbox, this`stream, this`batch, this`handled
      ensures next == RoundOf(topics, room, round, polls) && processed == |next.feed|
      ensures cancelled == (next.cancelled || Stopped(next, round, polls)) && over == Over(next, room, round, polls)
      ensures State() == ConsumeAll(old(State()), next.feed, snapshot.value, now)
    {
      next := RoundOf(topics, room, round, polls);
      processed, cancelled := ConsumeRound(topics, room, round, now, polls);
      over := cancelled || processed >= room;
      if processed == 0 && !over {
        over := round >= polls.deadline;
        if !over && round in polls.cancelledIdle { cancelled, over := true, true; }
      }
    }

    method ConsumeRounds(topics: seq<string>, limit: nat, now: int, polls: Polls) returns (processed: nat, cancelled: bool, ghost taken: Taken)
      requires snapshot.Some?
      modifies this`outbox, this`stream, this`batch, this`handled
      ensures IsTaken(topics, limit, polls, taken) && processed == |taken.feed| && cancelled == taken.cancelled
      ensures State() == ConsumeAll(old(State()), taken.feed, snapshot.value, now)
    {
      processed, cancelled := 0, false;
      var round, over := 0, limit == 0;
      ghost var start, table, rounds: seq<Taken> := State(), snapshot.value, [];
      ghost var p := InAll(rounds, limit, polls);
      while !over
        invariant AreRounds(topics, rounds, limit, polls) && |rounds| == round <= polls.deadline + limit && p == InAll(rounds, limit, polls)
        invariant p.over == over && processed == |p.taken.feed| && cancelled == p.taken.cancelled
        invariant State() == ConsumeAll(start, p.taken.feed, table, now)
        decreases polls.deadline + limit - round, !over
      {
        RoundsEnd(topics, rounds, limit, polls);
        var n;
        ghost var next;
        n, cancelled, over, next := ConsumeOnce(topics, limit - processed, round, now, polls);
        rounds, p := RoundDone(topics, rounds, next, limit, polls, start, table, now);
        processed, round := processed + n, round + 1;
      }
      taken := p.taken;
    }

    method ClaimAndFlush(limit: nat, marker: int, now: int, reply: nat -> Reply, access: Access) returns (sent: nat, ok: bool)
      modifies this
      ensures (State(), sent, ok) == PassFlush(old(State()), limit, marker, now, reply, access)
      ensures snapshot == Some(old(handlers)) && subs == old(subs) && handlers == old(handlers)
    {
      snapshot := Some(handlers);
      if access.claim == NotClaimed { return 0, false; }
      outbox := Claim(outbox, limit, marker);
      batch := batch + StampedIds(outbox, marker);
      if access.claim == Unread { return 0, false; }
      var positions := Stamped(outbox, marker);
      if |positions| == 0 { return 0, true; }
      if !access.connected { return 0, false; }
      StampedMeaning(outbox, marker);
      assert forall k :: 0 <= k < |positions| ==> positions[k] in positions;
      sent, ok := FlushBatch(positions, now, reply);
    }

    method SubscribeAndConsume(limit: nat, now: int, access: Access, polls: Polls) returns (consumed: nat, ok: bool, ghost taken: Taken)
      requires snapshot.Some?
      modifies this
      ensures (State(), consumed, ok) == PassConsume(old(State()), old(snapshot).value, now, access, taken)
      ensures var subscribed := old(subs) + old(snapshot).value * access.granted;
              old(snapshot).value <= subscribed ==> IsTaken(OrderOf(subscribed), limit, polls, taken)
    {
      subs := subs + snapshot.value * access.granted;
      if !(snapshot.value <= subs) {
        EndPass();
        return 0, false, Taken([], false);
      }
      listed := Some(subs);
      var cancelled;
      consumed, cancelled, taken := ConsumeMessages(limit, now, polls);
      EndPass();
      if cancelled { return 0, false, taken; }
      ok := true;
    }

    method EndPass()
      modifies this`snapshot, this`listed, this`batch, this`published
      ensures State() == Ended(old(State()))
    {
      snapshot, listed, batch, published := None, None, {}, {};
    }

    /** One pass, with the handler table taken at its start. What it takes are the rounds of its consume loop over the topics
        subscribed by then, if it gets that far. */
    method ProcessOnce(limit: int, marker: int, now: int, reply: nat -> Reply, access: Access, polls: Polls)
      returns (count: nat, ok: bool, ghost taken: Taken)
      modifies this
      ensures var most := if limit <= 0 then 20 else limit;
              && (State(), count, ok) == Pass(old(State()), most, marker, now, reply, access, taken)
              && (PassFlush(old(State()), most, marker, now, reply, access).2 ==>
                  Consumes(old(subs), old(handlers), access, most, polls, taken))
    {
      var most := if limit <= 0 then 20 else limit;
      count, ok, taken := FlushThenConsume(most, marker, now, reply, access, polls);
    }

    method FlushThenConsume(limit: nat, marker: int, now: int, reply: nat -> Reply, access: Access, polls: Polls)
      returns (count: nat, ok: bool, ghost taken: Taken)
      modifies this
      ensures (State(), count, ok) == Pass(old(State()), limit, marker, now, reply, access, taken)
      ensures PassFlush(old(State()), limit, marker, now, reply, access).2 ==> Consumes(old(subs), old(handlers), access, limit, polls, taken)
    {
      ghost var s := State();
      count, ok := ClaimAndFlush(limit, marker, now, reply, access);
      ghost var flushed, sent := State(), count;
      if ok {
        var consumed;
        consumed, ok, taken := SubscribeAndConsume(limit, now, access, polls);
        PassGoesOn(s, limit, marker, now, reply, access, taken, flushed, sent);
        count := count + consumed;
      } else {
        taken := Taken([], false);
        PassEnds(s, limit, marker, now, reply, access, taken, flushed, sent);
        EndPass();
      }
    }
  }
}
