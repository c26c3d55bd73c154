/** The outbox table: enqueueing, claiming and marking rows, and the discipline of claims over whole runs. */
module ForumOutbox {
  import opened Options
  import opened ForumModel

  datatype Status = Pending | Processing | Sent | Failed

  /** updated_at is written in nanoseconds by a claim and in whole seconds by everything else. */
  datatype Stamp = Second(t: int) | Marker(t: int)

  /** A row of forum_outbox; its id is its position. */
  datatype Row = Row(
    messageId: string,
    topic: string,
    payload: Message,
    status: Status,
    attempts: nat,
    createdAt: int,
    updatedAt: Stamp)

  predicate HasMessage(rows: seq<Row>, id: string) {
    exists i :: 0 <= i < |rows| && rows[i].messageId == id
  }

  ghost predicate UniqueMessages(rows: seq<Row>) {
    forall i, j :: 0 <= i < j < |rows| ==> rows[i].messageId != rows[j].messageId
  }

  /** INSERT OR IGNORE: a second message with the same id is silently dropped. */
  function Enqueue(rows: seq<Row>, id: string, topic: string, payload: Message, now: int): seq<Row> {
    if HasMessage(rows, id) then rows else rows + [Row(id, topic, payload, Pending, 0, now, Second(now))]
  }

  function MarkedAs(row: Row, status: Status, now: int): Row {
    row.(status := status, updatedAt := Second(now))
  }

  /** UPDATE ... WHERE message_id=id. */
  function Mark(rows: seq<Row>, id: string, status: Status, now: int): (marked: seq<Row>)
    ensures |marked| == |rows|
    ensures forall i :: 0 <= i < |rows| ==> marked[i] == if rows[i].messageId == id then MarkedAs(rows[i], status, now) else rows[i]
  {
    seq(|rows|, i requires 0 <= i < |rows| => if rows[i].messageId == id then MarkedAs(rows[i], status, now) else rows[i])
  }

  predicate Eligible(row: Row) {
    row.status == Pending || row.status == Failed
  }

  /** ORDER BY created_at, id puts row `i` before row `j`. */
  predicate Older(rows: seq<Row>, i: nat, j: nat)
    requires i < |rows| && j < |rows|
  {
    rows[i].createdAt < rows[j].createdAt || (rows[i].createdAt == rows[j].createdAt && i < j)
  }

  function Oldest(rows: seq<Row>): (oldest: Option<nat>)
    ensures oldest.Some? ==> oldest.value < |rows| && Eligible(rows[oldest.value])
  {
    if |rows| == 0 then None
    else
      var last := |rows| - 1;
      var best := Oldest(rows[..last]);
      if Eligible(rows[last]) && (best.None? || rows[last].createdAt < rows[best.value].createdAt) then Some(last) else best
  }

  function Moved(row: Row, marker: int): Row {
    row.(status := Processing, attempts := row.attempts + 1, updatedAt := Marker(marker))
  }

  function EligibleCount(rows: seq<Row>): nat {
    if |rows| == 0 then 0
    else EligibleCount(rows[..|rows| - 1]) + (if Eligible(rows[|rows| - 1]) then 1 else 0)
  }

  /** The UPDATE of a claim: the `limit` oldest eligible rows, taken one at a time. */
  function Claim(rows: seq<Row>, limit: nat, marker: int): seq<Row>
    decreases limit
  {
    var oldest := Oldest(rows);
    if limit == 0 || oldest.None? then rows
    else Claim(rows[oldest.value := Moved(rows[oldest.value], marker)], limit - 1, marker)
  }

  /** The SELECT of a claim: the processing rows stamped with its marker, in id order. */
  function Stamped(rows: seq<Row>, marker: int): seq<nat> {
    if |rows| == 0 then []
    else
      var last := |rows| - 1;
      var before := Stamped(rows[..last], marker);
      if HasStamp(rows[last], marker) then before + [last] else before
  }

  lemma {:induction false} OldestMeaning(rows: seq<Row>)
    ensures Oldest(rows).None? <==> forall i :: 0 <= i < |rows| ==> !Eligible(rows[i])
    ensures Oldest(rows).Some? ==>
              forall j :: 0 <= j < |rows| && Eligible(rows[j]) && j != Oldest(rows).value ==> Older(rows, Oldest(rows).value, j)
  {
    if |rows| > 0 {
      var before := rows[..|rows| - 1];
      OldestMeaning(before);
      assert forall i :: 0 <= i < |before| ==> before[i] == rows[i];
    }
  }

  lemma {:induction false} CountUpdate(rows: seq<Row>, i: nat, row: Row)
    requires i < |rows|
    ensures EligibleCount(rows[i := row]) ==
            EligibleCount(rows) - (if Eligible(rows[i]) then 1 else 0) + (if Eligible(row) then 1 else 0)
  {
    var last := |rows| - 1;
    if i < last {
      CountUpdate(rows[..last], i, row);
      assert rows[i := row][..last] == rows[..last][i := row];
    } else {
      assert rows[i := row][..last] == rows[..last];
    }
  }

  lemma {:induction false} CountZero(rows: seq<Row>)
    requires forall i :: 0 <= i < |rows| ==> !Eligible(rows[i])
    ensures EligibleCount(rows) == 0
  {
    if |rows| > 0 { CountZero(rows[..|rows| - 1]); }
  }

  ghost predicate ClaimedFrom(rows: seq<Row>, rows': seq<Row>, marker: int) {
    && |rows'| == |rows|
    && (forall i :: 0 <= i < |rows| ==> rows'[i] == rows[i] || (Eligible(rows[i]) && rows'[i] == Moved(rows[i], marker)))
    && (forall i, j :: 0 <= i < |rows| && 0 <= j < |rows| && rows'[i] != rows[i] && rows'[j] == rows[j] && Eligible(rows[j]) ==>
          Older(rows, i, j))
  }

  /** A claim moves exactly min(limit, eligible) rows, each once, and every row it moves is older than every
      eligible row it leaves. */
  lemma {:induction false} ClaimMeaning(rows: seq<Row>, limit: nat, marker: int)
    ensures var rows' := Claim(rows, limit, marker);
            && ClaimedFrom(rows, rows', marker)
            && EligibleCount(rows) - EligibleCount(rows') == (if limit < EligibleCount(rows) then limit else EligibleCount(rows))
    decreases limit
  {
    OldestMeaning(rows);
    var oldest := Oldest(rows);
    if oldest.None? {
      CountZero(rows);
    } else if limit > 0 {
      var i := oldest.value;
      var step := rows[i := Moved(rows[i], marker)];
      CountUpdate(rows, i, Moved(rows[i], marker));
      ClaimMeaning(step, limit - 1, marker);
      ClaimedStep(rows, i, Claim(step, limit - 1, marker), marker);
    }
  }

  lemma ClaimedStep(rows: seq<Row>, i: nat, rows': seq<Row>, marker: int)
    requires i < |rows| && Eligible(rows[i])
    requires forall j :: 0 <= j < |rows| && Eligible(rows[j]) && j != i ==> Older(rows, i, j)
    requires ClaimedFrom(rows[i := Moved(rows[i], marker)], rows', marker)
    ensures ClaimedFrom(rows, rows', marker)
  {
    var step := rows[i := Moved(rows[i], marker)];
    forall a, b | 0 <= a < |rows| && 0 <= b < |rows| && rows'[a] != rows[a] && rows'[b] == rows[b] && Eligible(rows[b])
      ensures Older(rows, a, b)
    {
      assert b != i;
      if a != i { assert Older(step, a, b); }
    }
  }

  predicate HasStamp(row: Row, marker: int) {
    row.status == Processing && row.updatedAt == Marker(marker)
  }

  lemma {:induction false} StampedMeaning(rows: seq<Row>, marker: int)
    ensures forall i :: i in Stamped(rows, marker) ==> i < |rows| && HasStamp(rows[i], marker)
    ensures forall i: nat :: i < |rows| && HasStamp(rows[i], marker) ==> i in Stamped(rows, marker)
    ensures forall a, b :: 0 <= a < b < |Stamped(rows, marker)| ==> Stamped(rows, marker)[a] < Stamped(rows, marker)[b]
  {
    if |rows| > 0 {
      var last := |rows| - 1;
      StampedMeaning(rows[..last], marker);
      forall i: nat | i < |rows| && HasStamp(rows[i], marker)
        ensures i in Stamped(rows, marker)
      {
        if i < last { assert rows[..last][i] == rows[i]; }
      }
      var before := Stamped(rows[..last], marker);
      forall a | 0 <= a < |before|
        ensures before[a] < last
      {
        assert before[a] in before;
      }
    }
  }

  /** A claim returns exactly the rows it moved if and only if its marker is not already on a processing row. */
  lemma ClaimReturnsMoved(rows: seq<Row>, limit: nat, marker: int)
    ensures var rows' := Claim(rows, limit, marker);
            |rows'| == |rows| &&
            ((forall i :: 0 <= i < |rows| ==> (i in Stamped(rows', marker) <==> rows'[i] != rows[i]))
             <==> forall i :: 0 <= i < |rows| ==> !HasStamp(rows[i], marker))
  {
    ClaimMeaning(rows, limit, marker);
    StampedMeaning(Claim(rows, limit, marker), marker);
  }

  /** A fresh message waits, never claimed, behind all that are older or of its time, and its contents are the publisher's. */
  lemma EnqueuedWaits(rows: seq<Row>, id: string, topic: string, payload: Message, now: int)
    requires forall i :: 0 <= i < |rows| ==> rows[i].messageId != id
    ensures var rows', n := Enqueue(rows, id, topic, payload, now), |rows|;
            && |rows'| == n + 1 && rows'[..n] == rows && Eligible(rows'[n]) && rows'[n].attempts == 0
            && rows'[n].messageId == id && rows'[n].topic == topic && rows'[n].payload == payload
            && forall j: nat :: j < n ==> (Older(rows', j, n) <==> rows[j].createdAt <= now) && (Older(rows', n, j) <==> rows[j].createdAt > now)
  {
  }

  // ----- Claim discipline over runs -----

  datatype Op =
    | EnqueueOp(id: string, topic: string, payload: Message, now: int)
    | ClaimOp(limit: nat, marker: int)
    | SentOp(id: string, now: int)
    | FailedOp(id: string, now: int)

  function Apply(rows: seq<Row>, op: Op): seq<Row> {
    match op
    case EnqueueOp(id, topic, payload, now) => Enqueue(rows, id, topic, payload, now)
    case ClaimOp(limit, marker) => Claim(rows, limit, marker)
    case SentOp(id, now) => Mark(rows, id, Sent, now)
    case FailedOp(id, now) => Mark(rows, id, Failed, now)
  }

  function After(ops: seq<Op>): seq<Row> {
    if |ops| == 0 then [] else Apply(After(ops[..|ops| - 1]), ops[|ops| - 1])
  }

  /** The last operation of `ops` is a claim that moved row `i`. */
  predicate LastClaims(ops: seq<Op>, i: nat) {
    && |ops| > 0 && ops[|ops| - 1].ClaimOp?
    && var before := After(ops[..|ops| - 1]);
       i < |before| && i < |After(ops)| && After(ops)[i] != before[i]
  }

  function ClaimsOf(ops: seq<Op>, i: nat): nat {
    if |ops| == 0 then 0 else ClaimsOf(ops[..|ops| - 1], i) + (if LastClaims(ops, i) then 1 else 0)
  }

  lemma ApplyShape(rows: seq<Row>, op: Op)
    ensures |rows| <= |Apply(rows, op)|
    ensures forall i :: 0 <= i < |rows| ==> Apply(rows, op)[i].messageId == rows[i].messageId
    ensures forall i :: 0 <= i < |rows| ==> Apply(rows, op)[i].topic == rows[i].topic && Apply(rows, op)[i].payload == rows[i].payload
  {
    if op.ClaimOp? { ClaimMeaning(rows, op.limit, op.marker); }
  }

  /** attempt_count is the number of claims that moved the row. */
  lemma {:induction false} AttemptsAreClaims(ops: seq<Op>, i: nat)
    ensures i < |After(ops)| ==> After(ops)[i].attempts == ClaimsOf(ops, i)
    ensures i >= |After(ops)| ==> ClaimsOf(ops, i) == 0
  {
    if |ops| > 0 {
      var before, op := ops[..|ops| - 1], ops[|ops| - 1];
      AttemptsAreClaims(before, i);
      ApplyShape(After(before), op);
      if op.ClaimOp? { ClaimMeaning(After(before), op.limit, op.marker); }
    }
  }

  /** After a claim moved it, a row stays out of reach of claims until it is marked failed. */
  lemma {:induction false} ClaimedUntilFailed(ops: seq<Op>, a: nat, i: nat)
    requires 0 < a <= |ops| && LastClaims(ops[..a], i)
    requires forall c :: a <= c < |ops| ==> !(ops[c].FailedOp? && ops[c].id == After(ops[..a])[i].messageId)
    ensures i < |After(ops)| && After(ops)[i].messageId == After(ops[..a])[i].messageId && !Eligible(After(ops)[i])
    decreases |ops|
  {
    if |ops| == a {
      assert ops[..a] == ops;
      ClaimMeaning(After(ops[..a - 1]), ops[a - 1].limit, ops[a - 1].marker);
      assert ops[..a][..a - 1] == ops[..a - 1];
    } else {
      var before, op := ops[..|ops| - 1], ops[|ops| - 1];
      assert before[..a] == ops[..a];
      ClaimedUntilFailed(before, a, i);
      ApplyShape(After(before), op);
      if op.ClaimOp? { ClaimMeaning(After(before), op.limit, op.marker); }
    }
  }

  /** No row is in two claims unless it was marked failed in between. */
  lemma NoDoubleClaim(ops: seq<Op>, a: nat, b: nat, i: nat)
    requires 0 < a < b <= |ops| && LastClaims(ops[..a], i) && LastClaims(ops[..b], i)
    ensures exists c :: a <= c < b - 1 && ops[c].FailedOp? && ops[c].id == After(ops[..a])[i].messageId
  {
    if !(exists c :: a <= c < b - 1 && ops[c].FailedOp? && ops[c].id == After(ops[..a])[i].messageId) {
      assert ops[..b - 1][..a] == ops[..a];
      ClaimedUntilFailed(ops[..b - 1], a, i);
      assert ops[..b][..b - 1] == ops[..b - 1];
      ClaimMeaning(After(ops[..b - 1]), ops[b - 1].limit, ops[b - 1].marker);
      assert false;
    }
  }
}
