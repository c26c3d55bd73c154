/** Reading the forum log by cursor: polling it page by page, and following it over a socket. */
module EventStream {
  import opened Options
  import opened ForumModel
  import opened EventBroker
  import Text

  // ----- Polling -----

  predicate TicketMatches(ticket: string, event: Event) {
    IsBlank(ticket) || event.ticket == ticket
  }

  /** The log's rows with a sequence above `lo` and up to `hi` that match the ticket, in order. */
  function Rows(log: seq<Event>, ticket: string, lo: int, hi: nat): seq<Row>
    requires hi <= |log|
  {
    if hi == 0 then []
    else Rows(log, ticket, lo, hi - 1) +
         if lo < hi && TicketMatches(ticket, log[hi - 1]) then [Row(hi, log[hi - 1])] else []
  }

  function PageSize(limit: int): (size: nat)
    ensures size > 0
  {
    if limit <= 0 then 100 else limit
  }

  function Take(rows: seq<Row>, n: nat): seq<Row> {
    if |rows| <= n then rows else rows[..n]
  }

  /** WatchForumEvents. */
  function Watch(log: seq<Event>, ticket: string, cursor: int, limit: int): seq<Row> {
    Take(Rows(log, ticket, cursor, |log|), PageSize(limit))
  }

  /** The next_cursor returned with a page. */
  function NextCursor(page: seq<Row>, cursor: int): int {
    if |page| > 0 then page[|page| - 1].sequence else cursor
  }

  /** Every row is above `lo`, and each is above the one before it. */
  ghost predicate Ascending(lo: int, rows: seq<Row>) {
    && (forall i :: 0 <= i < |rows| ==> lo < rows[i].sequence)
    && (forall i, j :: 0 <= i < j < |rows| ==> rows[i].sequence < rows[j].sequence)
  }

  predicate InWindow(log: seq<Event>, ticket: string, lo: int, hi: nat, row: Row)
    requires hi <= |log|
  {
    lo < row.sequence <= hi && 0 < row.sequence && row.event == log[row.sequence - 1] && (IsBlank(ticket) || row.event.ticket == ticket)
  }

  lemma {:induction false} RowsAreInWindow(log: seq<Event>, ticket: string, lo: int, hi: nat, row: Row)
    requires hi <= |log|
    ensures row in Rows(log, ticket, lo, hi) <==> InWindow(log, ticket, lo, hi, row)
  {
    if hi > 0 { RowsAreInWindow(log, ticket, lo, hi - 1, row); }
  }

  lemma {:induction false} RowsAscend(log: seq<Event>, ticket: string, lo: int, hi: nat)
    requires hi <= |log|
    ensures Ascending(lo, Rows(log, ticket, lo, hi))
    ensures forall i :: 0 <= i < |Rows(log, ticket, lo, hi)| ==> Rows(log, ticket, lo, hi)[i].sequence <= hi
  {
    if hi > 0 { RowsAscend(log, ticket, lo, hi - 1); }
  }

  /** `Rows` lists exactly the matching rows of its window, in ascending order. */
  lemma RowsMeaning(log: seq<Event>, ticket: string, lo: int, hi: nat)
    requires hi <= |log|
    ensures Ascending(lo, Rows(log, ticket, lo, hi))
    ensures forall row :: row in Rows(log, ticket, lo, hi) <==> InWindow(log, ticket, lo, hi, row)
  {
    RowsAscend(log, ticket, lo, hi);
    forall row
      ensures row in Rows(log, ticket, lo, hi) <==> InWindow(log, ticket, lo, hi, row)
    {
      RowsAreInWindow(log, ticket, lo, hi, row);
    }
  }

  lemma {:induction false} RowsAreStable(log: seq<Event>, longer: seq<Event>, ticket: string, lo: int, hi: nat)
    requires hi <= |log| && log <= longer
    ensures Rows(log, ticket, lo, hi) == Rows(longer, ticket, lo, hi)
  {
    if hi > 0 {
      RowsAreStable(log, longer, ticket, lo, hi - 1);
    }
  }

  lemma {:induction false} RowsEmpty(log: seq<Event>, ticket: string, lo: int, hi: nat)
    requires hi <= lo && hi <= |log|
    ensures Rows(log, ticket, lo, hi) == []
  {
    if hi > 0 { RowsEmpty(log, ticket, lo, hi - 1); }
  }

  lemma {:induction false} RowsSplit(log: seq<Event>, ticket: string, lo: int, mid: nat, hi: nat)
    requires lo <= mid <= hi <= |log|
    ensures Rows(log, ticket, lo, hi) == Rows(log, ticket, lo, mid) + Rows(log, ticket, mid, hi)
    decreases hi
  {
    if hi == mid {
      RowsEmpty(log, ticket, mid, hi);
    } else {
      RowsSplit(log, ticket, lo, mid, hi - 1);
    }
  }

  /** A page that reaches row `n` is the whole window up to that row's sequence. */
  lemma {:induction false} PrefixIsWindow(log: seq<Event>, ticket: string, lo: int, hi: nat, n: nat)
    requires hi <= |log| && 0 < n <= |Rows(log, ticket, lo, hi)|
    ensures var row := Rows(log, ticket, lo, hi)[n - 1];
            lo < row.sequence <= hi && Rows(log, ticket, lo, hi)[..n] == Rows(log, ticket, lo, row.sequence)
  {
    var rows := Rows(log, ticket, lo, hi);
    RowsMeaning(log, ticket, lo, hi);
    assert rows[n - 1] in rows;
    if n <= |Rows(log, ticket, lo, hi - 1)| {
      PrefixIsWindow(log, ticket, lo, hi - 1, n);
      assert rows[..n] == Rows(log, ticket, lo, hi - 1)[..n];
    } else {
      assert rows[..n] == rows;
    }
  }

  /** A page misses nothing between its cursor and the next, and holds all there is up to the limit, which is 100 when none is
      given; an empty page means nothing is left. */
  lemma PageIsWindow(log: seq<Event>, ticket: string, cursor: int, limit: int)
    ensures var page, all := Watch(log, ticket, cursor, limit), |Rows(log, ticket, cursor, |log|)|;
            var most := if limit > 0 then limit else 100;
            |page| == (if all < most then all else most) && page == Rows(log, ticket, cursor, |log|)[..|page|]
    ensures var page := Watch(log, ticket, cursor, limit);
            if page == [] then Rows(log, ticket, cursor, |log|) == []
            else cursor < NextCursor(page, cursor) <= |log| && page == Rows(log, ticket, cursor, NextCursor(page, cursor))
  {
    var rows := Rows(log, ticket, cursor, |log|);
    var page := Watch(log, ticket, cursor, limit);
    assert page == rows[..|page|];
    if page != [] {
      PrefixIsWindow(log, ticket, cursor, |log|, |page|);
    }
  }

  /** The log as each poll finds it: appends may happen in between. */
  ghost predicate Growing(logs: seq<seq<Event>>) {
    forall i :: 0 < i < |logs| ==> logs[i - 1] <= logs[i]
  }

  datatype Polled = Polled(rows: seq<Row>, cursor: int)

  /** Everything a client has after polling once per log, each time with the cursor it was last given. */
  function Poll(logs: seq<seq<Event>>, ticket: string, cursor: int, limit: int): Polled {
    if |logs| == 0 then Polled([], cursor)
    else
      var before := Poll(logs[..|logs| - 1], ticket, cursor, limit);
      var page := Watch(logs[|logs| - 1], ticket, before.cursor, limit);
      Polled(before.rows + page, NextCursor(page, before.cursor))
  }

  /** After any number of polls the client has exactly the matching rows between its first and its last cursor. */
  lemma {:induction false} PollingIsExact(logs: seq<seq<Event>>, ticket: string, cursor: int, limit: int)
    requires |logs| > 0 && Growing(logs)
    ensures var polled, log := Poll(logs, ticket, cursor, limit), logs[|logs| - 1];
            if polled.rows == [] then polled.cursor == cursor
            else cursor < polled.cursor && 0 < polled.cursor <= |log| && polled.rows == Rows(log, ticket, cursor, polled.cursor)
  {
    var last := |logs| - 1;
    var log := logs[last];
    var before := Poll(logs[..last], ticket, cursor, limit);
    PageIsWindow(log, ticket, before.cursor, limit);
    if last > 0 {
      assert Growing(logs[..last]);
      PollingIsExact(logs[..last], ticket, cursor, limit);
      if before.rows != [] {
        RowsAreStable(logs[last - 1], log, ticket, cursor, before.cursor);
        var page := Watch(log, ticket, before.cursor, limit);
        if page != [] {
          RowsSplit(log, ticket, cursor, before.cursor, NextCursor(page, before.cursor));
        }
      }
    }
  }

  /** Polling until an empty page yields exactly the matching rows after the first cursor, once each and in order, even
      when the log grows between polls. */
  lemma PollingIsComplete(logs: seq<seq<Event>>, ticket: string, cursor: int, limit: int)
    requires |logs| > 0 && Growing(logs)
    requires var before := Poll(logs[..|logs| - 1], ticket, cursor, limit);
             Watch(logs[|logs| - 1], ticket, before.cursor, limit) == []
    ensures Poll(logs, ticket, cursor, limit).rows == Rows(logs[|logs| - 1], ticket, cursor, |logs[|logs| - 1]|)
  {
    PollingIsExact(logs, ticket, cursor, limit);
    var log, polled := logs[|logs| - 1], Poll(logs, ticket, cursor, limit);
    PageIsWindow(log, ticket, polled.cursor, limit);
    if polled.rows != [] {
      RowsSplit(log, ticket, cursor, polled.cursor, |log|);
    }
  }

  // ----- The live stream -----

  datatype Frame = EventsFrame(rows: seq<Row>, nextCursor: int) | HeartbeatFrame(nextCursor: int)

  /** What the stream's select finds next: an event on its channel, an empty channel, a heartbeat, or a closed channel.
      A run that stops early, because a write failed say, is a run on fewer inputs. */
  datatype Input = Incoming(row: Row) | Empty | Beat | Gone

  datatype Drained = Drained(rest: seq<Input>, batch: seq<Row>, cursor: int, gone: bool)

  /** The inner loop: take what is there, skipping what is not above the cursor, up to the limit. */
  function Drain(inputs: seq<Input>, batch: seq<Row>, cursor: int, limit: nat): Drained {
    if |batch| >= limit || |inputs| == 0 then Drained(inputs, batch, cursor, false)
    else match inputs[0]
      case Gone => Drained(inputs[1..], batch, cursor, true)
      case Incoming(row) =>
        if row.sequence <= cursor then Drain(inputs[1..], batch, cursor, limit)
        else Drain(inputs[1..], batch + [row], row.sequence, limit)
      case Empty => Drained(inputs, batch, cursor, false)
      case Beat => Drained(inputs, batch, cursor, false)
  }

  /** The batch an event begins. */
  function Begin(row: Row, rest: seq<Input>, cursor: int, limit: nat): Drained {
    if row.sequence > cursor then Drain(rest, [row], row.sequence, limit) else Drain(rest, [], cursor, limit)
  }

  lemma {:induction false} DrainConsumes(inputs: seq<Input>, batch: seq<Row>, cursor: int, limit: nat)
    ensures var drained := Drain(inputs, batch, cursor, limit);
            && |drained.rest| <= |inputs|
            && (forall input :: input in drained.rest ==> input in inputs)
            && (drained.gone ==> Gone in inputs)
  {
    if |batch| < limit && |inputs| > 0 && inputs[0].Incoming? {
      var row := inputs[0].row;
      if row.sequence <= cursor { DrainConsumes(inputs[1..], batch, cursor, limit); }
      else { DrainConsumes(inputs[1..], batch + [row], row.sequence, limit); }
    }
  }

  /** The frames written for a run of inputs. */
  function Live(inputs: seq<Input>, cursor: int, limit: nat): seq<Frame>
    decreases |inputs|
  {
    if |inputs| == 0 then []
    else match inputs[0]
      case Gone => []
      case Empty => Live(inputs[1..], cursor, limit)
      case Beat => [HeartbeatFrame(cursor)] + Live(inputs[1..], cursor, limit)
      case Incoming(row) =>
        var drained := Begin(row, inputs[1..], cursor, limit);
        DrainConsumes(inputs[1..], [row], row.sequence, limit);
        DrainConsumes(inputs[1..], [], cursor, limit);
        if drained.gone then []
        else BatchFrame(drained) + Live(drained.rest, drained.cursor, limit)
  }

  function BatchFrame(drained: Drained): seq<Frame> {
    if |drained.batch| == 0 then [] else [EventsFrame(drained.batch, drained.cursor)]
  }

  /** filterForumEventsByRunID. */
  function FilterRun(rows: seq<Row>, runId: string): seq<Row> {
    if Text.Trim(runId) == "" then rows
    else if |rows| == 0 then []
    else FilterRun(rows[..|rows| - 1], runId) +
         if Text.EqualFold(Text.Trim(rows[|rows| - 1].event.runId), Text.Trim(runId)) then [rows[|rows| - 1]] else []
  }

  /** Everything streamForumEvents writes: the catch-up page, then the live frames. */
  function Streamed(log: seq<Event>, ticket: string, runId: string, cursor: int, limit: int, inputs: seq<Input>): seq<Frame> {
    var page := Watch(log, ticket, cursor, PageSize(limit));
    var next := NextCursor(page, cursor);
    var filtered := FilterRun(page, runId);
    (if |filtered| > 0 then [EventsFrame(filtered, next)] else []) + Live(inputs, next, PageSize(limit))
  }

  /** The inner loop of streamForumEvents. */
  method DrainChannel(inputs: seq<Input>, begun: seq<Row>, cursor: int, limit: nat)
    returns (rest: seq<Input>, batch: seq<Row>, nextCursor: int, gone: bool)
    ensures Drained(rest, batch, nextCursor, gone) == Drain(inputs, begun, cursor, limit)
  {
    rest, batch, nextCursor, gone := inputs, begun, cursor, false;
    while |batch| < limit && |rest| > 0 && !rest[0].Empty? && !rest[0].Beat?
      invariant !gone && Drain(rest, batch, nextCursor, limit) == Drain(inputs, begun, cursor, limit)
      decreases |rest|
    {
      var next := rest[0];
      rest := rest[1..];
      if next.Gone? {
        gone := true;
        return;
      }
      if next.row.sequence > nextCursor {
        nextCursor := next.row.sequence;
        batch := batch + [next.row];
      }
    }
  }

  /** An event taken by the outer select, and what the inner loop adds to its batch. */
  method TakeBatch(row: Row, inputs: seq<Input>, cursor: int, limit: nat)
    returns (rest: seq<Input>, batch: seq<Row>, nextCursor: int, gone: bool)
    ensures Drained(rest, batch, nextCursor, gone) == Begin(row, inputs, cursor, limit) && |rest| <= |inputs|
  {
    batch, nextCursor := [], cursor;
    if row.sequence > nextCursor {
      nextCursor := row.sequence;
      batch := [row];
    }
    DrainConsumes(inputs, batch, nextCursor, limit);
    rest, batch, nextCursor, gone := DrainChannel(inputs, batch, nextCursor, limit);
  }

  /** One turn of the outer loop, after `frames` have been written. */
  lemma LiveTurn(frames: seq<Frame>, inputs: seq<Input>, cursor: int, limit: nat)
    requires |inputs| > 0
    ensures var input, rest := inputs[0], inputs[1..];
            && (input.Gone? ==> frames + Live(inputs, cursor, limit) == frames)
            && (input.Empty? ==> frames + Live(inputs, cursor, limit) == frames + Live(rest, cursor, limit))
            && (input.Beat? ==> frames + Live(inputs, cursor, limit) == frames + [HeartbeatFrame(cursor)] + Live(rest, cursor, limit))
    ensures inputs[0].Incoming? ==>
              var drained := Begin(inputs[0].row, inputs[1..], cursor, limit);
              frames + Live(inputs, cursor, limit) ==
              if drained.gone then frames
              else if |drained.batch| == 0 then frames + Live(drained.rest, drained.cursor, limit)
              else frames + [EventsFrame(drained.batch, drained.cursor)] + Live(drained.rest, drained.cursor, limit)
  {
    if inputs[0].Beat? {
      assert frames + ([HeartbeatFrame(cursor)] + Live(inputs[1..], cursor, limit)) ==
             frames + [HeartbeatFrame(cursor)] + Live(inputs[1..], cursor, limit);
    }
    if inputs[0].Incoming? {
      var drained := Begin(inputs[0].row, inputs[1..], cursor, limit);
      if !drained.gone {
        var live := Live(drained.rest, drained.cursor, limit);
        assert frames + (BatchFrame(drained) + live) == frames + BatchFrame(drained) + live;
        assert |drained.batch| == 0 ==> frames + BatchFrame(drained) == frames;
      }
    }
  }

  /** The outer loop, from the subscription on. */
  method Follow(inputs: seq<Input>, cursor: int, limit: nat) returns (frames: seq<Frame>)
    ensures frames == Live(inputs, cursor, limit)
  {
    var rest, nextCursor := inputs, cursor;
    frames := [];
    while |rest| > 0
      invariant frames + Live(rest, nextCursor, limit) == Live(inputs, cursor, limit)
      decreases |rest|
    {
      LiveTurn(frames, rest, nextCursor, limit);
      var input := rest[0];
      rest := rest[1..];
      if input.Gone? {
        return;
      } else if input.Beat? {
        frames := frames + [HeartbeatFrame(nextCursor)];
      } else if input.Incoming? {
        var batch, gone;
        rest, batch, nextCursor, gone := TakeBatch(input.row, rest, nextCursor, limit);
        if gone { return; }
        if |batch| > 0 { frames := frames + [EventsFrame(batch, nextCursor)]; }
      }
    }
  }

  /** streamForumEvents, as the loops it is. */
  method StreamForumEvents(log: seq<Event>, ticket: string, runId: string, cursor: int, requested: int, inputs: seq<Input>)
    returns (frames: seq<Frame>)
    ensures frames == Streamed(log, ticket, runId, cursor, requested, inputs)
  {
    var limit: nat := if requested <= 0 then 100 else requested;
    var nextCursor := cursor;
    frames := [];
    var catchUp := Watch(log, ticket, nextCursor, limit);
    if |catchUp| > 0 {
      nextCursor := catchUp[|catchUp| - 1].sequence;
      var filtered := FilterRun(catchUp, runId);
      if |filtered| > 0 { frames := [EventsFrame(filtered, nextCursor)]; }
    }
    var live := Follow(inputs, nextCursor, limit);
    frames := frames + live;
  }

  // ----- What a client may rely on -----

  /** The events written to the socket, in order. */
  function Sent(frames: seq<Frame>): seq<Row> {
    if |frames| == 0 then []
    else (if frames[0].EventsFrame? then frames[0].rows else []) + Sent(frames[1..])
  }

  /** Each frame's cursor covers the events of its frame and those before, and cursors never go back. */
  predicate CursorsCover(frames: seq<Frame>, cursor: int) {
    if |frames| == 0 then true
    else
      && cursor <= frames[0].nextCursor
      && (frames[0].EventsFrame? ==> forall i :: 0 <= i < |frames[0].rows| ==> frames[0].rows[i].sequence <= frames[0].nextCursor)
      && CursorsCover(frames[1..], frames[0].nextCursor)
  }

  /** The events that arrive before the channel closes. */
  function Arrivals(inputs: seq<Input>): seq<Row>
    decreases |inputs|
  {
    if |inputs| == 0 || inputs[0].Gone? then []
    else (if inputs[0].Incoming? then [inputs[0].row] else []) + Arrivals(inputs[1..])
  }

  /** Those whose sequence is above the cursor and above everything that arrived before. */
  function Records(cursor: int, rows: seq<Row>): seq<Row>
    decreases |rows|
  {
    if |rows| == 0 then []
    else if rows[0].sequence > cursor then [rows[0]] + Records(rows[0].sequence, rows[1..])
    else Records(cursor, rows[1..])
  }

  /** Events that arrive in order, above the cursor, are all records. */
  lemma {:induction false} AscendingArrivalsAreRecords(cursor: int, rows: seq<Row>)
    requires Ascending(cursor, rows)
    ensures Records(cursor, rows) == rows
    decreases |rows|
  {
    if |rows| > 0 {
      AscendingArrivalsAreRecords(rows[0].sequence, rows[1..]);
    }
  }

  lemma {:induction false} RecordsAscend(cursor: int, rows: seq<Row>)
    ensures Ascending(cursor, Records(cursor, rows))
    decreases |rows|
  {
    if |rows| > 0 {
      if rows[0].sequence > cursor {
        RecordsAscend(rows[0].sequence, rows[1..]);
      } else {
        RecordsAscend(cursor, rows[1..]);
      }
    }
  }

  /** A drain ends with the records of what it took, and stops where the arrivals go on. */
  lemma {:induction false} DrainTakesRecords(inputs: seq<Input>, batch: seq<Row>, cursor: int, limit: nat)
    requires |batch| <= limit
    ensures var drained := Drain(inputs, batch, cursor, limit);
            && |drained.batch| <= limit && cursor <= drained.cursor
            && (drained.gone ==> |drained.batch| < limit && drained.batch == batch + Records(cursor, Arrivals(inputs)))
            && (!drained.gone ==> drained.batch + Records(drained.cursor, Arrivals(drained.rest)) == batch + Records(cursor, Arrivals(inputs)))
  {
    if |batch| < limit && |inputs| > 0 && inputs[0].Incoming? {
      var row := inputs[0].row;
      assert Arrivals(inputs) == [row] + Arrivals(inputs[1..]);
      assert ([row] + Arrivals(inputs[1..]))[1..] == Arrivals(inputs[1..]);
      if row.sequence <= cursor {
        DrainTakesRecords(inputs[1..], batch, cursor, limit);
      } else {
        DrainTakesRecords(inputs[1..], batch + [row], row.sequence, limit);
        assert batch + ([row] + Records(row.sequence, Arrivals(inputs[1..]))) == (batch + [row]) + Records(row.sequence, Arrivals(inputs[1..]));
      }
    }
  }

  lemma {:induction false} DrainCovers(inputs: seq<Input>, batch: seq<Row>, cursor: int, limit: nat)
    requires forall i :: 0 <= i < |batch| ==> batch[i].sequence <= cursor
    ensures var drained := Drain(inputs, batch, cursor, limit);
            cursor <= drained.cursor && forall i :: 0 <= i < |drained.batch| ==> drained.batch[i].sequence <= drained.cursor
  {
    if |batch| < limit && |inputs| > 0 && inputs[0].Incoming? {
      var row := inputs[0].row;
      if row.sequence <= cursor { DrainCovers(inputs[1..], batch, cursor, limit); }
      else { DrainCovers(inputs[1..], batch + [row], row.sequence, limit); }
    }
  }

  lemma BeginTakesRecords(inputs: seq<Input>, cursor: int, limit: nat)
    requires limit > 0 && |inputs| > 0 && inputs[0].Incoming?
    ensures var drained := Begin(inputs[0].row, inputs[1..], cursor, limit);
            && |drained.rest| < |inputs|
            && (Gone in drained.rest || drained.gone ==> Gone in inputs)
            && (drained.gone ==> |drained.batch| < limit && drained.batch == Records(cursor, Arrivals(inputs)))
            && (!drained.gone ==> drained.batch + Records(drained.cursor, Arrivals(drained.rest)) == Records(cursor, Arrivals(inputs)))
  {
    var row, rest := inputs[0].row, inputs[1..];
    assert Arrivals(inputs) == [row] + Arrivals(rest) && ([row] + Arrivals(rest))[1..] == Arrivals(rest);
    if row.sequence > cursor {
      DrainTakesRecords(rest, [row], row.sequence, limit);
      DrainConsumes(rest, [row], row.sequence, limit);
    } else {
      DrainTakesRecords(rest, [], cursor, limit);
      DrainConsumes(rest, [], cursor, limit);
      assert [] + Records(cursor, Arrivals(rest)) == Records(cursor, Arrivals(rest));
    }
  }

  lemma SentStep(frame: Frame, frames: seq<Frame>)
    ensures Sent([frame] + frames) == (if frame.EventsFrame? then frame.rows else []) + Sent(frames)
  {
    assert ([frame] + frames)[1..] == frames;
  }

  lemma SentBatch(drained: Drained, frames: seq<Frame>)
    ensures Sent(BatchFrame(drained) + frames) == drained.batch + Sent(frames)
  {
    if |drained.batch| == 0 {
      assert BatchFrame(drained) + frames == frames;
    } else {
      SentStep(EventsFrame(drained.batch, drained.cursor), frames);
    }
  }

  /** Whatever the channel delivers, duplicated or out of order, the live frames carry the records of it, each once and in
      order; only the batch in progress, less than a page, is lost, and only when the channel closes. */
  lemma {:induction false} LiveSendsRecords(inputs: seq<Input>, cursor: int, limit: nat)
    requires limit > 0
    ensures var sent, records := Sent(Live(inputs, cursor, limit)), Records(cursor, Arrivals(inputs));
            && sent <= records
            && |records| - |sent| < limit
            && (Gone !in inputs ==> sent == records)
    decreases |inputs|
  {
    if |inputs| > 0 {
      match inputs[0] {
        case Gone =>
        case Empty =>
          LiveSendsRecords(inputs[1..], cursor, limit);
          assert Arrivals(inputs) == Arrivals(inputs[1..]);
        case Beat =>
          LiveSendsRecords(inputs[1..], cursor, limit);
          SentStep(HeartbeatFrame(cursor), Live(inputs[1..], cursor, limit));
          assert Arrivals(inputs) == Arrivals(inputs[1..]);
        case Incoming(row) =>
          var drained := Begin(row, inputs[1..], cursor, limit);
          BeginTakesRecords(inputs, cursor, limit);
          if !drained.gone {
            LiveSendsRecords(drained.rest, drained.cursor, limit);
            SentBatch(drained, Live(drained.rest, drained.cursor, limit));
          }
      }
    }
  }

  /** These events arriving one right after the other. */
  function Arriving(rows: seq<Row>): seq<Input> {
    if |rows| == 0 then [] else [Incoming(rows[0])] + Arriving(rows[1..])
  }

  lemma {:induction false} ClosingEndsDrain(rows: seq<Row>, rest: seq<Input>, batch: seq<Row>, cursor: int, limit: nat)
    requires Ascending(cursor, rows) && |batch| + |rows| < limit
    ensures Drain(Arriving(rows) + [Gone] + rest, batch, cursor, limit).gone
    decreases |rows|
  {
    var inputs := Arriving(rows) + [Gone] + rest;
    if |rows| > 0 {
      assert inputs[1..] == Arriving(rows[1..]) + [Gone] + rest;
      ClosingEndsDrain(rows[1..], rest, batch + [rows[0]], rows[0].sequence, limit);
    }
  }

  /** A batch that is not full when the channel closes is lost: none of its events is sent. */
  lemma ClosingLosesBatch(rows: seq<Row>, rest: seq<Input>, cursor: int, limit: nat)
    requires Ascending(cursor, rows) && 0 < |rows| < limit
    ensures Live(Arriving(rows) + [Gone] + rest, cursor, limit) == []
  {
    var inputs := Arriving(rows) + [Gone] + rest;
    assert inputs[0] == Incoming(rows[0]) && inputs[1..] == Arriving(rows[1..]) + [Gone] + rest;
    ClosingEndsDrain(rows[1..], rest, [rows[0]], rows[0].sequence, limit);
  }

  function BeatsIn(inputs: seq<Input>): nat
    decreases |inputs|
  {
    if |inputs| == 0 then 0 else (if inputs[0].Beat? then 1 else 0) + BeatsIn(inputs[1..])
  }

  function BeatFrames(frames: seq<Frame>): nat {
    if |frames| == 0 then 0 else (if frames[0].HeartbeatFrame? then 1 else 0) + BeatFrames(frames[1..])
  }

  lemma {:induction false} DrainKeepsBeats(inputs: seq<Input>, batch: seq<Row>, cursor: int, limit: nat)
    ensures var drained := Drain(inputs, batch, cursor, limit);
            (drained.gone ==> Gone in inputs) && (!drained.gone ==> BeatsIn(drained.rest) == BeatsIn(inputs))
  {
    if |batch| < limit && |inputs| > 0 && inputs[0].Incoming? {
      var row := inputs[0].row;
      if row.sequence <= cursor { DrainKeepsBeats(inputs[1..], batch, cursor, limit); }
      else { DrainKeepsBeats(inputs[1..], batch + [row], row.sequence, limit); }
    }
  }

  /** While the channel stays open every heartbeat is answered with a frame, and no other frame is a heartbeat. */
  lemma {:induction false} BeatsAreSent(inputs: seq<Input>, cursor: int, limit: nat)
    requires limit > 0 && Gone !in inputs
    ensures BeatFrames(Live(inputs, cursor, limit)) == BeatsIn(inputs)
    decreases |inputs|
  {
    if |inputs| > 0 {
      match inputs[0] {
        case Empty => BeatsAreSent(inputs[1..], cursor, limit);
        case Beat =>
          BeatsAreSent(inputs[1..], cursor, limit);
          var rest := Live(inputs[1..], cursor, limit);
          assert ([HeartbeatFrame(cursor)] + rest)[1..] == rest;
        case Incoming(row) =>
          var drained := Begin(row, inputs[1..], cursor, limit);
          BeginTakesRecords(inputs, cursor, limit);
          DrainKeepsBeats(inputs[1..], [row], row.sequence, limit);
          DrainKeepsBeats(inputs[1..], [], cursor, limit);
          BeatsAreSent(drained.rest, drained.cursor, limit);
          var rest := Live(drained.rest, drained.cursor, limit);
          if |drained.batch| > 0 { assert (BatchFrame(drained) + rest)[1..] == rest; } else { assert BatchFrame(drained) + rest == rest; }
        case Gone =>
      }
    }
  }

  lemma CoverBatch(drained: Drained, frames: seq<Frame>, cursor: int)
    requires cursor <= drained.cursor && CursorsCover(frames, drained.cursor)
    requires forall i :: 0 <= i < |drained.batch| ==> drained.batch[i].sequence <= drained.cursor
    ensures CursorsCover(BatchFrame(drained) + frames, cursor)
  {
    if |drained.batch| == 0 {
      assert BatchFrame(drained) + frames == frames;
      CoverWeakens(frames, cursor, drained.cursor);
    } else {
      assert (BatchFrame(drained) + frames)[1..] == frames;
    }
  }

  lemma {:induction false} LiveCursors(inputs: seq<Input>, cursor: int, limit: nat)
    requires limit > 0
    ensures CursorsCover(Live(inputs, cursor, limit), cursor)
    decreases |inputs|
  {
    if |inputs| > 0 {
      match inputs[0] {
        case Gone =>
        case Empty => LiveCursors(inputs[1..], cursor, limit);
        case Beat =>
          LiveCursors(inputs[1..], cursor, limit);
          var rest := Live(inputs[1..], cursor, limit);
          assert ([HeartbeatFrame(cursor)] + rest)[1..] == rest;
        case Incoming(row) =>
          var drained := Begin(row, inputs[1..], cursor, limit);
          BeginTakesRecords(inputs, cursor, limit);
          DrainCovers(inputs[1..], [row], row.sequence, limit);
          DrainCovers(inputs[1..], [], cursor, limit);
          if !drained.gone {
            LiveCursors(drained.rest, drained.cursor, limit);
            CoverBatch(drained, Live(drained.rest, drained.cursor, limit), cursor);
          }
      }
    }
  }

  lemma CoverWeakens(frames: seq<Frame>, lower: int, cursor: int)
    requires lower <= cursor && CursorsCover(frames, cursor)
    ensures CursorsCover(frames, lower)
  {
  }

  predicate OfRun(row: Row, runId: string) {
    Text.Trim(runId) == "" || Text.EqualFold(Text.Trim(row.event.runId), Text.Trim(runId))
  }

  lemma {:induction false} FilterRunSelects(rows: seq<Row>, runId: string)
    ensures forall row :: row in FilterRun(rows, runId) <==> row in rows && OfRun(row, runId)
  {
    if Text.Trim(runId) != "" && |rows| > 0 {
      var before, last := rows[..|rows| - 1], rows[|rows| - 1];
      assert rows == before + [last];
      FilterRunSelects(before, runId);
    }
  }

  lemma AscendingJoin(lo: int, left: seq<Row>, mid: int, right: seq<Row>)
    requires lo <= mid && Ascending(lo, left) && Ascending(mid, right)
    requires forall row :: row in left ==> row.sequence <= mid
    ensures Ascending(lo, left + right)
  {
    forall i | 0 <= i < |left|
      ensures left[i].sequence <= mid
    {
      assert left[i] in left;
    }
  }

  lemma {:induction false} FilterRunKeepsOrder(lo: int, rows: seq<Row>, runId: string)
    requires Ascending(lo, rows)
    ensures Ascending(lo, FilterRun(rows, runId))
  {
    if Text.Trim(runId) != "" && |rows| > 0 {
      var before, last := rows[..|rows| - 1], rows[|rows| - 1];
      FilterRunKeepsOrder(lo, before, runId);
      FilterRunSelects(before, runId);
      if FilterRun(rows, runId) != FilterRun(before, runId) {
        AscendingJoin(lo, FilterRun(before, runId), last.sequence - 1, [last]);
      }
    }
  }

  /** The catch-up page, filtered by run, is in order, above the client's cursor and covered by the next one. */
  lemma CatchUpIsOrdered(log: seq<Event>, ticket: string, runId: string, cursor: int, limit: int)
    ensures var page := Watch(log, ticket, cursor, limit);
            && cursor <= NextCursor(page, cursor)
            && Ascending(cursor, FilterRun(page, runId))
            && forall row :: row in FilterRun(page, runId) ==> row.sequence <= NextCursor(page, cursor)
  {
    var page := Watch(log, ticket, cursor, limit);
    RowsMeaning(log, ticket, cursor, |log|);
    FilterRunKeepsOrder(cursor, page, runId);
    FilterRunSelects(page, runId);
  }

  /** For any log and anything the channel delivers: the sequences written to the socket strictly increase from above the
      client's cursor, and next_cursor never goes back and is never below a sequence already sent. */
  lemma StreamIsOrdered(log: seq<Event>, ticket: string, runId: string, cursor: int, limit: int, inputs: seq<Input>)
    ensures Ascending(cursor, Sent(Streamed(log, ticket, runId, cursor, limit, inputs)))
    ensures CursorsCover(Streamed(log, ticket, runId, cursor, limit, inputs), cursor)
  {
    var size := PageSize(limit);
    var page := Watch(log, ticket, cursor, size);
    var next := NextCursor(page, cursor);
    var catchUp := Drained(inputs, FilterRun(page, runId), next, false);
    var live := Live(inputs, next, size);
    assert Streamed(log, ticket, runId, cursor, limit, inputs) == BatchFrame(catchUp) + live;
    CatchUpIsOrdered(log, ticket, runId, cursor, size);
    LiveSendsRecords(inputs, next, size);
    RecordsAscend(next, Arrivals(inputs));
    assert Ascending(next, Sent(live));
    SentBatch(catchUp, live);
    AscendingJoin(cursor, catchUp.batch, next, Sent(live));
    LiveCursors(inputs, next, size);
    forall i | 0 <= i < |catchUp.batch|
      ensures catchUp.batch[i].sequence <= next
    {
      assert catchUp.batch[i] in catchUp.batch;
    }
    CoverBatch(catchUp, live, cursor);
  }

  /** While the channel stays open nothing else is sent and nothing of this is left out: the page's rows of the run, then the
      records of the arrivals. */
  lemma StreamSendsExactly(log: seq<Event>, ticket: string, runId: string, cursor: int, limit: int, inputs: seq<Input>)
    requires Gone !in inputs
    ensures var page := Watch(log, ticket, cursor, PageSize(limit));
            Sent(Streamed(log, ticket, runId, cursor, limit, inputs)) ==
            FilterRun(page, runId) + Records(NextCursor(page, cursor), Arrivals(inputs))
  {
    var size := PageSize(limit);
    var page := Watch(log, ticket, cursor, size);
    var next := NextCursor(page, cursor);
    var catchUp, live := Drained(inputs, FilterRun(page, runId), next, false), Live(inputs, next, size);
    assert Streamed(log, ticket, runId, cursor, limit, inputs) == BatchFrame(catchUp) + live;
    LiveSendsRecords(inputs, next, size);
    SentBatch(catchUp, live);
  }

  lemma FirstRecordIsLeast(cursor: int, inputs: seq<Input>)
    requires |inputs| > 0 && inputs[0].Incoming? && inputs[0].row.sequence > cursor
    ensures forall sent <- Records(cursor, Arrivals(inputs)) :: sent.sequence >= inputs[0].row.sequence
  {
    var row, arrivals := inputs[0].row, Arrivals(inputs[1..]);
    assert Arrivals(inputs) == [row] + arrivals && ([row] + arrivals)[1..] == arrivals;
    RecordsAscend(row.sequence, arrivals);
  }

  /** The row arrives, and nothing as new or newer before it. */
  ghost predicate Arrives(arrivals: seq<Row>, row: Row) {
    exists i :: 0 <= i < |arrivals| && ArrivesAt(arrivals, row, i)
  }

  predicate ArrivesAt(arrivals: seq<Row>, row: Row, i: int)
    requires 0 <= i < |arrivals|
  {
    arrivals[i] == row && forall j :: 0 <= j < i ==> arrivals[j].sequence < row.sequence
  }

  lemma ArrivesFirstOrLater(first: Row, rest: seq<Row>, row: Row)
    ensures Arrives([first] + rest, row) <==> row == first || (first.sequence < row.sequence && Arrives(rest, row))
  {
    var all := [first] + rest;
    if Arrives(all, row) && row != first {
      var i :| 0 <= i < |all| && ArrivesAt(all, row, i);
      assert all[0].sequence < row.sequence;
      assert forall j :: 0 <= j < |rest| ==> rest[j] == all[j + 1];
      assert ArrivesAt(rest, row, i - 1);
    }
    if first.sequence < row.sequence && Arrives(rest, row) {
      var i :| 0 <= i < |rest| && ArrivesAt(rest, row, i);
      assert ArrivesAt(all, row, i + 1);
    }
    if row == first { assert ArrivesAt(all, row, 0); }
  }

  /** The records are the rows above the cursor that arrive before anything as new. */
  lemma {:induction false} RecordsExactly(cursor: int, arrivals: seq<Row>, row: Row)
    ensures row in Records(cursor, arrivals) <==> row.sequence > cursor && Arrives(arrivals, row)
    decreases |arrivals|
  {
    if |arrivals| > 0 {
      var first, rest := arrivals[0], arrivals[1..];
      assert arrivals == [first] + rest;
      ArrivesFirstOrLater(first, rest, row);
      RecordsExactly(if first.sequence > cursor then first.sequence else cursor, rest, row);
    }
  }

  /** What a page holds of the rows waiting. */
  lemma PageHoldsFirst(log: seq<Event>, ticket: string, cursor: int, size: nat, k: nat)
    requires size > 0 && k < |Rows(log, ticket, cursor, |log|)|
    ensures var rows := Rows(log, ticket, cursor, |log|);
            var page := Watch(log, ticket, cursor, size);
            && (k < size ==> rows[k] in page)
            && (k >= size ==> rows[k] !in page && rows[k].sequence > NextCursor(page, cursor))
  {
    var rows := Rows(log, ticket, cursor, |log|);
    var page := Watch(log, ticket, cursor, size);
    RowsAscend(log, ticket, cursor, |log|);
    assert |page| == if |rows| <= size then |rows| else size;
    assert page == rows[..|page|];
    if k < size { assert page[k] == rows[k]; }
  }

  /** The price of subscribing after one page: when more than a page is waiting, the first row beyond it is never sent
      once an event newer than the log arrives, whatever arrives after that. */
  lemma BacklogIsSkipped(log: seq<Event>, ticket: string, cursor: int, limit: int, inputs: seq<Input>)
    requires |Rows(log, ticket, cursor, |log|)| > PageSize(limit)
    requires |inputs| > 0 && inputs[0].Incoming? && inputs[0].row.sequence > |log|
    ensures Rows(log, ticket, cursor, |log|)[PageSize(limit)] !in Sent(Streamed(log, ticket, "", cursor, limit, inputs))
  {
    var size := PageSize(limit);
    var page := Watch(log, ticket, cursor, size);
    var next, live := NextCursor(page, cursor), Live(inputs, NextCursor(page, cursor), size);
    var skipped := Rows(log, ticket, cursor, |log|)[size];
    PageHoldsFirst(log, ticket, cursor, size, size);
    RowsMeaning(log, ticket, cursor, |log|);
    assert skipped in Rows(log, ticket, cursor, |log|);
    FirstRecordIsLeast(next, inputs);
    LiveSendsRecords(inputs, next, size);
    var catchUp := Drained(inputs, page, next, false);
    assert Streamed(log, ticket, "", cursor, limit, inputs) == BatchFrame(catchUp) + live;
    SentBatch(catchUp, live);
  }

  /** A client of a run, or of every run, is sent all rows of it that were waiting if and only if each one beyond the first page
      arrives on the channel before anything as new. */
  lemma StreamCompleteExactly(log: seq<Event>, ticket: string, runId: string, cursor: int, limit: int, inputs: seq<Input>)
    requires Gone !in inputs
    ensures var rows, sent := Rows(log, ticket, cursor, |log|), Sent(Streamed(log, ticket, runId, cursor, limit, inputs));
            (forall k :: 0 <= k < |rows| && OfRun(rows[k], runId) ==> rows[k] in sent) <==>
            (forall k :: PageSize(limit) <= k < |rows| && OfRun(rows[k], runId) ==> Arrives(Arrivals(inputs), rows[k]))
  {
    var size := PageSize(limit);
    var rows, page := Rows(log, ticket, cursor, |log|), Watch(log, ticket, cursor, size);
    var next := NextCursor(page, cursor);
    StreamSendsExactly(log, ticket, runId, cursor, limit, inputs);
    var sent := Sent(Streamed(log, ticket, runId, cursor, limit, inputs));
    assert sent == FilterRun(page, runId) + Records(next, Arrivals(inputs));
    FilterRunSelects(page, runId);
    forall k: nat | k < |rows| && OfRun(rows[k], runId)
      ensures rows[k] in sent <==> k < size || Arrives(Arrivals(inputs), rows[k])
    {
      PageHoldsFirst(log, ticket, cursor, size, k);
      RecordsExactly(next, Arrivals(inputs), rows[k]);
    }
  }

  /** It happens: two events wait, the page holds one, and a third arrives. */
  lemma BacklogHappens(e: Event) returns (log: seq<Event>, inputs: seq<Input>)
    ensures Gone !in inputs
    ensures exists k :: 0 <= k < |Rows(log, "", 0, |log|)| &&
                        Rows(log, "", 0, |log|)[k] !in Sent(Streamed(log, "", "", 0, 1, inputs))
  {
    log, inputs := [e, e], [Incoming(Row(3, e))];
    assert Rows(log, "", 0, 0) == [] && Rows(log, "", 0, 1) == [Row(1, e)];
    var rows := Rows(log, "", 0, 2);
    assert rows == [Row(1, e), Row(2, e)];
    assert Arrivals(inputs[1..]) == [] && Arrivals(inputs) == [Row(3, e)];
    StreamCompleteExactly(log, "", "", 0, 1, inputs);
    assert OfRun(rows[0], "") && OfRun(rows[1], "");
    assert !Arrives([Row(3, e)], rows[1]);
  }
}
