/** Values the forum works on: envelopes, commands, log events and table rows.
    Times are whole seconds, as the store keeps them; identifiers are strings the caller has trimmed. */
module ForumModel {
  import opened Options
  import Text

  datatype Actor = Agent | Operator | Human | System

  datatype ThreadState = New | Triaged | WaitingOperator | WaitingHuman | Answered | Closed

  datatype Priority = Low | Normal | High | Urgent

  /** `occurredAt` is None for the zero time, which the store replaces by its own clock. */
  datatype Envelope = Envelope(
    eventId: string,
    eventType: string,
    occurredAt: Option<int>,
    threadId: string,
    runId: string,
    ticket: string,
    agentName: string,
    actorType: Actor,
    actorName: string)

  datatype Command =
    | OpenThread(env: Envelope, title: string, body: string, priority: Option<Priority>)
    | AddPost(env: Envelope, body: string)
    | AssignThread(env: Envelope, assigneeType: Actor, assigneeName: string)
    | ChangeState(env: Envelope, toState: ThreadState)
    | CloseThread(env: Envelope)
    | SetPriority(env: Envelope, toPriority: Priority)

  /** What payload_json holds, one constructor per shape the store marshals. */
  datatype Payload =
    | Opened(title: string, body: string, priority: Priority)
    | Posted(body: string)
    | Assigned(fromType: Option<Actor>, fromName: string, toType: Actor, toName: string)
    | StateChanged(fromState: ThreadState, toState: ThreadState)
    | PriorityChanged(fromPriority: Priority, toPriority: Priority)
    | Integration(text: string)

  /** A row of forum_events. Its sequence is its position in the log plus one. */
  datatype Event = Event(
    eventId: string,
    eventType: string,
    occurredAt: int,
    threadId: string,
    runId: string,
    ticket: string,
    agentName: string,
    actorType: Actor,
    actorName: string,
    payload: Payload)

  datatype Thread = Thread(
    ticket: string,
    runId: string,
    agentName: string,
    title: string,
    state: ThreadState,
    priority: Priority,
    assigneeType: Option<Actor>,
    assigneeName: string,
    openedByType: Actor,
    openedByName: string,
    openedAt: int,
    updatedAt: int,
    closedAt: Option<int>)

  /** A row of forum_posts; its post_id is `PostId(eventId)`. */
  datatype Post = Post(
    threadId: string,
    eventId: string,
    authorType: Actor,
    authorName: string,
    body: string,
    createdAt: int)

  datatype LastPost = LastPost(at: int, byType: Actor, byName: string)

  /** A row of forum_thread_views: every forum_threads column, and three columns over the posts. */
  datatype View = View(base: Thread, postsCount: nat, last: Option<LastPost>)

  datatype Transition = Transition(threadId: string, eventId: string, fromState: ThreadState, toState: ThreadState)

  datatype QueueRow = QueueRow(
    ticket: string,
    runId: string,
    state: ThreadState,
    priority: Priority,
    assigneeName: string,
    lastEventSequence: nat,
    lastActorType: Option<Actor>,
    lastNonSystemActorType: Option<Actor>,
    lastHumanOrOperatorSequence: nat,
    lastAgentSequence: nat,
    updatedAt: int)

  datatype StatKey = StatKey(ticket: string, runId: string, state: ThreadState, priority: Priority)

  datatype Projection = ViewsV1 | QueueV1 | StatsV1

  /** What an outbox row carries: a command for a command topic, or a logged event for an event topic. */
  datatype Message = CommandMessage(cmd: Command) | EventMessage(event: Event)

  function PostId(eventId: string): string {
    eventId + ".post"
  }

  /** Nothing is left of the string when it is trimmed. */
  predicate IsBlank(s: string) {
    forall i :: 0 <= i < |s| ==> Text.IsSpace(s[i])
  }

  lemma IsBlankExactly(s: string)
    ensures IsBlank(s) <==> Text.Trim(s) == ""
  {
    Text.TrimIsBlankExactly(s);
    forall i | 0 <= i < |s| ensures Text.IsSpace(s[i]) <==> Text.IsWhite(s[i]) && s[i] in s { Text.IsSpaceExactly(s[i]); }
  }

  function LastPostOf(p: Post): LastPost {
    LastPost(p.createdAt, p.authorType, p.authorName)
  }
}
