/** The forum tables as one value, each SQL statement of the store as a function on it,
    and the two definitions everything else is measured against: replay and recompute. */
module ForumTables {
  import opened Options
  import opened ForumModel
  import Lex

  datatype Db = Db(
    threads: map<string, Thread>,
    posts: seq<Post>,
    events: seq<Event>,
    transitions: seq<Transition>,
    views: map<string, View>,
    queue: map<string, QueueRow>,
    stats: map<StatKey, nat>,
    markers: set<(Projection, string)>)

  const EmptyDb := Db(map[], [], [], [], map[], map[], map[], {})

  predicate HasEvent(events: seq<Event>, eventId: string) {
    exists i :: 0 <= i < |events| && events[i].eventId == eventId
  }

  predicate HasPost(posts: seq<Post>, eventId: string) {
    exists i :: 0 <= i < |posts| && posts[i].eventId == eventId
  }

  function OccurredAt(env: Envelope, clock: int): int {
    match env.occurredAt
    case Some(t) => t
    case None => clock
  }

  // ----- Write transactions -----

  /** The forum_events row a command writes. `seen` is the thread row read before the transaction began. */
  function EventOf(cmd: Command, seen: Thread, clock: int): Event {
    var env := cmd.env;
    var at := OccurredAt(env, clock);
    match cmd
    case OpenThread(_, title, body, priority) =>
      Event(env.eventId, env.eventType, at, env.threadId, env.runId, env.ticket, env.agentName, env.actorType, env.actorName,
            Opened(title, body, if priority.Some? then priority.value else Normal))
    case AddPost(_, body) =>
      Event(env.eventId, env.eventType, at, env.threadId, env.runId, seen.ticket, seen.agentName, env.actorType, env.actorName,
            Posted(body))
    case AssignThread(_, toType, toName) =>
      Event(env.eventId, env.eventType, at, env.threadId, seen.runId, seen.ticket, seen.agentName, env.actorType, env.actorName,
            Assigned(seen.assigneeType, seen.assigneeName, toType, toName))
    case ChangeState(_, toState) =>
      var eventType := if IsBlank(env.eventType) then "forum.state.changed" else env.eventType;
      Event(env.eventId, eventType, at, env.threadId, seen.runId, seen.ticket, seen.agentName, env.actorType, env.actorName,
            StateChanged(seen.state, toState))
    case CloseThread(_) =>
      Event(env.eventId, "forum.thread.closed", at, env.threadId, seen.runId, seen.ticket, seen.agentName, env.actorType, env.actorName,
            StateChanged(seen.state, Closed))
    case SetPriority(_, toPriority) =>
      Event(env.eventId, env.eventType, at, env.threadId, seen.runId, seen.ticket, seen.agentName, env.actorType, env.actorName,
            PriorityChanged(seen.priority, toPriority))
  }

  /** Some unique or primary key of the tables rejects the transaction's inserts. */
  predicate Conflicts(db: Db, cmd: Command) {
    || HasEvent(db.events, cmd.env.eventId)
    || (cmd.OpenThread? && (cmd.env.threadId in db.threads || cmd.env.threadId in db.views))
    || ((cmd.OpenThread? || cmd.AddPost?) && HasPost(db.posts, cmd.env.eventId))
  }

  /** The forum_threads row an open_thread command inserts. */
  function OpenedRow(cmd: Command, at: int): Thread
    requires cmd.OpenThread?
  {
    var env := cmd.env;
    Thread(env.ticket, env.runId, env.agentName, cmd.title, New, if cmd.priority.Some? then cmd.priority.value else Normal,
           None, "", env.actorType, env.actorName, at, at, None)
  }

  /** The SET clause of a command's UPDATE on forum_threads. */
  function ThreadAfter(cmd: Command, row: Thread, at: int): Thread {
    match cmd
    case OpenThread(_, _, _, _) => row
    case AddPost(_, _) => row.(updatedAt := at)
    case AssignThread(_, toType, toName) => row.(assigneeType := Some(toType), assigneeName := toName, updatedAt := at)
    case ChangeState(_, toState) => row.(state := toState, updatedAt := at, closedAt := if toState == Closed then Some(at) else None)
    case CloseThread(_) => row.(state := Closed, updatedAt := at, closedAt := Some(at))
    case SetPriority(_, toPriority) => row.(priority := toPriority, updatedAt := at)
  }

  /** The SET clause of a command's UPDATE on forum_thread_views. */
  function ViewAfter(cmd: Command, row: View, at: int): View {
    match cmd
    case OpenThread(_, _, _, _) => row
    case AddPost(env, _) =>
      View(row.base.(updatedAt := at), row.postsCount + 1, Some(LastPost(at, env.actorType, env.actorName)))
    case AssignThread(_, toType, toName) =>
      row.(base := row.base.(assigneeType := Some(toType), assigneeName := toName, updatedAt := at))
    case ChangeState(_, toState) =>
      row.(base := row.base.(state := toState, updatedAt := at, closedAt := if toState == Closed then Some(at) else None))
    case CloseThread(_) => row.(base := row.base.(state := Closed, updatedAt := at, closedAt := Some(at)))
    case SetPriority(_, toPriority) => row.(base := row.base.(priority := toPriority, updatedAt := at))
  }

  /** The forum_posts rows a command inserts. */
  function NewPosts(cmd: Command, at: int): seq<Post> {
    if cmd.OpenThread? || cmd.AddPost? then
      [Post(cmd.env.threadId, cmd.env.eventId, cmd.env.actorType, cmd.env.actorName, cmd.body, at)]
    else []
  }

  /** The forum_state_transitions rows a command inserts; from_state is the state read before the transaction. */
  function NewTransitions(cmd: Command, seen: Thread): seq<Transition> {
    match cmd
    case ChangeState(env, toState) => [Transition(env.threadId, env.eventId, seen.state, toState)]
    case CloseThread(env) => [Transition(env.threadId, env.eventId, seen.state, Closed)]
    case _ => []
  }

  function ThreadsAfter(threads: map<string, Thread>, cmd: Command, at: int): map<string, Thread> {
    var t := cmd.env.threadId;
    if cmd.OpenThread? then threads[t := OpenedRow(cmd, at)]
    else if t in threads then threads[t := ThreadAfter(cmd, threads[t], at)]
    else threads
  }

  function ViewsAfter(views: map<string, View>, cmd: Command, at: int): map<string, View> {
    var t := cmd.env.threadId;
    if cmd.OpenThread? then
      views[t := View(OpenedRow(cmd, at), 1, Some(LastPost(at, cmd.env.actorType, cmd.env.actorName)))]
    else if t in views then views[t := ViewAfter(cmd, views[t], at)]
    else views
  }

  /** One committed command transaction; the tables are unchanged when a key rejects it. */
  function CommitTx(db: Db, cmd: Command, seen: Thread, clock: int): Db {
    var at := OccurredAt(cmd.env, clock);
    if Conflicts(db, cmd) then db
    else Db(ThreadsAfter(db.threads, cmd, at),
            db.posts + NewPosts(cmd, at),
            db.events + [EventOf(cmd, seen, clock)],
            db.transitions + NewTransitions(cmd, seen),
            ViewsAfter(db.views, cmd, at),
            db.queue, db.stats, db.markers)
  }

  /** ForumAppendIntegrationEvent: the log only. */
  function IntegrationTx(db: Db, env: Envelope, text: string, clock: int): Db {
    if IsBlank(env.eventId) || HasEvent(db.events, env.eventId) then db
    else
      var eventType := if IsBlank(env.eventType) then "forum.integration.unknown" else env.eventType;
      db.(events := db.events + [Event(env.eventId, eventType, OccurredAt(env, clock), env.threadId, env.runId,
                                       env.ticket, env.agentName, env.actorType, env.actorName, Integration(text))])
  }

  // ----- Replay: the base tables as a fold of the log, using envelopes and payloads only -----

  function ReplayStep(threads: map<string, Thread>, e: Event): map<string, Thread> {
    var t := e.threadId;
    match e.payload
    case Opened(title, _, priority) =>
      threads[t := Thread(e.ticket, e.runId, e.agentName, title, New, priority, None, "",
                          e.actorType, e.actorName, e.occurredAt, e.occurredAt, None)]
    case Integration(_) => threads
    case _ =>
      if t !in threads then threads
      else
        var touched := threads[t].(updatedAt := e.occurredAt);
        match e.payload
        case Assigned(_, _, toType, toName) => threads[t := touched.(assigneeType := Some(toType), assigneeName := toName)]
        case StateChanged(_, toState) =>
          threads[t := touched.(state := toState, closedAt := if toState == Closed then Some(e.occurredAt) else None)]
        case PriorityChanged(_, toPriority) => threads[t := touched.(priority := toPriority)]
        case _ => threads[t := touched]
  }

  function Replay(events: seq<Event>): map<string, Thread> {
    if |events| == 0 then map[] else ReplayStep(Replay(events[..|events| - 1]), events[|events| - 1])
  }

  function ReplayPosts(events: seq<Event>): seq<Post> {
    if |events| == 0 then []
    else
      var e := events[|events| - 1];
      var before := ReplayPosts(events[..|events| - 1]);
      if e.payload.Opened? || e.payload.Posted? then
        before + [Post(e.threadId, e.eventId, e.actorType, e.actorName, e.payload.body, e.occurredAt)]
      else before
  }

  function ReplayTransitions(events: seq<Event>): seq<Transition> {
    if |events| == 0 then []
    else
      var e := events[|events| - 1];
      var before := ReplayTransitions(events[..|events| - 1]);
      if e.payload.StateChanged? then before + [Transition(e.threadId, e.eventId, e.payload.fromState, e.payload.toState)]
      else before
  }

  // ----- Recompute: the derived tables from the base tables -----

  /** Greatest sequence of an event of thread `t` by one of `who`, or 0. */
  function LastSeq(events: seq<Event>, t: string, who: set<Actor>): (n: nat)
    ensures n <= |events|
  {
    if |events| == 0 then 0
    else
      var e := events[|events| - 1];
      if e.threadId == t && e.actorType in who then |events| else LastSeq(events[..|events| - 1], t, who)
  }

  function ActorAt(events: seq<Event>, n: nat): Option<Actor>
    requires n <= |events|
  {
    if n == 0 then None else Some(events[n - 1].actorType)
  }

  function QueueRowOf(thread: Thread, t: string, events: seq<Event>): QueueRow {
    var last := LastSeq(events, t, {Agent, Operator, Human, System});
    var lastNonSystem := LastSeq(events, t, {Agent, Operator, Human});
    QueueRow(thread.ticket, thread.runId, thread.state, thread.priority, thread.assigneeName,
             last, ActorAt(events, last), ActorAt(events, lastNonSystem),
             LastSeq(events, t, {Human, Operator}), LastSeq(events, t, {Agent}), thread.updatedAt)
  }

  function CountPosts(posts: seq<Post>, t: string): nat {
    if |posts| == 0 then 0
    else CountPosts(posts[..|posts| - 1], t) + (if posts[|posts| - 1].threadId == t then 1 else 0)
  }

  /** ORDER BY created_at DESC, post_id DESC puts `p` before `q`. */
  predicate SortsAfter(p: Post, q: Post) {
    p.createdAt > q.createdAt || (p.createdAt == q.createdAt && Lex.Less(PostId(q.eventId), PostId(p.eventId)))
  }

  /** The first post of thread `t` in that order. */
  function TopPost(posts: seq<Post>, t: string): Option<Post> {
    if |posts| == 0 then None
    else
      var p := posts[|posts| - 1];
      var top := TopPost(posts[..|posts| - 1], t);
      if p.threadId == t && (top.None? || SortsAfter(p, top.value)) then Some(p) else top
  }

  function ViewOf(thread: Thread, t: string, posts: seq<Post>): View {
    var top := TopPost(posts, t);
    View(thread, CountPosts(posts, t), if top.Some? then Some(LastPostOf(top.value)) else None)
  }

  function RefreshView(db: Db, t: string): Db {
    if t in db.threads then db.(views := db.views[t := ViewOf(db.threads[t], t, db.posts)]) else db
  }

  function RefreshQueue(db: Db, t: string): Db {
    if t in db.threads then db.(queue := db.queue[t := QueueRowOf(db.threads[t], t, db.events)]) else db
  }

  function KeyOf(thread: Thread): StatKey {
    StatKey(thread.ticket, thread.runId, thread.state, thread.priority)
  }

  function Bases(views: map<string, View>): map<string, Thread> {
    map t | t in views :: views[t].base
  }

  function CountOf(rows: map<string, Thread>, k: StatKey): nat {
    |set t | t in rows && KeyOf(rows[t]) == k|
  }

  function KeysOf(rows: map<string, Thread>, ticket: string): set<StatKey> {
    set t | t in rows && rows[t].ticket == ticket :: KeyOf(rows[t])
  }

  /** GROUP BY ticket, run_id, state, priority over the rows of one ticket. */
  function GroupCount(rows: map<string, Thread>, ticket: string): map<StatKey, nat> {
    map k | k in KeysOf(rows, ticket) :: CountOf(rows, k)
  }

  function StatsFor(stats: map<StatKey, nat>, ticket: string): map<StatKey, nat> {
    map k | k in stats && k.ticket == ticket :: stats[k]
  }

  function RefreshStats(db: Db, ticket: string): Db {
    db.(stats := (map k | k in db.stats && k.ticket != ticket :: db.stats[k]) + GroupCount(Bases(db.views), ticket))
  }
}
