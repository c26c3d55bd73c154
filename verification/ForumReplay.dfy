/** Event-log replay: in every reachable state the base tables are the fold of the log, and the
    incrementally updated views are what a recomputation from the base tables gives. */
module ForumReplay {
  import opened Options
  import opened ForumModel
  import opened ForumTables
  import Lex

  lemma ReplayAppend(events: seq<Event>, e: Event)
    ensures Replay(events + [e]) == ReplayStep(Replay(events), e)
    ensures ReplayPosts(events + [e]) ==
            if e.payload.Opened? || e.payload.Posted?
            then ReplayPosts(events) + [Post(e.threadId, e.eventId, e.actorType, e.actorName, e.payload.body, e.occurredAt)]
            else ReplayPosts(events)
    ensures ReplayTransitions(events + [e]) ==
            if e.payload.StateChanged?
            then ReplayTransitions(events) + [Transition(e.threadId, e.eventId, e.payload.fromState, e.payload.toState)]
            else ReplayTransitions(events)
  {
    assert (events + [e])[..|events + [e]| - 1] == events;
  }

  /** Two rows describe the same thread: its identifying columns are never updated. */
  predicate SameIdentity(a: Thread, b: Thread) {
    a.ticket == b.ticket && a.runId == b.runId && a.agentName == b.agentName
  }

  /** What a command may have read before its transaction: any earlier row of its thread. */
  predicate SeenOk(db: Db, cmd: Command, seen: Thread) {
    cmd.OpenThread? || (cmd.env.threadId in db.threads && SameIdentity(seen, db.threads[cmd.env.threadId]))
  }

  ghost predicate UniqueIds(events: seq<Event>) {
    forall i, j :: 0 <= i < j < |events| ==> events[i].eventId != events[j].eventId
  }

  /** The base tables are a function of the log. */
  ghost predicate Replayed(db: Db) {
    && db.threads == Replay(db.events)
    && db.posts == ReplayPosts(db.events)
    && db.transitions == ReplayTransitions(db.events)
  }

  /** The view columns that never depend on post order agree with a recomputation. */
  ghost predicate ViewsCurrent(db: Db) {
    && db.views.Keys == db.threads.Keys
    && (forall t :: t in db.views ==> db.views[t].base == db.threads[t])
    && (forall t :: t in db.views ==> db.views[t].postsCount == CountPosts(db.posts, t))
  }

  /** An event a command may log when `threads` are the rows: it opens a new thread, or carries the ticket of its own. */
  predicate Fits(threads: map<string, Thread>, e: Event) {
    match e.payload
    case Opened(_, _, _) => e.threadId !in threads
    case Integration(_) => true
    case _ => e.threadId in threads && threads[e.threadId].ticket == e.ticket
  }

  ghost predicate WellFormedLog(events: seq<Event>) {
    |events| == 0 ||
    (WellFormedLog(events[..|events| - 1]) && Fits(Replay(events[..|events| - 1]), events[|events| - 1]))
  }

  lemma WellFormedAppend(events: seq<Event>, e: Event)
    requires WellFormedLog(events) && Fits(Replay(events), e)
    ensures WellFormedLog(events + [e])
  {
    assert (events + [e])[..|events + [e]| - 1] == events;
  }

  lemma {:induction false} OpenedStays(events: seq<Event>, i: nat)
    requires i < |events| && events[i].payload.Opened?
    ensures events[i].threadId in Replay(events)
  {
    if i < |events| - 1 {
      OpenedStays(events[..|events| - 1], i);
    }
  }

  /** Every post belongs to a logged event and an existing thread. */
  ghost predicate PostsLinked(db: Db) {
    forall i :: 0 <= i < |db.posts| ==> HasEvent(db.events, db.posts[i].eventId) && db.posts[i].threadId in db.threads
  }

  ghost predicate StoreInv(db: Db) {
    Replayed(db) && ViewsCurrent(db) && WellFormedLog(db.events) && PostsLinked(db) && UniqueIds(db.events)
  }

  /** The event a command logs also stands for the posts and transitions its transaction inserts. */
  lemma EventReplaysInserts(events: seq<Event>, cmd: Command, seen: Thread, clock: int)
    ensures var longer := events + [EventOf(cmd, seen, clock)];
            && ReplayPosts(longer) == ReplayPosts(events) + NewPosts(cmd, OccurredAt(cmd.env, clock))
            && ReplayTransitions(longer) == ReplayTransitions(events) + NewTransitions(cmd, seen)
  {
    ReplayAppend(events, EventOf(cmd, seen, clock));
  }

  /** A command transaction, run with any stale read, keeps the base tables the replay of the log. */
  lemma CommitKeepsReplay(db: Db, cmd: Command, seen: Thread, clock: int)
    requires Replayed(db) && SeenOk(db, cmd, seen)
    ensures Replayed(CommitTx(db, cmd, seen, clock))
  {
    if !Conflicts(db, cmd) {
      ReplayAppend(db.events, EventOf(cmd, seen, clock));
      EventReplaysCommand(db.threads, cmd, seen, clock);
      EventReplaysInserts(db.events, cmd, seen, clock);
    }
  }

  /** The event a command logs, replayed, makes the update the command's transaction makes. */
  lemma EventReplaysCommand(threads: map<string, Thread>, cmd: Command, seen: Thread, clock: int)
    requires cmd.OpenThread? || cmd.env.threadId in threads
    ensures ReplayStep(threads, EventOf(cmd, seen, clock)) == ThreadsAfter(threads, cmd, OccurredAt(cmd.env, clock))
  {
  }

  /** The two UPDATE statements of a command set the same columns of forum_threads and forum_thread_views. */
  lemma ViewFollowsThread(cmd: Command, row: View, at: int)
    ensures ViewAfter(cmd, row, at).base == ThreadAfter(cmd, row.base, at)
    ensures ViewAfter(cmd, row, at).postsCount == row.postsCount + (if cmd.AddPost? then 1 else 0)
    ensures SameIdentity(ThreadAfter(cmd, row.base, at), row.base)
  {
  }

  lemma CountAppend(posts: seq<Post>, p: Post, t: string)
    ensures CountPosts(posts + [p], t) == CountPosts(posts, t) + (if p.threadId == t then 1 else 0)
  {
    assert (posts + [p])[..|posts + [p]| - 1] == posts;
  }

  lemma {:induction false} CountZero(posts: seq<Post>, t: string)
    requires forall i :: 0 <= i < |posts| ==> posts[i].threadId != t
    ensures CountPosts(posts, t) == 0
  {
    if |posts| > 0 {
      CountZero(posts[..|posts| - 1], t);
    }
  }

  /** What a committed transaction does to the tables, without the values of the columns it writes. */
  ghost predicate Committed(db: Db, db': Db, e: Event, posts: seq<Post>) {
    && !HasEvent(db.events, e.eventId)
    && Fits(db.threads, e)
    && db'.events == db.events + [e]
    && db'.threads.Keys == db.threads.Keys + {e.threadId}
    && (forall i :: 0 <= i < |posts| ==> posts[i].threadId == e.threadId && posts[i].eventId == e.eventId)
    && db'.posts == db.posts + posts
  }

  lemma CommitShape(db: Db, cmd: Command, seen: Thread, clock: int)
    requires SeenOk(db, cmd, seen) && !Conflicts(db, cmd)
    ensures Committed(db, CommitTx(db, cmd, seen, clock), EventOf(cmd, seen, clock), NewPosts(cmd, OccurredAt(cmd.env, clock)))
  {
    var at := OccurredAt(cmd.env, clock);
    var e, threads := EventOf(cmd, seen, clock), ThreadsAfter(db.threads, cmd, at);
    assert e.eventId == cmd.env.eventId && e.threadId == cmd.env.threadId && Fits(db.threads, e);
    assert threads.Keys == db.threads.Keys + {e.threadId};
  }

  lemma CommitKeepsBases(db: Db, cmd: Command, seen: Thread, at: int)
    requires ViewsCurrent(db) && SeenOk(db, cmd, seen)
    ensures var views, threads := ViewsAfter(db.views, cmd, at), ThreadsAfter(db.threads, cmd, at);
            views.Keys == threads.Keys && forall u :: u in views ==> views[u].base == threads[u]
  {
    if !cmd.OpenThread? { ViewFollowsThread(cmd, db.views[cmd.env.threadId], at); }
  }

  lemma CommitKeepsCounts(db: Db, cmd: Command, at: int, u: string)
    requires ViewsCurrent(db) && PostsLinked(db) && (cmd.OpenThread? <==> cmd.env.threadId !in db.views)
    requires u in ViewsAfter(db.views, cmd, at)
    ensures ViewsAfter(db.views, cmd, at)[u].postsCount == CountPosts(db.posts + NewPosts(cmd, at), u)
  {
    var t := cmd.env.threadId;
    CountAfter(db.posts, cmd, at, u);
    if cmd.OpenThread? && u == t { CountZero(db.posts, u); }
    if !cmd.OpenThread? { ViewFollowsThread(cmd, db.views[t], at); }
  }

  lemma CommitKeepsViews(db: Db, cmd: Command, seen: Thread, clock: int)
    requires ViewsCurrent(db) && PostsLinked(db) && SeenOk(db, cmd, seen) && !Conflicts(db, cmd)
    ensures ViewsCurrent(CommitTx(db, cmd, seen, clock))
  {
    var at := OccurredAt(cmd.env, clock);
    CommitKeepsBases(db, cmd, seen, at);
    forall u | u in ViewsAfter(db.views, cmd, at)
      ensures ViewsAfter(db.views, cmd, at)[u].postsCount == CountPosts(db.posts + NewPosts(cmd, at), u)
    {
      CommitKeepsCounts(db, cmd, at, u);
    }
  }

  lemma CountAfter(posts: seq<Post>, cmd: Command, at: int, t: string)
    ensures CountPosts(posts + NewPosts(cmd, at), t) ==
            CountPosts(posts, t) + (if (cmd.OpenThread? || cmd.AddPost?) && cmd.env.threadId == t then 1 else 0)
  {
    if cmd.OpenThread? || cmd.AddPost? { CountAppend(posts, NewPosts(cmd, at)[0], t); }
    else { assert posts + NewPosts(cmd, at) == posts; }
  }

  lemma HasEventAppend(events: seq<Event>, e: Event, id: string)
    ensures HasEvent(events + [e], id) <==> HasEvent(events, id) || e.eventId == id
  {
    if HasEvent(events, id) {
      var i :| 0 <= i < |events| && events[i].eventId == id;
      assert (events + [e])[i].eventId == id;
    }
    if e.eventId == id { assert (events + [e])[|events|].eventId == id; }
  }

  lemma CommittedKeepsLinks(db: Db, db': Db, e: Event, posts: seq<Post>)
    requires PostsLinked(db) && UniqueIds(db.events) && Committed(db, db', e, posts)
    ensures PostsLinked(db') && UniqueIds(db'.events)
  {
    forall i | 0 <= i < |db'.posts|
      ensures HasEvent(db'.events, db'.posts[i].eventId) && db'.posts[i].threadId in db'.threads
    {
      HasEventAppend(db.events, e, db'.posts[i].eventId);
    }
  }

  /** Every store step keeps the base tables a replay of the log and the views current. */
  lemma CommitKeepsStore(db: Db, cmd: Command, seen: Thread, clock: int)
    requires StoreInv(db) && SeenOk(db, cmd, seen)
    ensures StoreInv(CommitTx(db, cmd, seen, clock))
  {
    if !Conflicts(db, cmd) {
      CommitShape(db, cmd, seen, clock);
      CommittedKeepsLinks(db, CommitTx(db, cmd, seen, clock), EventOf(cmd, seen, clock), NewPosts(cmd, OccurredAt(cmd.env, clock)));
      WellFormedAppend(db.events, EventOf(cmd, seen, clock));
      CommitKeepsReplay(db, cmd, seen, clock);
      CommitKeepsViews(db, cmd, seen, clock);
    }
  }

  lemma IntegrationKeepsStore(db: Db, env: Envelope, text: string, clock: int)
    requires StoreInv(db)
    ensures StoreInv(IntegrationTx(db, env, text, clock))
  {
    var db' := IntegrationTx(db, env, text, clock);
    if !IsBlank(env.eventId) && !HasEvent(db.events, env.eventId) {
      var e := db'.events[|db.events|];
      ReplayAppend(db.events, e);
      WellFormedAppend(db.events, e);
      IntegrationKeepsLinks(db, db', e);
    }
  }

  lemma IntegrationKeepsLinks(db: Db, db': Db, e: Event)
    requires PostsLinked(db) && UniqueIds(db.events) && !HasEvent(db.events, e.eventId)
    requires db'.events == db.events + [e] && db'.posts == db.posts && db'.threads == db.threads
    ensures PostsLinked(db') && UniqueIds(db'.events)
  {
    forall i | 0 <= i < |db'.posts|
      ensures HasEvent(db'.events, db'.posts[i].eventId)
    {
      HasEventAppend(db.events, e, db'.posts[i].eventId);
    }
  }

  lemma RefreshViewKeepsStore(db: Db, t: string)
    requires StoreInv(db)
    ensures StoreInv(RefreshView(db, t))
  {
  }

  /** The queue, stats and marker tables are no part of the store invariant. */
  lemma DerivedTablesAreFree(db: Db, db': Db)
    requires StoreInv(db)
    requires db' == db.(queue := db'.queue, stats := db'.stats, markers := db'.markers)
    ensures StoreInv(db')
  {
  }

  // ----- The post columns of the view -----

  /** Posts of thread `t` were inserted in the order the recomputation sorts them. */
  ghost predicate InOrder(posts: seq<Post>, t: string) {
    forall i, j :: 0 <= i < j < |posts| && posts[i].threadId == t && posts[j].threadId == t ==> SortsAfter(posts[j], posts[i])
  }

  lemma {:induction false} TopPostIsMaximal(posts: seq<Post>, t: string)
    ensures TopPost(posts, t).None? <==> forall i :: 0 <= i < |posts| ==> posts[i].threadId != t
    ensures TopPost(posts, t).Some? ==> TopPost(posts, t).value in posts && TopPost(posts, t).value.threadId == t
    ensures TopPost(posts, t).Some? ==>
              forall i :: 0 <= i < |posts| && posts[i].threadId == t ==> !SortsAfter(posts[i], TopPost(posts, t).value)
  {
    if |posts| > 0 {
      var before, p := posts[..|posts| - 1], posts[|posts| - 1];
      TopPostIsMaximal(before, t);
      assert forall i :: 0 <= i < |before| ==> posts[i] == before[i];
      assert posts == before + [p];
      var top := TopPost(before, t);
      if p.threadId == t && top.Some? {
        forall i | 0 <= i < |posts| && posts[i].threadId == t
          ensures !SortsAfter(posts[i], TopPost(posts, t).value)
        {
          Lex.LessTotal(PostId(p.eventId), PostId(p.eventId));
          if i < |before| && SortsAfter(posts[i], p) && SortsAfter(p, top.value) {
            SortsAfterTransitive(posts[i], p, top.value);
          }
        }
      } else if p.threadId == t {
        Lex.LessTotal(PostId(p.eventId), PostId(p.eventId));
      }
    }
  }

  lemma SortsAfterTransitive(a: Post, b: Post, c: Post)
    requires SortsAfter(a, b) && SortsAfter(b, c)
    ensures SortsAfter(a, c)
  {
    if a.createdAt == b.createdAt == c.createdAt {
      Lex.LessTransitive(PostId(c.eventId), PostId(b.eventId), PostId(a.eventId));
    }
  }

  function ViewOfLast(posts: seq<Post>, t: string): Option<LastPost> {
    var top := TopPost(posts, t);
    if top.Some? then Some(LastPostOf(top.value)) else None
  }

  /** Post ids are the key of the posts table, and an event id makes one. */
  ghost predicate DistinctPosts(posts: seq<Post>) {
    forall i, j :: 0 <= i < j < |posts| ==> posts[i].eventId != posts[j].eventId
  }

  lemma CommitKeepsPostsDistinct(db: Db, cmd: Command, seen: Thread, clock: int)
    requires DistinctPosts(db.posts)
    ensures DistinctPosts(CommitTx(db, cmd, seen, clock).posts)
  {
    if !Conflicts(db, cmd) && (cmd.OpenThread? || cmd.AddPost?) {
      assert forall i :: 0 <= i < |db.posts| ==> db.posts[i].eventId != cmd.env.eventId;
    }
  }

  lemma SortsTotal(p: Post, q: Post)
    requires p.eventId != q.eventId
    ensures SortsAfter(p, q) <==> !SortsAfter(q, p)
  {
    var n, m := |p.eventId|, |q.eventId|;
    assert PostId(p.eventId)[..n] == p.eventId && PostId(q.eventId)[..m] == q.eventId && |PostId(p.eventId)| - |PostId(q.eventId)| == n - m;
    Lex.LessTotal(PostId(p.eventId), PostId(q.eventId));
  }

  /** Every post of thread `t` sorts before `p`, but `p` itself. */
  ghost predicate Heads(posts: seq<Post>, p: Post, t: string) {
    forall i :: 0 <= i < |posts| && posts[i].threadId == t ==> posts[i] == p || SortsAfter(p, posts[i])
  }

  lemma TopPostHeads(posts: seq<Post>, t: string)
    requires DistinctPosts(posts)
    ensures TopPost(posts, t).Some? ==> Heads(posts, TopPost(posts, t).value, t)
  {
    TopPostIsMaximal(posts, t);
    if TopPost(posts, t).Some? {
      var k :| 0 <= k < |posts| && posts[k] == TopPost(posts, t).value;
      forall i | 0 <= i < |posts| && posts[i].threadId == t
        ensures posts[i] == posts[k] || SortsAfter(posts[k], posts[i])
      {
        if i != k { SortsTotal(posts[k], posts[i]); }
      }
    }
  }

  /** Exactly when appending a post leaves the incrementally written post columns equal to the recomputed ones: every
      earlier post of its thread sorts before it, or the one that sorts after all others shows the same columns. */
  lemma PostColumnsExact(posts: seq<Post>, p: Post)
    requires DistinctPosts(posts + [p])
    ensures ViewOfLast(posts + [p], p.threadId) == Some(LastPostOf(p)) <==>
            || Heads(posts, p, p.threadId)
            || exists q :: q in posts && q.threadId == p.threadId && SortsAfter(q, p) && Heads(posts, q, p.threadId) && LastPostOf(q) == LastPostOf(p)
  {
    var t, longer := p.threadId, posts + [p];
    var top := TopPost(posts, t);
    assert longer[..|longer| - 1] == posts;
    DistinctPrefix(posts, p);
    TopPostIsMaximal(posts, t);
    TopPostHeads(posts, t);
    if top.Some? {
      SortsTotal(p, top.value);
      if SortsAfter(p, top.value) {
        forall i | 0 <= i < |posts| && posts[i].threadId == t
          ensures SortsAfter(p, posts[i])
        {
          if posts[i] != top.value { SortsAfterTransitive(p, top.value, posts[i]); }
        }
      } else {
        forall q | q in posts && q.threadId == t && Heads(posts, q, t)
          ensures q == top.value
        {}
      }
    }
  }

  lemma DistinctPrefix(posts: seq<Post>, p: Post)
    requires DistinctPosts(posts + [p])
    ensures DistinctPosts(posts) && forall q :: q in posts ==> q.eventId != p.eventId
  {
    var longer := posts + [p];
    forall i, j | 0 <= i < j < |posts| ensures posts[i].eventId != posts[j].eventId {
      assert longer[i].eventId != longer[j].eventId;
    }
    forall q | q in posts ensures q.eventId != p.eventId {
      var i :| 0 <= i < |posts| && posts[i] == q;
      assert longer[i].eventId != longer[|posts|].eventId;
    }
  }

  /** Two posts in one second whose ids sort against insertion order: the incremental view names the second
      author, the recomputed one the first. */
  lemma PostColumnsCanDiffer()
    ensures var p, q := Post("t", "b", Agent, "amy", "", 5), Post("t", "a", Human, "bob", "", 5);
            ViewOfLast([p, q], "t") == Some(LastPost(5, Agent, "amy")) && LastPostOf(q) == LastPost(5, Human, "bob")
  {
    var p, q := Post("t", "b", Agent, "amy", "", 5), Post("t", "a", Human, "bob", "", 5);
    assert [p, q][..1] == [p] && [p][..0] == [];
    assert PostId("b")[0] == 'b' && PostId("a")[0] == 'a';
    assert TopPost([p], "t") == Some(p);
    assert !SortsAfter(q, p);
  }

  /** The post columns of every view agree with a recomputation, wherever posts arrive in order. */
  ghost predicate PostColumnsCurrent(db: Db) {
    forall t :: t in db.views && InOrder(db.posts, t) ==> db.views[t].last == ViewOfLast(db.posts, t)
  }

  lemma InOrderPrefix(posts: seq<Post>, p: Post, t: string)
    requires InOrder(posts + [p], t)
    ensures InOrder(posts, t)
    ensures p.threadId == t && TopPost(posts, t).Some? ==> SortsAfter(p, TopPost(posts, t).value)
  {
    TopPostIsMaximal(posts, t);
    forall i, j | 0 <= i < j < |posts| && posts[i].threadId == t && posts[j].threadId == t
      ensures SortsAfter(posts[j], posts[i])
    {
      assert SortsAfter((posts + [p])[j], (posts + [p])[i]);
    }
    if p.threadId == t && TopPost(posts, t).Some? {
      var i :| 0 <= i < |posts| && posts[i] == TopPost(posts, t).value;
      assert SortsAfter((posts + [p])[|posts|], (posts + [p])[i]);
    }
  }

  lemma CommitKeepsPostColumns(db: Db, cmd: Command, seen: Thread, clock: int)
    requires PostColumnsCurrent(db) && ViewsCurrent(db) && PostsLinked(db) && SeenOk(db, cmd, seen) && !Conflicts(db, cmd)
    ensures PostColumnsCurrent(CommitTx(db, cmd, seen, clock))
  {
    var at := OccurredAt(cmd.env, clock);
    var views := ViewsAfter(db.views, cmd, at);
    forall t | t in views && InOrder(db.posts + NewPosts(cmd, at), t)
      ensures views[t].last == ViewOfLast(db.posts + NewPosts(cmd, at), t)
    {
      if cmd.OpenThread? || cmd.AddPost? {
        PostedColumns(db.posts, NewPosts(cmd, at)[0], t);
      } else {
        assert db.posts + NewPosts(cmd, at) == db.posts;
      }
    }
  }

  /** In order, a new post is its thread's last one and leaves the other threads' last posts alone. */
  lemma PostedColumns(posts: seq<Post>, p: Post, t: string)
    requires InOrder(posts + [p], t)
    ensures InOrder(posts, t) && ViewOfLast(posts + [p], t) == if p.threadId == t then Some(LastPostOf(p)) else ViewOfLast(posts, t)
  {
    InOrderPrefix(posts, p, t);
    assert (posts + [p])[..|posts + [p]| - 1] == posts;
  }

  /** Incremental equals recompute: in a state that satisfies the invariants, refreshing a view changes nothing
      but, for a thread whose posts are out of order, its post columns. */
  lemma RefreshViewIsIdentity(db: Db, t: string)
    requires ViewsCurrent(db) && PostColumnsCurrent(db)
    ensures t in db.views ==> RefreshView(db, t).views[t].(last := db.views[t].last) == db.views[t]
    ensures InOrder(db.posts, t) ==> RefreshView(db, t) == db
  {
    if t in db.views {
      var row := ViewOf(db.threads[t], t, db.posts);
      assert row == View(db.views[t].base, db.views[t].postsCount, ViewOfLast(db.posts, t));
      if row == db.views[t] { assert db.views[t := row] == db.views; }
    } else {
      assert t !in db.threads;
    }
  }
}
