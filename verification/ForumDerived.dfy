/** What the rows of the derived tables show, said of the log, the threads and the posts alone. Every recomputation is shown
    to show exactly that. */
module ForumDerived {
  import opened Options
  import opened ForumModel
  import opened ForumTables
  import opened ForumReplay
  import opened ForumQueue
  import Lex

  // ----- Queue rows -----

  const ANYONE := {Agent, Operator, Human, System}

  /** Sequence `n` is that of the last event of thread `t` by one of `who`, or 0 when there is none. */
  ghost predicate LastBy(events: seq<Event>, t: string, who: set<Actor>, n: nat) {
    && n <= |events| && (n > 0 ==> events[n - 1].threadId == t && events[n - 1].actorType in who)
    && forall j :: n <= j < |events| && events[j].threadId == t ==> events[j].actorType !in who
  }

  /** The actor of the last event of thread `t` by one of `who`. */
  ghost predicate LastActor(events: seq<Event>, t: string, who: set<Actor>, actor: Option<Actor>) {
    exists n: nat :: LastBy(events, t, who, n) && actor == if n == 0 then None else Some(events[n - 1].actorType)
  }

  /** The row shows the columns of `thread`, the last event of the thread and its actor, the last actor other than the system,
      and the last events by a person and by an agent. */
  ghost predicate ShowsThread(row: QueueRow, thread: Thread, t: string, events: seq<Event>) {
    && row.ticket == thread.ticket && row.runId == thread.runId && row.state == thread.state && row.priority == thread.priority
    && row.assigneeName == thread.assigneeName && row.updatedAt == thread.updatedAt
    && LastBy(events, t, ANYONE, row.lastEventSequence) && LastActor(events, t, ANYONE, row.lastActorType)
    && LastActor(events, t, {Agent, Operator, Human}, row.lastNonSystemActorType)
    && LastBy(events, t, {Human, Operator}, row.lastHumanOrOperatorSequence)
    && LastBy(events, t, {Agent}, row.lastAgentSequence)
  }

  lemma LastByExactly(events: seq<Event>, t: string, who: set<Actor>, n: nat)
    ensures LastBy(events, t, who, n) <==> n == LastSeq(events, t, who)
  {
    LastSeqMeaning(events, t, who);
  }

  lemma LastActorExactly(events: seq<Event>, t: string, who: set<Actor>, actor: Option<Actor>)
    ensures LastActor(events, t, who, actor) <==> actor == ActorAt(events, LastSeq(events, t, who))
  {
    LastByExactly(events, t, who, LastSeq(events, t, who));
    if LastActor(events, t, who, actor) {
      var n: nat :| LastBy(events, t, who, n) && actor == if n == 0 then None else Some(events[n - 1].actorType);
      LastByExactly(events, t, who, n);
    }
  }

  /** A recomputed queue row shows its thread, and it is the only row that does. */
  lemma QueueRowShows(row: QueueRow, thread: Thread, t: string, events: seq<Event>)
    ensures ShowsThread(row, thread, t, events) <==> row == QueueRowOf(thread, t, events)
  {
    LastByExactly(events, t, ANYONE, row.lastEventSequence);
    LastActorExactly(events, t, ANYONE, row.lastActorType);
    LastActorExactly(events, t, {Agent, Operator, Human}, row.lastNonSystemActorType);
    LastByExactly(events, t, {Human, Operator}, row.lastHumanOrOperatorSequence);
    LastByExactly(events, t, {Agent}, row.lastAgentSequence);
  }

  // ----- What a reader has not seen -----

  /** The unseen test of the queue and the search flag, with COALESCE over a missing queue row or read mark. */
  predicate Unseen(row: Option<QueueRow>, seen: Option<nat>) {
    (if row.Some? then row.value.lastEventSequence else 0) > (if seen.Some? then seen.value else 0)
  }

  lemma IsAnyone(actor: Actor)
    ensures actor in ANYONE
  {
    match actor { case Agent => case Operator => case Human => case System => }
  }

  /** A thread is unseen exactly if some event of it comes after what the reader has marked as read. */
  lemma UnseenExactly(row: QueueRow, thread: Thread, t: string, events: seq<Event>, seen: Option<nat>)
    requires ShowsThread(row, thread, t, events)
    ensures Unseen(Some(row), seen) <==>
            exists i :: 0 <= i < |events| && events[i].threadId == t && (seen.Some? ==> i + 1 > seen.value)
  {
    var n := row.lastEventSequence;
    if n > 0 { assert events[n - 1].threadId == t; }
    forall i | 0 <= i < |events| && events[i].threadId == t ensures i < n { IsAnyone(events[i].actorType); }
  }

  // ----- Stats -----

  predicate HasKey(thread: Thread, key: StatKey) {
    thread.ticket == key.ticket && thread.runId == key.runId && thread.state == key.state && thread.priority == key.priority
  }

  /** The threads that have ticket, run, state and priority in common. */
  function Group(threads: map<string, Thread>, key: StatKey): set<string> {
    set t | t in threads && HasKey(threads[t], key)
  }

  /** The stats are those of the ticket: for each group of its threads there is, the number of its members. */
  ghost predicate CountsThreads(stats: map<StatKey, nat>, threads: map<string, Thread>, ticket: string) {
    && (forall key <- stats :: key.ticket == ticket && stats[key] == |Group(threads, key)| > 0)
    && (forall t <- threads :: threads[t].ticket == ticket ==> exists key :: key in stats && HasKey(threads[t], key))
  }

  lemma GroupIsCounted(threads: map<string, Thread>, key: StatKey)
    ensures CountOf(threads, key) == |Group(threads, key)|
  {
    assert (set t | t in threads && KeyOf(threads[t]) == key) == Group(threads, key);
  }

  lemma KeysShow(threads: map<string, Thread>, ticket: string, key: StatKey)
    ensures key in GroupCount(threads, ticket) <==> key.ticket == ticket && |Group(threads, key)| > 0
  {
    if key in GroupCount(threads, ticket) {
      var t :| t in threads && threads[t].ticket == ticket && KeyOf(threads[t]) == key;
      assert t in Group(threads, key);
    }
    if key.ticket == ticket && |Group(threads, key)| > 0 {
      var t :| t in Group(threads, key);
      assert t in threads && threads[t].ticket == ticket && KeyOf(threads[t]) == key;
    }
  }

  /** The recomputed stats of a ticket count its threads, and nothing else does. */
  lemma GroupCountShows(stats: map<StatKey, nat>, threads: map<string, Thread>, ticket: string)
    ensures CountsThreads(stats, threads, ticket) <==> stats == GroupCount(threads, ticket)
  {
    var counts := GroupCount(threads, ticket);
    forall key
      ensures key in counts <==> key.ticket == ticket && |Group(threads, key)| > 0
      ensures key in counts ==> counts[key] == |Group(threads, key)|
    {
      KeysShow(threads, ticket, key);
      GroupIsCounted(threads, key);
    }
    if CountsThreads(stats, threads, ticket) {
      forall key ensures key in stats <==> key in counts {
        if key in counts {
          var t :| t in Group(threads, key);
          var other :| other in stats && HasKey(threads[t], other);
          assert other == key;
        }
      }
    }
    if stats == counts {
      forall t | t in threads && threads[t].ticket == ticket ensures exists key :: key in stats && HasKey(threads[t], key) {
        var key := KeyOf(threads[t]);
        assert t in Group(threads, key) && key in counts && HasKey(threads[t], key);
      }
    }
  }

  // ----- Views -----

  /** The posts of the thread were inserted by time, and those of one second by post id. */
  ghost predicate PostedInOrder(posts: seq<Post>, t: string) {
    forall i, j :: 0 <= i < j < |posts| && posts[i].threadId == t && posts[j].threadId == t ==>
      posts[i].createdAt < posts[j].createdAt ||
      (posts[i].createdAt == posts[j].createdAt && Lex.Less(posts[i].eventId + ".post", posts[j].eventId + ".post"))
  }

  lemma InOrderExactly(posts: seq<Post>, t: string)
    ensures PostedInOrder(posts, t) <==> InOrder(posts, t)
  {
    forall i, j | 0 <= i < j < |posts| && posts[i].threadId == t && posts[j].threadId == t
      ensures SortsAfter(posts[j], posts[i]) <==>
              posts[i].createdAt < posts[j].createdAt ||
              (posts[i].createdAt == posts[j].createdAt && Lex.Less(posts[i].eventId + ".post", posts[j].eventId + ".post"))
    {
    }
  }

  function PostsOf(posts: seq<Post>, t: string): set<nat> {
    set i: nat | i < |posts| && posts[i].threadId == t
  }

  /** `p` is a post of the thread, and no other is later, or of the same time with a greater post id. */
  ghost predicate IsLastPost(posts: seq<Post>, t: string, p: Post) {
    && p in posts && p.threadId == t
    && forall q <- posts :: q.threadId == t ==>
         q.createdAt < p.createdAt || (q.createdAt == p.createdAt && !Lex.Less(p.eventId + ".post", q.eventId + ".post"))
  }

  /** The view shows the thread's columns, the number of its posts, and who wrote the last one when. */
  ghost predicate ShowsPosts(view: View, thread: Thread, t: string, posts: seq<Post>) {
    && view.base == thread && view.postsCount == |PostsOf(posts, t)|
    && if view.last.None? then forall p <- posts :: p.threadId != t
       else exists p :: IsLastPost(posts, t, p) && view.last.value == LastPost(p.createdAt, p.authorType, p.authorName)
  }

  lemma {:induction false} CountIsSize(posts: seq<Post>, t: string)
    ensures CountPosts(posts, t) == |PostsOf(posts, t)|
  {
    if |posts| > 0 {
      var before, n := posts[..|posts| - 1], |posts| - 1;
      CountIsSize(before, t);
      var last: set<nat> := if posts[n].threadId == t then {n} else {};
      assert PostsOf(posts, t) == PostsOf(before, t) + last && PostsOf(before, t) !! last;
    }
  }

  /** A recomputed view shows its thread and its posts. */
  lemma ViewShows(thread: Thread, t: string, posts: seq<Post>)
    ensures ShowsPosts(ViewOf(thread, t, posts), thread, t, posts)
  {
    CountIsSize(posts, t);
    TopPostIsMaximal(posts, t);
    var top := TopPost(posts, t);
    if top.Some? {
      forall q <- posts | q.threadId == t
        ensures q.createdAt < top.value.createdAt ||
                (q.createdAt == top.value.createdAt && !Lex.Less(top.value.eventId + ".post", q.eventId + ".post"))
      {
        var i :| 0 <= i < |posts| && posts[i] == q;
        assert !SortsAfter(posts[i], top.value);
      }
      assert IsLastPost(posts, t, top.value);
    } else {
      forall p <- posts ensures p.threadId != t { var i :| 0 <= i < |posts| && posts[i] == p; }
    }
  }
}
