/** The unanswered queue and the is_unanswered search flag, and what they mean in terms of the log. */
module ForumQueue {
  import opened Options
  import opened ForumModel
  import opened ForumTables

  const OPEN_STATES := {New, WaitingHuman, WaitingOperator}

  /** The queue row of the LEFT JOIN, with COALESCE over a missing one. */
  predicate AgentAhead(q: Option<QueueRow>) {
    match q
    case None => false
    case Some(row) => row.lastAgentSequence > row.lastHumanOrOperatorSequence
  }

  predicate AgentSpokeLast(q: Option<QueueRow>) {
    q.Some? && q.value.lastNonSystemActorType == Some(Agent)
  }

  /** The three clauses of the unanswered queue, which the search flag repeats as one CASE expression. */
  predicate Unanswered(state: ThreadState, q: Option<QueueRow>) {
    state in OPEN_STATES && AgentAhead(q) && AgentSpokeLast(q)
  }

  /** Some agent event of the thread is followed by system events at most. */
  ghost predicate AgentHasLastWord(events: seq<Event>, t: string) {
    exists i :: 0 <= i < |events| && events[i].threadId == t && events[i].actorType == Agent &&
      forall j :: i < j < |events| && events[j].threadId == t ==> events[j].actorType == System
  }

  lemma {:induction false} LastSeqMeaning(events: seq<Event>, t: string, who: set<Actor>)
    ensures var n := LastSeq(events, t, who);
            && (n > 0 ==> events[n - 1].threadId == t && events[n - 1].actorType in who)
            && (forall j :: n <= j < |events| && events[j].threadId == t ==> events[j].actorType !in who)
  {
    if |events| > 0 {
      var e, before := events[|events| - 1], events[..|events| - 1];
      if !(e.threadId == t && e.actorType in who) {
        LastSeqMeaning(before, t, who);
        assert forall j :: 0 <= j < |before| ==> before[j] == events[j];
      }
    }
  }

  lemma SpeakerIsLastOfBoth(t: string, events: seq<Event>)
    ensures var agent, person := LastSeq(events, t, {Agent}), LastSeq(events, t, {Human, Operator});
            && LastSeq(events, t, {Agent, Operator, Human}) == (if agent > person then agent else person)
            && (agent > 0 ==> events[agent - 1].actorType == Agent) && (person > 0 ==> events[person - 1].actorType in {Human, Operator})
  {
    LastSeqMeaning(events, t, {Agent});
    LastSeqMeaning(events, t, {Human, Operator});
    LastSeqMeaning(events, t, {Agent, Operator, Human});
  }

  lemma AheadMeansLastWord(t: string, events: seq<Event>)
    ensures LastSeq(events, t, {Agent}) > LastSeq(events, t, {Human, Operator}) <==> AgentHasLastWord(events, t)
  {
    var agent := LastSeq(events, t, {Agent});
    var person := LastSeq(events, t, {Human, Operator});
    LastSeqMeaning(events, t, {Agent});
    LastSeqMeaning(events, t, {Human, Operator});
    if agent > person {
      assert forall j :: agent - 1 < j < |events| && events[j].threadId == t ==> events[j].actorType == System;
      assert AgentHasLastWord(events, t);
    }
    if AgentHasLastWord(events, t) {
      var i :| 0 <= i < |events| && events[i].threadId == t && events[i].actorType == Agent &&
               forall j :: i < j < |events| && events[j].threadId == t ==> events[j].actorType == System;
      assert agent == i + 1 && person <= i;
    }
  }

  /** For a row recomputed from any log, the sequence comparison and the actor column say the same thing:
      the last event not by the system is an agent's. */
  lemma UnansweredMeansAgentLast(thread: Thread, t: string, events: seq<Event>)
    ensures var row := QueueRowOf(thread, t, events);
            && (AgentAhead(Some(row)) <==> AgentHasLastWord(events, t))
            && (AgentSpokeLast(Some(row)) <==> AgentHasLastWord(events, t))
  {
    SpeakerIsLastOfBoth(t, events);
    AheadMeansLastWord(t, events);
  }

  /** Either redundant clause could be dropped: both the queue filter and the search flag select the open threads
      whose last word is an agent's. */
  lemma UnansweredCharacterized(state: ThreadState, thread: Thread, t: string, events: seq<Event>)
    ensures Unanswered(state, Some(QueueRowOf(thread, t, events))) <==>
            (state == New || state == WaitingHuman || state == WaitingOperator) && AgentHasLastWord(events, t)
    ensures !Unanswered(state, None)
  {
    UnansweredMeansAgentLast(thread, t, events);
  }
}
