/** Control signals: the fold of an agent's control thread into the flags that gate a run's completion. */
module ControlSignals {

  datatype Signal =
    | GuidanceRequest(question: string)
    | GuidanceAnswer
    | Completion
    | Validation(passed: bool, doneCriteria: string)

  /** A forum post of a control thread; only a body that parses and validates as a payload is a control post. */
  datatype Post = Plain | Control(runId: string, agentName: string, signal: Signal)

  datatype ValidationStatus = NotValidated | Passed | Failed

  datatype AgentState = AgentState(
    pending: bool,
    question: string,
    completed: bool,
    validation: ValidationStatus,
    doneCriteria: string)

  const Silent := AgentState(false, "", false, NotValidated, "")

  /** The store lists a thread's posts oldest first and stops after this many. */
  const LIMIT := 1000

  function Window(posts: seq<Post>): seq<Post> {
    if |posts| > LIMIT then posts[..LIMIT] else posts
  }

  /** The posts the store does not list. */
  function Beyond(posts: seq<Post>): seq<Post> {
    if |posts| > LIMIT then posts[LIMIT..] else []
  }

  predicate Concerns(p: Post, runId: string, agent: string) {
    p.Control? && p.runId == runId && p.agentName == agent
  }

  function ApplySignal(state: AgentState, signal: Signal): AgentState {
    match signal
    case GuidanceRequest(question) => state.(pending := true, question := question)
    case GuidanceAnswer => state.(pending := false, question := "")
    case Completion => state.(completed := true)
    case Validation(passed, criteria) => state.(validation := if passed then Passed else Failed, doneCriteria := criteria)
  }

  function ApplyPost(state: AgentState, p: Post, runId: string, agent: string): AgentState {
    if Concerns(p, runId, agent) then ApplySignal(state, p.signal) else state
  }

  function Fold(posts: seq<Post>, runId: string, agent: string): AgentState {
    if |posts| == 0 then Silent
    else ApplyPost(Fold(posts[..|posts| - 1], runId, agent), posts[|posts| - 1], runId, agent)
  }

  // ----- What the flags mean -----

  predicate IsRequest(p: Post, runId: string, agent: string) {
    p.Control? && p.signal.GuidanceRequest? && p == Control(runId, agent, p.signal)
  }

  predicate IsAnswer(p: Post, runId: string, agent: string) {
    p == Control(runId, agent, GuidanceAnswer)
  }

  predicate IsCompletion(p: Post, runId: string, agent: string) {
    p == Control(runId, agent, Completion)
  }

  predicate IsValidation(p: Post, runId: string, agent: string) {
    p.Control? && p.signal.Validation? && p == Control(runId, agent, p.signal)
  }

  /** Some request of the agent has no later answer. */
  ghost predicate Unanswered(posts: seq<Post>, runId: string, agent: string) {
    exists i :: 0 <= i < |posts| && IsRequest(posts[i], runId, agent) && NoneAfter(posts, i, runId, agent, true)
  }

  /** No answer (or, for `answers` false, no validation) after position `i`. */
  predicate NoneAfter(posts: seq<Post>, i: int, runId: string, agent: string, answers: bool)
    requires 0 <= i < |posts|
  {
    forall j :: i < j < |posts| ==> if answers then !IsAnswer(posts[j], runId, agent) else !IsValidation(posts[j], runId, agent)
  }

  ghost predicate Completed(posts: seq<Post>, runId: string, agent: string) {
    exists i :: 0 <= i < |posts| && IsCompletion(posts[i], runId, agent)
  }

  /** The agent's last validation passed. */
  ghost predicate LastValidationPassed(posts: seq<Post>, runId: string, agent: string) {
    exists i :: 0 <= i < |posts| && IsValidation(posts[i], runId, agent) && posts[i].signal.passed && NoneAfter(posts, i, runId, agent, false)
  }

  lemma {:induction false} PendingMeansUnanswered(posts: seq<Post>, runId: string, agent: string)
    ensures Fold(posts, runId, agent).pending <==> Unanswered(posts, runId, agent)
  {
    if |posts| > 0 {
      var before, last, n := posts[..|posts| - 1], posts[|posts| - 1], |posts| - 1;
      PendingMeansUnanswered(before, runId, agent);
      if IsRequest(last, runId, agent) {
        assert IsRequest(posts[n], runId, agent) && NoneAfter(posts, n, runId, agent, true);
      } else {
        if Unanswered(before, runId, agent) && !IsAnswer(last, runId, agent) {
          var i :| 0 <= i < |before| && IsRequest(before[i], runId, agent) && NoneAfter(before, i, runId, agent, true);
          assert forall j :: i < j < n ==> before[j] == posts[j];
          assert IsRequest(posts[i], runId, agent) && NoneAfter(posts, i, runId, agent, true);
        }
        if Unanswered(posts, runId, agent) {
          var i :| 0 <= i < |posts| && IsRequest(posts[i], runId, agent) && NoneAfter(posts, i, runId, agent, true);
          assert i < n && before[i] == posts[i];
          assert forall j :: i < j < n ==> before[j] == posts[j];
          assert NoneAfter(before, i, runId, agent, true);
        }
      }
    }
  }

  lemma {:induction false} CompletedMeans(posts: seq<Post>, runId: string, agent: string)
    ensures Fold(posts, runId, agent).completed <==> Completed(posts, runId, agent)
  {
    if |posts| > 0 {
      var before := posts[..|posts| - 1];
      CompletedMeans(before, runId, agent);
      if Completed(before, runId, agent) {
        var i :| 0 <= i < |before| && IsCompletion(before[i], runId, agent);
        assert IsCompletion(posts[i], runId, agent);
      }
      if Completed(posts, runId, agent) && !IsCompletion(posts[|posts| - 1], runId, agent) {
        var i :| 0 <= i < |posts| && IsCompletion(posts[i], runId, agent);
        assert IsCompletion(before[i], runId, agent);
      }
    }
  }

  lemma {:induction false} PassedMeans(posts: seq<Post>, runId: string, agent: string)
    ensures Fold(posts, runId, agent).validation == Passed <==> LastValidationPassed(posts, runId, agent)
  {
    if |posts| > 0 {
      var before, last, n := posts[..|posts| - 1], posts[|posts| - 1], |posts| - 1;
      PassedMeans(before, runId, agent);
      if IsValidation(last, runId, agent) {
        assert IsValidation(posts[n], runId, agent) && NoneAfter(posts, n, runId, agent, false);
        if LastValidationPassed(posts, runId, agent) {
          var i :| 0 <= i < |posts| && IsValidation(posts[i], runId, agent) && posts[i].signal.passed && NoneAfter(posts, i, runId, agent, false);
          assert i == n;
        }
      } else {
        if LastValidationPassed(before, runId, agent) {
          var i :| 0 <= i < |before| && IsValidation(before[i], runId, agent) && before[i].signal.passed && NoneAfter(before, i, runId, agent, false);
          assert forall j :: i < j < n ==> before[j] == posts[j];
          assert IsValidation(posts[i], runId, agent) && NoneAfter(posts, i, runId, agent, false);
        }
        if LastValidationPassed(posts, runId, agent) {
          var i :| 0 <= i < |posts| && IsValidation(posts[i], runId, agent) && posts[i].signal.passed && NoneAfter(posts, i, runId, agent, false);
          assert i < n && before[i] == posts[i];
          assert forall j :: i < j < n ==> before[j] == posts[j];
          assert NoneAfter(before, i, runId, agent, false);
        }
      }
    }
  }

  /** The question is that of the last request, while it waits for an answer. */
  ghost predicate Asks(posts: seq<Post>, runId: string, agent: string, question: string) {
    exists i :: 0 <= i < |posts| && posts[i] == Control(runId, agent, GuidanceRequest(question)) &&
      forall j :: i < j < |posts| ==> !IsRequest(posts[j], runId, agent) && !IsAnswer(posts[j], runId, agent)
  }

  /** The last validation of the agent says this. */
  ghost predicate Validates(posts: seq<Post>, runId: string, agent: string, passed: bool, criteria: string) {
    exists i :: 0 <= i < |posts| && posts[i] == Control(runId, agent, Validation(passed, criteria)) && NoneAfter(posts, i, runId, agent, false)
  }

  /** The texts a thread leaves: the pending question and the criteria of the last validation. */
  lemma {:induction false} TextsMean(posts: seq<Post>, runId: string, agent: string)
    ensures var s := Fold(posts, runId, agent);
            && (if s.pending then Asks(posts, runId, agent, s.question) else s.question == "")
            && (if s.validation == NotValidated then s.doneCriteria == "" && forall i :: 0 <= i < |posts| ==> !IsValidation(posts[i], runId, agent)
                else Validates(posts, runId, agent, s.validation == Passed, s.doneCriteria))
  {
    if |posts| > 0 {
      var before, last, n := posts[..|posts| - 1], posts[|posts| - 1], |posts| - 1;
      TextsMean(before, runId, agent);
      var s, s' := Fold(before, runId, agent), Fold(posts, runId, agent);
      if IsRequest(last, runId, agent) { assert posts[n] == Control(runId, agent, GuidanceRequest(s'.question)); }
      if IsValidation(last, runId, agent) {
        assert posts[n] == Control(runId, agent, Validation(s'.validation == Passed, s'.doneCriteria)) && NoneAfter(posts, n, runId, agent, false);
      }
      if s.pending && !IsRequest(last, runId, agent) && !IsAnswer(last, runId, agent) { StillAsks(posts, runId, agent, s.question); }
      if s.validation != NotValidated && !IsValidation(last, runId, agent) {
        StillValidates(posts, runId, agent, s.validation == Passed, s.doneCriteria);
      }
    }
  }

  lemma StillAsks(posts: seq<Post>, runId: string, agent: string, question: string)
    requires |posts| > 0 && Asks(posts[..|posts| - 1], runId, agent, question)
    requires !IsRequest(posts[|posts| - 1], runId, agent) && !IsAnswer(posts[|posts| - 1], runId, agent)
    ensures Asks(posts, runId, agent, question)
  {
    var before := posts[..|posts| - 1];
    var i :| 0 <= i < |before| && before[i] == Control(runId, agent, GuidanceRequest(question)) &&
             forall j :: i < j < |before| ==> !IsRequest(before[j], runId, agent) && !IsAnswer(before[j], runId, agent);
    assert posts[i] == before[i] && forall j :: i < j < |before| ==> posts[j] == before[j];
  }

  lemma StillValidates(posts: seq<Post>, runId: string, agent: string, passed: bool, criteria: string)
    requires |posts| > 0 && Validates(posts[..|posts| - 1], runId, agent, passed, criteria) && !IsValidation(posts[|posts| - 1], runId, agent)
    ensures Validates(posts, runId, agent, passed, criteria)
  {
    var before := posts[..|posts| - 1];
    var i :| 0 <= i < |before| && before[i] == Control(runId, agent, Validation(passed, criteria)) && NoneAfter(before, i, runId, agent, false);
    assert posts[i] == before[i] && forall j :: i < j < |before| ==> posts[j] == before[j];
    assert NoneAfter(posts, i, runId, agent, false);
  }

  /** What the last post of a kind leaves behind, if there is one. */
  datatype Last = None | Flag(value: bool)

  function Or(last: Last, otherwise: bool): bool {
    match last case None => otherwise case Flag(b) => b
  }

  /** The last request (true) or answer (false). */
  function LastGuidance(posts: seq<Post>, runId: string, agent: string): Last {
    if |posts| == 0 then None
    else if IsRequest(posts[|posts| - 1], runId, agent) then Flag(true)
    else if IsAnswer(posts[|posts| - 1], runId, agent) then Flag(false)
    else LastGuidance(posts[..|posts| - 1], runId, agent)
  }

  /** Whether the last validation passed. */
  function LastValidation(posts: seq<Post>, runId: string, agent: string): Last {
    if |posts| == 0 then None
    else if IsValidation(posts[|posts| - 1], runId, agent) then Flag(posts[|posts| - 1].signal.passed)
    else LastValidation(posts[..|posts| - 1], runId, agent)
  }

  /** What further posts do to each flag. */
  lemma {:induction false} FoldTail(posts: seq<Post>, tail: seq<Post>, runId: string, agent: string)
    ensures var whole, seen := Fold(posts + tail, runId, agent), Fold(posts, runId, agent);
            && whole.pending == Or(LastGuidance(tail, runId, agent), seen.pending)
            && whole.completed == (seen.completed || Fold(tail, runId, agent).completed)
            && (whole.validation == Passed) == Or(LastValidation(tail, runId, agent), seen.validation == Passed)
    decreases |tail|
  {
    if |tail| == 0 {
      assert posts + tail == posts;
    } else {
      FoldTail(posts, tail[..|tail| - 1], runId, agent);
      assert (posts + tail)[..|posts + tail| - 1] == posts + tail[..|tail| - 1];
    }
  }

  /** The flags of a whole thread, from those of its window and the posts beyond it. */
  lemma WholeThread(posts: seq<Post>, runId: string, agent: string)
    ensures Unanswered(posts, runId, agent) <==> Or(LastGuidance(Beyond(posts), runId, agent), Unanswered(Window(posts), runId, agent))
    ensures Completed(posts, runId, agent) <==> Completed(Window(posts), runId, agent) || Completed(Beyond(posts), runId, agent)
    ensures LastValidationPassed(posts, runId, agent) <==>
            Or(LastValidation(Beyond(posts), runId, agent), LastValidationPassed(Window(posts), runId, agent))
  {
    assert posts == Window(posts) + Beyond(posts);
    FoldTail(Window(posts), Beyond(posts), runId, agent);
    PendingMeansUnanswered(posts, runId, agent);
    PendingMeansUnanswered(Window(posts), runId, agent);
    CompletedMeans(posts, runId, agent);
    CompletedMeans(Window(posts), runId, agent);
    CompletedMeans(Beyond(posts), runId, agent);
    PassedMeans(posts, runId, agent);
    PassedMeans(Window(posts), runId, agent);
  }

  /** The fold only sees the oldest posts. Flag by flag, it agrees with the fold of the whole thread exactly when the posts
      beyond the limit hold no request or answer, no completion, no validation of the agent, or the last of them says what
      the window says already. */
  lemma WindowExactly(posts: seq<Post>, runId: string, agent: string)
    ensures var seen, whole, beyond := Fold(Window(posts), runId, agent), Fold(posts, runId, agent), Beyond(posts);
            && (seen.pending == whole.pending <==>
                LastGuidance(beyond, runId, agent) == None || LastGuidance(beyond, runId, agent) == Flag(seen.pending))
            && (seen.completed == whole.completed <==> !Completed(beyond, runId, agent) || Completed(Window(posts), runId, agent))
            && ((seen.validation == Passed) == (whole.validation == Passed) <==>
                LastValidation(beyond, runId, agent) == None || LastValidation(beyond, runId, agent) == Flag(seen.validation == Passed))
  {
    assert posts == Window(posts) + Beyond(posts);
    FoldTail(Window(posts), Beyond(posts), runId, agent);
    CompletedMeans(Window(posts), runId, agent);
    CompletedMeans(Beyond(posts), runId, agent);
  }

  /** Two signals that leave something else behind in the other order. */
  predicate Clash(a: Signal, b: Signal) {
    || (a.GuidanceRequest? && b.GuidanceRequest? && a != b)
    || (a.GuidanceRequest? && b.GuidanceAnswer?) || (a.GuidanceAnswer? && b.GuidanceRequest?)
    || (a.Validation? && b.Validation? && a != b)
  }

  lemma ClashShows(state: AgentState, a: Signal, b: Signal)
    ensures ApplySignal(ApplySignal(state, a), b) == ApplySignal(ApplySignal(state, b), a) <==> !Clash(a, b)
  {
  }

  predicate OrderMatters(p: Post, q: Post, runId: string, agent: string) {
    Concerns(p, runId, agent) && Concerns(q, runId, agent) && Clash(p.signal, q.signal)
  }

  /** The store orders posts by whole seconds, so two posts of one second may come either way: the fold is the same exactly
      when they are not a request and an answer, two different requests, or two different validations of the agent. */
  lemma SameSecondExactly(posts: seq<Post>, p: Post, q: Post, runId: string, agent: string)
    ensures Fold(posts + [p, q], runId, agent) == Fold(posts + [q, p], runId, agent) <==> !OrderMatters(p, q, runId, agent)
  {
    FoldTwo(posts, p, q, runId, agent);
    FoldTwo(posts, q, p, runId, agent);
    if Concerns(p, runId, agent) && Concerns(q, runId, agent) { ClashShows(Fold(posts, runId, agent), p.signal, q.signal); }
  }

  lemma FoldTwo(posts: seq<Post>, p: Post, q: Post, runId: string, agent: string)
    ensures Fold(posts + [p, q], runId, agent) == ApplyPost(ApplyPost(Fold(posts, runId, agent), p, runId, agent), q, runId, agent)
  {
    var all := posts + [p, q];
    assert all[..|all| - 1] == posts + [p] && (posts + [p])[..|posts|] == posts;
  }

  /** A request after a thousand posts goes unseen. */
  lemma LateRequestUnseen(posts: seq<Post>, runId: string, agent: string, question: string)
    requires |posts| == 1000 && !Fold(posts, runId, agent).pending
    ensures var all := posts + [Control(runId, agent, GuidanceRequest(question))];
            Unanswered(all, runId, agent) && !Fold(Window(all), runId, agent).pending
  {
    var all := posts + [Control(runId, agent, GuidanceRequest(question))];
    assert all[..LIMIT] == posts;
    assert IsRequest(all[LIMIT], runId, agent) && NoneAfter(all, LIMIT, runId, agent, true);
  }

  // ----- The fold as the service runs it -----

  /** A control thread mapping with the posts of its thread; a run has one per agent. */
  datatype Mapping = Mapping(agentName: string, posts: seq<Post>)

  function StateOf(runId: string, mappings: seq<Mapping>, agent: string): AgentState {
    if |mappings| == 0 then Silent
    else
      var m := mappings[|mappings| - 1];
      if m.agentName == agent then Fold(Window(m.posts), runId, agent) else StateOf(runId, mappings[..|mappings| - 1], agent)
  }

  /** The loop over one thread's posts. */
  method FoldPosts(posts: seq<Post>, runId: string, agent: string, start: AgentState) returns (state: AgentState)
    requires start == Silent
    ensures state == Fold(posts, runId, agent)
  {
    state := start;
    for n := 0 to |posts|
      invariant state == Fold(posts[..n], runId, agent)
    {
      assert posts[..n + 1][..n] == posts[..n];
      if Concerns(posts[n], runId, agent) {
        match posts[n].signal
        case GuidanceRequest(question) => state := state.(pending := true, question := question);
        case GuidanceAnswer => state := state.(pending := false, question := "");
        case Completion => state := state.(completed := true);
        case Validation(passed, criteria) => state := state.(validation := if passed then Passed else Failed, doneCriteria := criteria);
      }
    }
    assert posts[..|posts|] == posts;
  }

  /** forumControlStatesForRun: every agent and every mapped agent gets the fold of its thread. */
  method ControlStates(runId: string, agents: seq<string>, mappings: seq<Mapping>) returns (states: map<string, AgentState>)
    requires forall a, b :: 0 <= a < b < |mappings| ==> mappings[a].agentName != mappings[b].agentName
    ensures forall name :: name in states <==> (name in agents && name != "") || exists k :: 0 <= k < |mappings| && mappings[k].agentName == name
    ensures forall m <- mappings ::
              m.agentName in states && states[m.agentName] == Fold(if |m.posts| > 1000 then m.posts[..1000] else m.posts, runId, m.agentName)
    ensures forall name :: name in states && (forall m <- mappings :: m.agentName != name) ==> states[name] == Silent
  {
    states := map[];
    for i := 0 to |agents|
      invariant forall name :: name in states <==> name in agents[..i] && name != ""
      invariant forall name :: name in states ==> states[name] == Silent
    {
      if agents[i] != "" { states := states[agents[i] := Silent]; }
    }
    assert agents[..|agents|] == agents;
    for k := 0 to |mappings|
      invariant forall name :: name in states <==> (name in agents && name != "") || exists j :: 0 <= j < k && mappings[j].agentName == name
      invariant forall name :: name in states ==> states[name] == StateOf(runId, mappings[..k], name)
    {
      var agent := mappings[k].agentName;
      var posts := Window(mappings[k].posts);
      var state := if agent in states then states[agent] else Silent;
      assert mappings[..k + 1][..k] == mappings[..k];
      Unmapped(runId, mappings[..k], agent);
      state := FoldPosts(posts, runId, agent, state);
      states := states[agent := state];
    }
    assert mappings[..|mappings|] == mappings;
    MappedStates(runId, mappings);
    forall name | name in states && (forall m <- mappings :: m.agentName != name) ensures states[name] == Silent {
      Unmapped(runId, mappings, name);
    }
  }

  lemma {:induction false} MappedStates(runId: string, mappings: seq<Mapping>)
    requires forall a, b :: 0 <= a < b < |mappings| ==> mappings[a].agentName != mappings[b].agentName
    ensures forall m <- mappings :: StateOf(runId, mappings, m.agentName) == Fold(Window(m.posts), runId, m.agentName)
  {
    if |mappings| > 0 {
      var before, last := mappings[..|mappings| - 1], mappings[|mappings| - 1];
      MappedStates(runId, before);
      assert mappings == before + [last];
    }
  }

  lemma {:induction false} Unmapped(runId: string, mappings: seq<Mapping>, agent: string)
    requires forall k :: 0 <= k < |mappings| ==> mappings[k].agentName != agent
    ensures StateOf(runId, mappings, agent) == Silent
  {
    if |mappings| > 0 { Unmapped(runId, mappings[..|mappings| - 1], agent); }
  }
}
