/** The operator supervision loop: rule decisions over run snapshots, a counter of consecutive unhealthy ticks, a
    persisted restart budget with cooldown, alert deduplication, and a language model that may comment. A tick at which the
    run is not active forgets what the loop's process would forget if it were restarted, and no more: so runs with such
    ticks cover restarts of the operator itself. */
module Operator {
  import opened Options
  import Traces

  datatype Intent = Noop | EscalateGuidance | EscalateBlocked | AutoRestart | AutoStopStale | CommitReady | PRReady | ReviewFeedbackReady

  datatype Mode = Off | Assist | Auto

  datatype RunStatus = Running | Complete | OtherStatus

  /** What probing the agents' sessions of a stale-looking run shows. */
  datatype Evidence = Verified | Rejected | ProbeError

  datatype Snapshot = Snapshot(
    active: bool,
    status: RunStatus,
    guidance: bool,
    unhealthy: bool,
    aged: bool,
    evidence: Evidence,
    dirtyDiffs: bool,
    drafts: nat,
    queuedFeedback: nat)

  /** `confirmations`, `budget` and `cooldown` are positive in every accepted policy. Times are nanoseconds. */
  datatype Config = Config(
    mode: Mode,
    dryRun: bool,
    confirmations: nat,
    budget: nat,
    cooldown: int,
    gitMode: Mode,
    feedbackEnabled: bool,
    feedbackMode: Mode)

  const SECOND := 1_000_000_000

  /** Stored times keep whole seconds only. */
  function Truncated(t: int): int {
    t / SECOND * SECOND
  }

  datatype RestartState = RestartState(attempts: nat, lastRestart: int, cooldownUntil: Option<int>)

  datatype Rule = Rule(intent: Intent, execute: bool)

  /** A model reply names one of the intents, or something else. */
  datatype Reply = Known(intent: Intent) | Unknown

  datatype Tick = Tick(
    snapshot: Snapshot,
    now: int,
    reply: Option<Reply>,
    readOk: bool,
    actionOk: bool,
    rereadOk: bool,
    persistOk: bool)

  predicate UnhealthyRunning(s: Snapshot) {
    s.active && s.unhealthy && s.status == Running
  }

  /** buildOperatorRuleDecision; None stands for an error. */
  function RuleDecision(cfg: Config, s: Snapshot, now: int, consecutive: nat, stored: Option<RestartState>, readOk: bool): Option<Rule> {
    if s.guidance then Some(Rule(EscalateGuidance, false))
    else if s.aged && s.unhealthy then
      match s.evidence
      case ProbeError => None
      case Verified => Some(Rule(AutoStopStale, true))
      case Rejected => Some(Rule(Noop, false))
    else if s.unhealthy && s.status == Running then
      if consecutive < cfg.confirmations then Some(Rule(Noop, false))
      else if !readOk then None
      else if stored.Some? && stored.value.attempts >= cfg.budget then Some(Rule(EscalateBlocked, false))
      else if stored.Some? && stored.value.cooldownUntil.Some? && now < stored.value.cooldownUntil.value then Some(Rule(Noop, false))
      else Some(Rule(AutoRestart, true))
    else if s.status == Complete && cfg.gitMode != Off && s.dirtyDiffs then Some(Rule(CommitReady, cfg.gitMode == Auto))
    else if s.status == Complete && cfg.gitMode != Off && s.drafts > 0 then Some(Rule(PRReady, cfg.gitMode == Auto))
    else if s.status == Complete && cfg.feedbackEnabled && s.queuedFeedback > 0 then Some(Rule(ReviewFeedbackReady, cfg.feedbackMode == Auto))
    else Some(Rule(Noop, false))
  }

  datatype Merged = Merged(intent: Intent, execute: bool, byModel: bool)

  /** mergeOperatorDecisions. */
  function Merge(mode: Mode, rule: Rule, reply: Option<Reply>): Merged {
    if mode == Assist then Merged(rule.intent, false, false)
    else if mode == Off || reply.None? then Merged(rule.intent, rule.execute, false)
    else if rule.intent == EscalateGuidance then Merged(rule.intent, false, false)
    else if mode == Auto && rule.intent == Noop && reply.value == Known(EscalateBlocked) then Merged(EscalateBlocked, false, true)
    else Merged(rule.intent, rule.execute, false)
  }

  /** What the loop remembers of a run between ticks, and what is persisted for it. */
  datatype Memory = Memory(lastAlert: Option<Intent>, consecutive: nat, stored: Option<RestartState>)

  const Fresh := Memory(None, 0, None)

  /** The action a tick executed, if any, and whether it succeeded. */
  datatype Output = Quiet | Executed(intent: Intent, ok: bool)

  function Attempts(stored: Option<RestartState>): nat {
    if stored.Some? then stored.value.attempts else 0
  }

  function AfterRestart(cfg: Config, stored: Option<RestartState>, now: int): RestartState {
    RestartState(Attempts(stored) + 1, Truncated(now), Some(Truncated(now + cfg.cooldown)))
  }

  /** The restart state could be read again and written back. */
  predicate Persisted(tick: Tick) {
    tick.rereadOk && tick.persistOk
  }

  function Counted(s: Snapshot, consecutive: nat): nat {
    if s.unhealthy && s.status == Running then consecutive + 1 else 0
  }

  /** The rule's decision merged with the reply; None stands for an error of the rule. */
  function Decision(cfg: Config, consecutive: nat, stored: Option<RestartState>, tick: Tick): Option<Merged> {
    var rule := RuleDecision(cfg, tick.snapshot, tick.now, Counted(tick.snapshot, consecutive), stored, tick.readOk);
    if rule.None? then None else Some(Merge(cfg.mode, rule.value, tick.reply))
  }

  /** What is persisted after executing `intent`. */
  function Recorded(cfg: Config, stored: Option<RestartState>, intent: Intent, tick: Tick): Option<RestartState> {
    if tick.actionOk && intent == AutoRestart && Persisted(tick) then Some(AfterRestart(cfg, stored, tick.now)) else stored
  }

  /** One pass of the loop body over one run's snapshot. */
  function TickOnce(cfg: Config, m: Memory, tick: Tick): (Memory, Output) {
    if !tick.snapshot.active then (Memory(None, 0, m.stored), Quiet)
    else
      var counted := m.(consecutive := Counted(tick.snapshot, m.consecutive));
      var decision := Decision(cfg, m.consecutive, m.stored, tick);
      if decision.None? then (counted, Quiet)
      else if decision.value.intent == Noop then (counted.(lastAlert := None), Quiet)
      else if m.lastAlert == Some(decision.value.intent) then (counted, Quiet)
      else
        var alerted := counted.(lastAlert := Some(decision.value.intent));
        if !decision.value.execute || cfg.dryRun then (alerted, Quiet)
        else (alerted.(stored := Recorded(cfg, m.stored, decision.value.intent, tick)), Executed(decision.value.intent, tick.actionOk))
  }

  function Step(cfg: Config): (Memory, Tick) -> (Memory, Output) {
    (m: Memory, tick: Tick) => TickOnce(cfg, m, tick)
  }

  function MemoryAfter(cfg: Config, m: Memory, ticks: seq<Tick>): Memory {
    Traces.After(Step(cfg), m, ticks)
  }

  /** What tick `i` of a run executes. */
  function OutputAt(cfg: Config, m: Memory, ticks: seq<Tick>, i: nat): Output
    requires i < |ticks|
  {
    Traces.OutputAt(Step(cfg), m, ticks, i)
  }

  /** The run is restarted successfully. */
  function IsRestart(): (Tick, Output) -> bool {
    (tick: Tick, output: Output) => output == Executed(AutoRestart, true)
  }

  /** The same, and the restart's state is written back, or is not. */
  function IsRecorded(persisted: bool): (Tick, Output) -> bool {
    (tick: Tick, output: Output) => output == Executed(AutoRestart, true) && Persisted(tick) == persisted
  }

  /** Successful restarts in a run, those whose state was persisted or those whose was not. */
  function RestartCount(cfg: Config, m: Memory, ticks: seq<Tick>, persisted: bool): nat {
    Traces.Count(Step(cfg), m, ticks, IsRecorded(persisted))
  }

  function TotalRestarts(cfg: Config, m: Memory, ticks: seq<Tick>): nat {
    Traces.Count(Step(cfg), m, ticks, IsRestart())
  }

  predicate PersistedRestart(cfg: Config, ticks: seq<Tick>, k: nat)
    requires k < |ticks|
  {
    Traces.HappensAt(Step(cfg), Fresh, ticks, IsRecorded(true), k)
  }

  // ----- Accounting and budget -----

  /** Only a successful restart whose state was written changes what is persisted. */
  lemma StoredStep(cfg: Config, m: Memory, tick: Tick)
    ensures var (m', output) := TickOnce(cfg, m, tick);
            m'.stored == if output == Executed(AutoRestart, true) && Persisted(tick) then Some(AfterRestart(cfg, m.stored, tick.now)) else m.stored
  {
  }

  /** The budget is not used up and the cooldown is over. */
  predicate MayRestart(cfg: Config, stored: Option<RestartState>, now: int) {
    stored.Some? ==>
      && stored.value.attempts < cfg.budget
      && (stored.value.cooldownUntil.Some? ==> stored.value.cooldownUntil.value <= now)
  }

  /** A run is restarted exactly when it is unhealthy, corroborated, not waiting for guidance and not stale, its restart state
      can be read and allows it, the loop may act, and the alert was not already raised. */
  lemma RestartsExactly(cfg: Config, m: Memory, tick: Tick)
    ensures TickOnce(cfg, m, tick).1 == Executed(AutoRestart, tick.actionOk) <==>
              && UnhealthyRunning(tick.snapshot) && !tick.snapshot.guidance && !tick.snapshot.aged
              && m.consecutive + 1 >= cfg.confirmations && tick.readOk && MayRestart(cfg, m.stored, tick.now)
              && cfg.mode != Assist && !cfg.dryRun && m.lastAlert != Some(AutoRestart)
  {
  }

  /** Unhealthy for the configured number of ticks in a row, this one included, and neither stale nor waiting for guidance. */
  predicate Corroborated(cfg: Config, m: Memory, s: Snapshot) {
    !s.guidance && !s.aged && s.unhealthy && s.status == Running && m.consecutive + 1 >= cfg.confirmations
  }

  /** The run is complete, and neither stale nor waiting for guidance. */
  predicate Finished(s: Snapshot) {
    !s.guidance && !(s.aged && s.unhealthy) && s.status == Complete
  }

  /** What the snapshot, the counter and the stored restarts call for. */
  predicate CallsFor(cfg: Config, m: Memory, tick: Tick, intent: Intent) {
    var s := tick.snapshot;
    match intent
    case EscalateGuidance => s.guidance
    case AutoStopStale => !s.guidance && s.aged && s.unhealthy && s.evidence == Verified
    case AutoRestart => Corroborated(cfg, m, s) && tick.readOk && MayRestart(cfg, m.stored, tick.now)
    case EscalateBlocked => Corroborated(cfg, m, s) && tick.readOk && m.stored.Some? && m.stored.value.attempts >= cfg.budget
    case CommitReady => Finished(s) && cfg.gitMode != Off && s.dirtyDiffs
    case PRReady => Finished(s) && cfg.gitMode != Off && !s.dirtyDiffs && s.drafts > 0
    case ReviewFeedbackReady =>
      Finished(s) && (cfg.gitMode == Off || (!s.dirtyDiffs && s.drafts == 0)) && cfg.feedbackEnabled && s.queuedFeedback > 0
    case Noop => false
  }

  predicate CallsForNothing(cfg: Config, m: Memory, tick: Tick) {
    forall intent: Intent :: !CallsFor(cfg, m, tick, intent)
  }

  /** The evidence of a stale run, or the stored restarts of one to be restarted, cannot be read. */
  predicate Unreadable(cfg: Config, m: Memory, tick: Tick) {
    var s := tick.snapshot;
    (!s.guidance && s.aged && s.unhealthy && s.evidence == ProbeError) || (Corroborated(cfg, m, s) && !tick.readOk)
  }

  /** The policy leaves the action to the loop. */
  predicate IsAutomatic(cfg: Config, intent: Intent) {
    match intent
    case AutoStopStale => true
    case AutoRestart => true
    case CommitReady => cfg.gitMode == Auto
    case PRReady => cfg.gitMode == Auto
    case ReviewFeedbackReady => cfg.feedbackMode == Auto
    case _ => false
  }

  lemma RuleCallsFor(cfg: Config, m: Memory, tick: Tick, intent: Intent)
    ensures var rule := RuleDecision(cfg, tick.snapshot, tick.now, Counted(tick.snapshot, m.consecutive), m.stored, tick.readOk);
            && (rule.None? <==> Unreadable(cfg, m, tick))
            && (rule.Some? && intent != Noop ==> (rule.value.intent == intent <==> CallsFor(cfg, m, tick, intent)))
  {
  }

  lemma NothingCalledFor(cfg: Config, m: Memory, tick: Tick)
    ensures var rule := RuleDecision(cfg, tick.snapshot, tick.now, Counted(tick.snapshot, m.consecutive), m.stored, tick.readOk);
            rule.Some? ==> (CallsForNothing(cfg, m, tick) <==> rule.value.intent == Noop)
  {
    var rule := RuleDecision(cfg, tick.snapshot, tick.now, Counted(tick.snapshot, m.consecutive), m.stored, tick.readOk);
    forall intent: Intent ensures rule.Some? && intent != Noop ==> (rule.value.intent == intent <==> CallsFor(cfg, m, tick, intent)) {
      RuleCallsFor(cfg, m, tick, intent);
    }
    if rule.Some? && CallsForNothing(cfg, m, tick) { assert !CallsFor(cfg, m, tick, rule.value.intent); }
  }

  /** A tick executes an action exactly if the active run calls for it, the policy leaves it to the loop, the loop may act, and
      the alert was not already raised. A run is stopped, in particular, only if its staleness was verified. */
  lemma ExecutesExactly(cfg: Config, m: Memory, tick: Tick, intent: Intent)
    ensures TickOnce(cfg, m, tick).1 == Executed(intent, tick.actionOk) <==>
              && tick.snapshot.active && CallsFor(cfg, m, tick, intent) && IsAutomatic(cfg, intent)
              && cfg.mode != Assist && !cfg.dryRun && m.lastAlert != Some(intent)
  {
  }

  /** An alert stands after a tick exactly if the active run calls for it, or if what it calls for cannot be read and the alert
      stood before. A language model in automatic mode can add one: that a run which calls for nothing is blocked. */
  lemma AlertsExactly(cfg: Config, m: Memory, tick: Tick, intent: Intent)
    requires intent != Noop
    ensures TickOnce(cfg, m, tick).0.lastAlert == Some(intent) <==>
              tick.snapshot.active &&
              if Unreadable(cfg, m, tick) then m.lastAlert == Some(intent)
              else CallsFor(cfg, m, tick, intent) ||
                   (intent == EscalateBlocked && CallsForNothing(cfg, m, tick) && cfg.mode == Auto && tick.reply == Some(Known(EscalateBlocked)))
  {
    RuleCallsFor(cfg, m, tick, intent);
    NothingCalledFor(cfg, m, tick);
  }

  /** What a tick remembers: the unhealthy ticks in a row, none of a run that is not active; and of a restart that is written down,
      one attempt more, its time and the end of its cooldown to the second. */
  lemma RemembersExactly(cfg: Config, m: Memory, tick: Tick)
    ensures var (m', output) := TickOnce(cfg, m, tick);
            && m'.consecutive == (if UnhealthyRunning(tick.snapshot) then m.consecutive + 1 else 0)
            && if output != Executed(AutoRestart, true) || !Persisted(tick) then m'.stored == m.stored
               else
                 && m'.stored.Some? && m'.stored.value.attempts == (if m.stored.Some? then m.stored.value.attempts else 0) + 1
                 && m'.stored.value.lastRestart <= tick.now < m'.stored.value.lastRestart + SECOND
                 && m'.stored.value.cooldownUntil.Some?
                 && m'.stored.value.cooldownUntil.value <= tick.now + cfg.cooldown < m'.stored.value.cooldownUntil.value + SECOND
                 && m'.stored.value.lastRestart % SECOND == 0 && m'.stored.value.cooldownUntil.value % SECOND == 0
  {
    StoredStep(cfg, m, tick);
    TruncatedMeaning(tick.now);
    TruncatedMeaning(tick.now + cfg.cooldown);
  }

  lemma RestartGuard(cfg: Config, m: Memory, tick: Tick)
    requires TickOnce(cfg, m, tick).1.Executed? && TickOnce(cfg, m, tick).1.intent == AutoRestart
    ensures UnhealthyRunning(tick.snapshot) && m.consecutive + 1 >= cfg.confirmations && MayRestart(cfg, m.stored, tick.now)
  {
    RestartsExactly(cfg, m, tick);
  }

  /** The persisted attempts are the persisted restarts, and stay within the budget. */
  lemma {:induction false} BudgetHolds(cfg: Config, ticks: seq<Tick>)
    requires cfg.budget > 0
    ensures Attempts(MemoryAfter(cfg, Fresh, ticks).stored) == RestartCount(cfg, Fresh, ticks, true)
    ensures RestartCount(cfg, Fresh, ticks, true) <= cfg.budget
  {
    if |ticks| > 0 {
      var before := ticks[..|ticks| - 1];
      BudgetHolds(cfg, before);
      BudgetStep(cfg, MemoryAfter(cfg, Fresh, before), ticks[|ticks| - 1]);
    }
  }

  lemma BudgetStep(cfg: Config, m: Memory, tick: Tick)
    ensures var (m', output) := TickOnce(cfg, m, tick);
            Attempts(m'.stored) == Attempts(m.stored) + if output == Executed(AutoRestart, true) && Persisted(tick) then 1 else 0
    ensures cfg.budget > 0 && Attempts(m.stored) <= cfg.budget ==> Attempts(TickOnce(cfg, m, tick).0.stored) <= cfg.budget
  {
    StoredStep(cfg, m, tick);
    if TickOnce(cfg, m, tick).1 == Executed(AutoRestart, true) { RestartGuard(cfg, m, tick); }
  }

  lemma {:induction false} TotalIsBoth(cfg: Config, m: Memory, ticks: seq<Tick>)
    ensures TotalRestarts(cfg, m, ticks) == RestartCount(cfg, m, ticks, true) + RestartCount(cfg, m, ticks, false)
  {
    if |ticks| > 0 { TotalIsBoth(cfg, m, ticks[..|ticks| - 1]); }
  }

  /** All restarts are the attempts on record and those whose record was lost. */
  lemma RestartsAccounted(cfg: Config, ticks: seq<Tick>)
    requires cfg.budget > 0
    ensures TotalRestarts(cfg, Fresh, ticks) ==
            Attempts(MemoryAfter(cfg, Fresh, ticks).stored) + RestartCount(cfg, Fresh, ticks, false)
  {
    TotalIsBoth(cfg, Fresh, ticks);
    BudgetHolds(cfg, ticks);
  }

  predicate AllPersisted(ticks: seq<Tick>) {
    forall i :: 0 <= i < |ticks| ==> Persisted(ticks[i])
  }

  lemma {:induction false} PersistedLosesNone(cfg: Config, m: Memory, ticks: seq<Tick>)
    requires AllPersisted(ticks)
    ensures RestartCount(cfg, m, ticks, false) == 0
  {
    if |ticks| > 0 { PersistedLosesNone(cfg, m, ticks[..|ticks| - 1]); }
  }

  /** With a store that never fails no restart goes uncounted, so there are never more than the budget allows. */
  lemma RestartsBounded(cfg: Config, ticks: seq<Tick>)
    requires cfg.budget > 0 && AllPersisted(ticks)
    ensures TotalRestarts(cfg, Fresh, ticks) <= cfg.budget
  {
    BudgetHolds(cfg, ticks);
    PersistedLosesNone(cfg, Fresh, ticks);
    TotalIsBoth(cfg, Fresh, ticks);
  }

  // ----- How a restart comes about -----

  /** The loop executes what its rules decide. */
  predicate Acts(cfg: Config) {
    cfg.mode != Assist && !cfg.dryRun
  }

  function UnhealthyAt(now: int): Tick {
    Tick(Snapshot(true, Running, false, true, false, Rejected, false, 0, 0), now, None, true, true, true, true)
  }

  function HealthyAt(now: int): Tick {
    Tick(Snapshot(true, Running, false, false, false, Rejected, false, 0, 0), now, None, true, true, true, true)
  }

  /** A healthy tick, and unhealthy ones until one more would be a corroborated one. */
  function Approach(now: int, unhealthy: nat): seq<Tick> {
    if unhealthy == 0 then [HealthyAt(now)] else Approach(now, unhealthy - 1) + [UnhealthyAt(now)]
  }

  function Uncorroborated(cfg: Config): nat {
    if cfg.confirmations == 0 then 0 else cfg.confirmations - 1
  }

  lemma HealthyTick(cfg: Config, m: Memory, now: int)
    ensures TickOnce(cfg, m, HealthyAt(now)) == (Memory(None, 0, m.stored), Quiet)
  {
  }

  lemma UnhealthyTick(cfg: Config, m: Memory, now: int)
    requires m.consecutive + 1 < cfg.confirmations
    ensures TickOnce(cfg, m, UnhealthyAt(now)) == (Memory(None, m.consecutive + 1, m.stored), Quiet)
  {
  }

  lemma RestartingTick(cfg: Config, m: Memory, now: int)
    requires Acts(cfg) && m.lastAlert == None && m.consecutive + 1 >= cfg.confirmations && MayRestart(cfg, m.stored, now)
    ensures TickOnce(cfg, m, UnhealthyAt(now)).1 == Executed(AutoRestart, true)
    ensures TickOnce(cfg, m, UnhealthyAt(now)).0.stored == Some(AfterRestart(cfg, m.stored, now))
  {
    RestartsExactly(cfg, m, UnhealthyAt(now));
    StoredStep(cfg, m, UnhealthyAt(now));
  }

  /** An approach is quiet: it leaves what is stored alone and executes nothing. */
  lemma {:induction false} ApproachQuiet(cfg: Config, m: Memory, now: int, n: nat, kind: (Tick, Output) -> bool)
    requires n <= Uncorroborated(cfg) && !kind(HealthyAt(now), Quiet) && !kind(UnhealthyAt(now), Quiet)
    ensures MemoryAfter(cfg, m, Approach(now, n)) == Memory(None, n, m.stored)
    ensures Traces.Never(Step(cfg), m, Approach(now, n), kind, 0, |Approach(now, n)|)
  {
    if n == 0 {
      HealthyTick(cfg, m, now);
      QuietTick(cfg, m, [], HealthyAt(now), kind);
      assert [] + [HealthyAt(now)] == [HealthyAt(now)];
    } else {
      var before := Approach(now, n - 1);
      ApproachQuiet(cfg, m, now, n - 1, kind);
      UnhealthyTick(cfg, Memory(None, n - 1, m.stored), now);
      QuietTick(cfg, m, before, UnhealthyAt(now), kind);
    }
  }

  lemma {:induction false} ApproachPersisted(now: int, n: nat)
    ensures AllPersisted(Approach(now, n))
  {
    if n > 0 { ApproachPersisted(now, n - 1); }
  }

  lemma QuietTick(cfg: Config, m: Memory, before: seq<Tick>, tick: Tick, kind: (Tick, Output) -> bool)
    requires Traces.Never(Step(cfg), m, before, kind, 0, |before|)
    requires TickOnce(cfg, MemoryAfter(cfg, m, before), tick).1 == Quiet && !kind(tick, Quiet)
    ensures Traces.Never(Step(cfg), m, before + [tick], kind, 0, |before + [tick]|)
    ensures MemoryAfter(cfg, m, before + [tick]) == TickOnce(cfg, MemoryAfter(cfg, m, before), tick).0
  {
    assert (before + [tick])[..|before|] == before;
    forall k: nat | k < |before + [tick]|
      ensures !Traces.HappensAt(Step(cfg), m, before + [tick], kind, k)
    {
      if k < |before| {
        Traces.OutputPrefix(Step(cfg), m, before, [tick], k);
        assert !Traces.HappensAt(Step(cfg), m, before, kind, k);
      }
    }
  }

  /** An approach, and the unhealthy tick after it. */
  function ToRestart(cfg: Config, now: int): seq<Tick> {
    Approach(now, Uncorroborated(cfg)) + [UnhealthyAt(now)]
  }

  /** From any memory it leads to a restart, if the stored state allows one by then. */
  lemma LeadsToRestart(cfg: Config, m: Memory, now: int, kind: (Tick, Output) -> bool)
    requires Acts(cfg) && MayRestart(cfg, m.stored, now) && !kind(HealthyAt(now), Quiet) && !kind(UnhealthyAt(now), Quiet)
    ensures Traces.LeadsTo(Step(cfg), m, ToRestart(cfg, now), kind, IsRestart())
    ensures AllPersisted(ToRestart(cfg, now)) && ToRestart(cfg, now)[|ToRestart(cfg, now)| - 1].now == now
    ensures MemoryAfter(cfg, m, ToRestart(cfg, now)).stored == Some(AfterRestart(cfg, m.stored, now))
  {
    var approach := Approach(now, Uncorroborated(cfg));
    ApproachQuiet(cfg, m, now, Uncorroborated(cfg), kind);
    ApproachPersisted(now, Uncorroborated(cfg));
    RestartingTick(cfg, MemoryAfter(cfg, m, approach), now);
    Traces.ApproachLeads(Step(cfg), m, approach, UnhealthyAt(now), kind, IsRestart());
    assert ToRestart(cfg, now)[..|approach|] == approach;
  }

  // ----- The budget, when writes are lost -----

  lemma OneRecordedRestart(cfg: Config, m: Memory, now: int)
    requires Acts(cfg) && MayRestart(cfg, m.stored, now)
    ensures RestartCount(cfg, m, ToRestart(cfg, now), true) == 1
  {
    var approach, ticks := Approach(now, Uncorroborated(cfg)), ToRestart(cfg, now);
    ApproachQuiet(cfg, m, now, Uncorroborated(cfg), IsRecorded(true));
    Traces.NeverCountsNothing(Step(cfg), m, approach, IsRecorded(true));
    RestartingTick(cfg, MemoryAfter(cfg, m, approach), now);
    assert ticks[..|ticks| - 1] == approach;
  }

  /** With every write succeeding, what is left of the budget can be used up. */
  lemma {:induction false} BudgetCanBeUsed(cfg: Config, m: Memory, n: nat) returns (more: seq<Tick>)
    requires Acts(cfg) && Attempts(m.stored) + n <= cfg.budget
    ensures AllPersisted(more) && RestartCount(cfg, m, more, true) == n
    decreases n
  {
    if n == 0 {
      more := [];
    } else {
      var now := if m.stored.Some? && m.stored.value.cooldownUntil.Some? then m.stored.value.cooldownUntil.value else 0;
      var first := ToRestart(cfg, now);
      LeadsToRestart(cfg, m, now, IsRestart());
      OneRecordedRestart(cfg, m, now);
      var rest := BudgetCanBeUsed(cfg, MemoryAfter(cfg, m, first), n - 1);
      more := first + rest;
      Traces.CountConcat(Step(cfg), m, first, rest, IsRecorded(true));
    }
  }

  /** Exactly when restarts outrun the budget: some continuation whose writes all succeed has more restarts than the budget in
      all, if and only if the record of a restart was lost before. */
  lemma BudgetExceededExactly(cfg: Config, ticks: seq<Tick>)
    requires Acts(cfg) && cfg.budget > 0
    ensures (exists more: seq<Tick> :: AllPersisted(more) && TotalRestarts(cfg, Fresh, ticks + more) > cfg.budget) <==>
            RestartCount(cfg, Fresh, ticks, false) > 0
  {
    var m := MemoryAfter(cfg, Fresh, ticks);
    BudgetHolds(cfg, ticks);
    if RestartCount(cfg, Fresh, ticks, false) > 0 {
      var more := BudgetCanBeUsed(cfg, m, cfg.budget - Attempts(m.stored));
      CountsAfter(cfg, ticks, more);
    } else {
      forall more: seq<Tick> | AllPersisted(more)
        ensures TotalRestarts(cfg, Fresh, ticks + more) <= cfg.budget
      {
        CountsAfter(cfg, ticks, more);
        BudgetHolds(cfg, ticks + more);
      }
    }
  }

  lemma CountsAfter(cfg: Config, ticks: seq<Tick>, more: seq<Tick>)
    requires AllPersisted(more)
    ensures RestartCount(cfg, Fresh, ticks + more, false) == RestartCount(cfg, Fresh, ticks, false)
    ensures RestartCount(cfg, Fresh, ticks + more, true) ==
            RestartCount(cfg, Fresh, ticks, true) + RestartCount(cfg, MemoryAfter(cfg, Fresh, ticks), more, true)
    ensures TotalRestarts(cfg, Fresh, ticks + more) ==
            RestartCount(cfg, Fresh, ticks + more, true) + RestartCount(cfg, Fresh, ticks + more, false)
  {
    Traces.CountConcat(Step(cfg), Fresh, ticks, more, IsRecorded(true));
    Traces.CountConcat(Step(cfg), Fresh, ticks, more, IsRecorded(false));
    PersistedLosesNone(cfg, MemoryAfter(cfg, Fresh, ticks), more);
    TotalIsBoth(cfg, Fresh, ticks + more);
  }

  /** It happens: with a budget of one, a restart whose record is lost, a healthy tick, and another restart. */
  lemma BudgetExceeded()
    ensures var cfg := Config(Off, false, 1, 1, 60 * SECOND, Off, false, Off);
            var ticks := [UnhealthyAt(0).(persistOk := false), HealthyAt(1), UnhealthyAt(2)];
            TotalRestarts(cfg, Fresh, ticks) == 2 > cfg.budget
  {
    var cfg := Config(Off, false, 1, 1, 60 * SECOND, Off, false, Off);
    var ticks := [UnhealthyAt(0).(persistOk := false), HealthyAt(1), UnhealthyAt(2)];
    assert MemoryAfter(cfg, Fresh, ticks[..0]) == Fresh;
    assert TickOnce(cfg, Fresh, ticks[0]) == (Memory(Some(AutoRestart), 1, None), Executed(AutoRestart, true));
    Traces.AfterOne(Step(cfg), Fresh, ticks, 0);
    Traces.AfterOne(Step(cfg), Fresh, ticks, 1);
    assert MemoryAfter(cfg, Fresh, ticks[..2]) == Memory(None, 0, None);
    assert ticks[..2][..1] == ticks[..1] && ticks[..1][..0] == ticks[..0];
    assert TotalRestarts(cfg, Fresh, ticks[..0]) == 0;
    assert TotalRestarts(cfg, Fresh, ticks[..1]) == 1;
    assert TotalRestarts(cfg, Fresh, ticks[..2]) == 1;
  }

  // ----- Cooldown -----

  /** After a restart that was recorded, the next one is allowed from its time and the cooldown together, cut to whole seconds,
      on, as long as the budget is not used up. */
  lemma MayRestartAfter(cfg: Config, m: Memory, tick: Tick, now: int)
    requires TickOnce(cfg, m, tick).1 == Executed(AutoRestart, true) && Persisted(tick)
    ensures var stored := TickOnce(cfg, m, tick).0.stored;
            MayRestart(cfg, stored, now) <==> Truncated(tick.now + cfg.cooldown) <= now && Attempts(stored) < cfg.budget
  {
    StoredStep(cfg, m, tick);
  }

  /** Only a recorded restart changes what is stored. */
  lemma OnlyRecordsChange(cfg: Config)
    ensures Traces.OnlyChanges(Step(cfg), IsRecorded(true), (m: Memory) => m.stored)
  {
    forall m: Memory, tick: Tick
      ensures !IsRecorded(true)(tick, Step(cfg)(m, tick).1) ==> Step(cfg)(m, tick).0.stored == m.stored
    {
      StoredStep(cfg, m, tick);
    }
  }

  /** From memory `m`, the ticks end with a restart and record none before. */
  ghost predicate NextRestart(cfg: Config, m: Memory, ticks: seq<Tick>) {
    Traces.LeadsTo(Step(cfg), m, ticks, IsRecorded(true), IsRestart())
  }

  lemma NextRestartNeeds(cfg: Config, m: Memory, ticks: seq<Tick>)
    requires NextRestart(cfg, m, ticks)
    ensures MayRestart(cfg, m.stored, ticks[|ticks| - 1].now)
  {
    OnlyRecordsChange(cfg);
    Traces.LeadsKeepPart(Step(cfg), m, ticks, IsRecorded(true), IsRestart(), (m: Memory) => m.stored);
    RestartGuard(cfg, MemoryAfter(cfg, m, ticks[..|ticks| - 1]), ticks[|ticks| - 1]);
  }

  /** From any memory the next restart can come at `now` if and only if the stored state allows it then. */
  lemma NextRestartExactly(cfg: Config, m: Memory, now: int)
    requires Acts(cfg)
    ensures (exists ticks: seq<Tick> :: NextRestart(cfg, m, ticks) && ticks[|ticks| - 1].now == now) <==> MayRestart(cfg, m.stored, now)
  {
    if MayRestart(cfg, m.stored, now) {
      LeadsToRestart(cfg, m, now, IsRecorded(true));
      assert NextRestart(cfg, m, ToRestart(cfg, now));
    }
    forall ticks: seq<Tick> | NextRestart(cfg, m, ticks) && ticks[|ticks| - 1].now == now
      ensures MayRestart(cfg, m.stored, now)
    {
      NextRestartNeeds(cfg, m, ticks);
    }
  }

  /** After a recorded restart the next one can come before the cooldown is over exactly when the cooldown does not end on a
      whole second and the budget is not used up. */
  lemma CooldownShortExactly(cfg: Config, m: Memory, tick: Tick)
    requires Acts(cfg) && TickOnce(cfg, m, tick).1 == Executed(AutoRestart, true) && Persisted(tick)
    ensures var after := TickOnce(cfg, m, tick).0;
            (exists ticks: seq<Tick> :: NextRestart(cfg, after, ticks) && ticks[|ticks| - 1].now - tick.now < cfg.cooldown) <==>
            (tick.now + cfg.cooldown) % SECOND != 0 && Attempts(after.stored) < cfg.budget
  {
    var after, end := TickOnce(cfg, m, tick).0, tick.now + cfg.cooldown;
    TruncatedMeaning(end);
    MayRestartAfter(cfg, m, tick, Truncated(end));
    NextRestartExactly(cfg, after, Truncated(end));
    forall ticks: seq<Tick> | NextRestart(cfg, after, ticks) && ticks[|ticks| - 1].now - tick.now < cfg.cooldown
      ensures Truncated(end) < end && Attempts(after.stored) < cfg.budget
    {
      NextRestartNeeds(cfg, after, ticks);
      MayRestartAfter(cfg, m, tick, ticks[|ticks| - 1].now);
    }
  }

  lemma TruncatedMeaning(t: int)
    ensures Truncated(t) <= t < Truncated(t) + SECOND && Truncated(t) % SECOND == 0 && (Truncated(t) == t <==> t % SECOND == 0)
  {
  }

  /** In any run, consecutive persisted restarts are more than the cooldown less one second apart, whatever the clock does in
      between. */
  lemma RestartsAreSpaced(cfg: Config, ticks: seq<Tick>, i: nat, j: nat)
    requires i < j < |ticks| && PersistedRestart(cfg, ticks, i)
    requires Traces.Never(Step(cfg), Fresh, ticks, IsRecorded(true), i + 1, j)
    requires Traces.HappensAt(Step(cfg), Fresh, ticks, IsRestart(), j)
    ensures ticks[j].now - ticks[i].now > cfg.cooldown - SECOND
  {
    OnlyRecordsChange(cfg);
    Traces.PartStays(Step(cfg), Fresh, ticks, IsRecorded(true), (m: Memory) => m.stored, i + 1, j);
    Traces.AfterOne(Step(cfg), Fresh, ticks, i);
    MayRestartAfter(cfg, MemoryAfter(cfg, Fresh, ticks[..i]), ticks[i], ticks[j].now);
    RestartGuard(cfg, MemoryAfter(cfg, Fresh, ticks[..j]), ticks[j]);
    TruncatedMeaning(ticks[i].now + cfg.cooldown);
  }

  /** The bound is tight: with a cooldown of a minute, a restart at the last instant of a second is followed by another one a
      nanosecond more than 59 seconds later. */
  lemma CooldownFallsShort()
    ensures var cfg := Config(Off, false, 1, 2, 60 * SECOND, Off, false, Off);
            var ticks := [UnhealthyAt(2 * SECOND - 1), UnhealthyAt(60 * SECOND), UnhealthyAt(61 * SECOND)];
            && OutputAt(cfg, Fresh, ticks, 0) == OutputAt(cfg, Fresh, ticks, 2) == Executed(AutoRestart, true)
            && ticks[2].now - ticks[0].now == cfg.cooldown - SECOND + 1
  {
    var cfg := Config(Off, false, 1, 2, 60 * SECOND, Off, false, Off);
    var ticks := [UnhealthyAt(2 * SECOND - 1), UnhealthyAt(60 * SECOND), UnhealthyAt(61 * SECOND)];
    assert MemoryAfter(cfg, Fresh, ticks[..0]) == Fresh;
    assert ticks[..1][..0] == ticks[..0] && ticks[..2][..1] == ticks[..1];
    var first := MemoryAfter(cfg, Fresh, ticks[..1]);
    assert first == Memory(Some(AutoRestart), 1, Some(RestartState(1, 1 * SECOND, Some(61 * SECOND))));
    assert MemoryAfter(cfg, Fresh, ticks[..2]) == Memory(None, 2, first.stored);
  }

  // ----- Corroboration -----

  lemma {:induction false} CounterCounts(cfg: Config, ticks: seq<Tick>)
    ensures var c := MemoryAfter(cfg, Fresh, ticks).consecutive;
            c <= |ticks| && forall k :: |ticks| - c <= k < |ticks| ==> UnhealthyRunning(ticks[k].snapshot)
  {
    if |ticks| > 0 {
      var before := ticks[..|ticks| - 1];
      CounterCounts(cfg, before);
      assert forall k :: 0 <= k < |before| ==> before[k] == ticks[k];
    }
  }

  /** Every restart ends at least `confirmations` consecutive ticks at which the run was active, running and unhealthy. */
  lemma RestartsAreCorroborated(cfg: Config, ticks: seq<Tick>, j: nat)
    requires j < |ticks| && OutputAt(cfg, Fresh, ticks, j).Executed? && OutputAt(cfg, Fresh, ticks, j).intent == AutoRestart
    ensures cfg.confirmations <= j + 1
    ensures forall k :: j + 1 - cfg.confirmations <= k <= j ==> UnhealthyRunning(ticks[k].snapshot)
  {
    CounterCounts(cfg, ticks[..j]);
    var c := MemoryAfter(cfg, Fresh, ticks[..j]).consecutive;
    assert forall k :: 0 <= k < j ==> ticks[..j][k] == ticks[k];
    RestartGuard(cfg, MemoryAfter(cfg, Fresh, ticks[..j]), ticks[j]);
  }

  // ----- The model cannot act -----

  /** The merge executes only what the rule executes, and exactly what it would without a reply. */
  lemma MergeExecutesRuleOnly(mode: Mode, rule: Rule, reply: Option<Reply>)
    requires rule.intent == EscalateGuidance || rule.intent == Noop ==> !rule.execute
    ensures var merged := Merge(mode, rule, reply);
            && merged.execute == Merge(mode, rule, None).execute
            && (merged.execute ==> rule.execute && merged.intent == rule.intent && !merged.byModel)
            && (merged.intent != rule.intent ==> rule.intent == Noop && merged.intent == EscalateBlocked && !merged.execute)
  {
  }

  /** The same ticks, up to what the model said. */
  predicate SameButReplies(a: seq<Tick>, b: seq<Tick>) {
    |a| == |b| && forall i :: 0 <= i < |a| ==> a[i].(reply := b[i].reply) == b[i]
  }

  /** Alerts that may differ: none, or one raised by the model. */
  predicate AlertsAgree(x: Option<Intent>, y: Option<Intent>) {
    x == y || (x in {None, Some(EscalateBlocked)} && y in {None, Some(EscalateBlocked)})
  }

  /** Memories a reply cannot be told from: they persist and count alike, and their alerts agree. */
  predicate Agree(m: Memory, n: Memory) {
    m.consecutive == n.consecutive && m.stored == n.stored && AlertsAgree(m.lastAlert, n.lastAlert)
  }

  /** Decisions that differ at most in an alert raised by the model. */
  predicate DecisionsAgree(x: Option<Merged>, y: Option<Merged>) {
    && (x.Some? <==> y.Some?)
    && (x.Some? ==>
          x.value.execute == y.value.execute &&
          (x.value.intent == y.value.intent ||
           (!x.value.execute && {x.value.intent, y.value.intent} <= {Noop, EscalateBlocked})))
  }

  lemma DecisionIgnoresReply(cfg: Config, consecutive: nat, stored: Option<RestartState>, a: Tick, b: Tick)
    requires a.(reply := b.reply) == b
    ensures var x, y := Decision(cfg, consecutive, stored, a), Decision(cfg, consecutive, stored, b);
            DecisionsAgree(x, y) && (x.Some? && x.value.execute ==> x.value.intent !in {Noop, EscalateBlocked})
  {
  }

  lemma TickNonInterference(cfg: Config, m: Memory, n: Memory, a: Tick, b: Tick)
    requires a.(reply := b.reply) == b && Agree(m, n)
    ensures TickOnce(cfg, m, a).1 == TickOnce(cfg, n, b).1
    ensures Agree(TickOnce(cfg, m, a).0, TickOnce(cfg, n, b).0)
  {
    DecisionIgnoresReply(cfg, m.consecutive, m.stored, a, b);
  }

  lemma {:induction false} MemoriesAgree(cfg: Config, a: seq<Tick>, b: seq<Tick>)
    requires SameButReplies(a, b)
    ensures Agree(MemoryAfter(cfg, Fresh, a), MemoryAfter(cfg, Fresh, b))
  {
    if |a| > 0 {
      var last := |a| - 1;
      MemoriesAgree(cfg, a[..last], b[..last]);
      TickNonInterference(cfg, MemoryAfter(cfg, Fresh, a[..last]), MemoryAfter(cfg, Fresh, b[..last]), a[last], b[last]);
    }
  }

  /** Non-interference over whole runs: two runs that differ only in the model's replies execute the same actions at the
      same ticks and persist the same state. */
  lemma ModelNeverActs(cfg: Config, a: seq<Tick>, b: seq<Tick>)
    requires SameButReplies(a, b)
    ensures forall i :: 0 <= i < |a| ==> OutputAt(cfg, Fresh, a, i) == OutputAt(cfg, Fresh, b, i)
    ensures MemoryAfter(cfg, Fresh, a).stored == MemoryAfter(cfg, Fresh, b).stored
  {
    MemoriesAgree(cfg, a, b);
    forall i | 0 <= i < |a|
      ensures OutputAt(cfg, Fresh, a, i) == OutputAt(cfg, Fresh, b, i)
    {
      MemoriesAgree(cfg, a[..i], b[..i]);
      TickNonInterference(cfg, MemoryAfter(cfg, Fresh, a[..i]), MemoryAfter(cfg, Fresh, b[..i]), a[i], b[i]);
    }
  }

  /** In assist mode, and in a dry run, nothing is ever executed. */
  lemma ObserversDoNothing(cfg: Config, m: Memory, tick: Tick)
    requires cfg.mode == Assist || cfg.dryRun
    ensures TickOnce(cfg, m, tick).1 == Quiet && TickOnce(cfg, m, tick).0.stored == m.stored
  {
  }

  // ----- Deduplication -----

  /** The decision at tick `k` is to restart the active run. */
  predicate WantsRestart(cfg: Config, ticks: seq<Tick>, k: nat)
    requires k < |ticks|
  {
    var m := MemoryAfter(cfg, Fresh, ticks[..k]);
    ticks[k].snapshot.active && Decision(cfg, m.consecutive, m.stored, ticks[k]) == Some(Merged(AutoRestart, true, false))
  }

  lemma RepeatIsQuiet(cfg: Config, m: Memory, tick: Tick)
    requires m.lastAlert == Some(AutoRestart) && tick.snapshot.active
    requires Decision(cfg, m.consecutive, m.stored, tick) == Some(Merged(AutoRestart, true, false))
    ensures TickOnce(cfg, m, tick).1 == Quiet && TickOnce(cfg, m, tick).0.lastAlert == Some(AutoRestart)
  {
  }

  lemma ExecutionAlerts(cfg: Config, m: Memory, tick: Tick)
    requires TickOnce(cfg, m, tick).1.Executed?
    ensures TickOnce(cfg, m, tick).0.lastAlert == Some(TickOnce(cfg, m, tick).1.intent)
  {
  }

  /** The decision is to restart at every tick after `i` up to `j`. */
  predicate KeepsWanting(cfg: Config, ticks: seq<Tick>, i: nat, j: nat)
    requires j < |ticks|
  {
    forall k: nat :: i < k <= j ==> WantsRestart(cfg, ticks, k)
  }

  lemma AlertStep(cfg: Config, ticks: seq<Tick>, j: nat)
    requires 0 < j <= |ticks| && WantsRestart(cfg, ticks, j - 1)
    requires MemoryAfter(cfg, Fresh, ticks[..j - 1]).lastAlert == Some(AutoRestart)
    ensures MemoryAfter(cfg, Fresh, ticks[..j]).lastAlert == Some(AutoRestart)
  {
    Traces.AfterOne(Step(cfg), Fresh, ticks, j - 1);
    RepeatIsQuiet(cfg, MemoryAfter(cfg, Fresh, ticks[..j - 1]), ticks[j - 1]);
  }

  lemma AlertBegins(cfg: Config, ticks: seq<Tick>, i: nat)
    requires i < |ticks| && OutputAt(cfg, Fresh, ticks, i) == Executed(AutoRestart, false)
    ensures MemoryAfter(cfg, Fresh, ticks[..i + 1]).lastAlert == Some(AutoRestart)
  {
    Traces.AfterOne(Step(cfg), Fresh, ticks, i);
    ExecutionAlerts(cfg, MemoryAfter(cfg, Fresh, ticks[..i]), ticks[i]);
  }

  /** The alert stays raised for as long as the decision stays the same. */
  lemma {:induction false} AlertStays(cfg: Config, ticks: seq<Tick>, i: nat, j: nat)
    requires i < j < |ticks| && MemoryAfter(cfg, Fresh, ticks[..i + 1]).lastAlert == Some(AutoRestart)
    requires KeepsWanting(cfg, ticks, i, j)
    ensures MemoryAfter(cfg, Fresh, ticks[..j]).lastAlert == Some(AutoRestart)
    decreases j
  {
    if j > i + 1 {
      AlertStays(cfg, ticks, i, j - 1);
      AlertStep(cfg, ticks, j);
    }
  }

  lemma WantedIsQuiet(cfg: Config, ticks: seq<Tick>, j: nat)
    requires j < |ticks| && WantsRestart(cfg, ticks, j) && MemoryAfter(cfg, Fresh, ticks[..j]).lastAlert == Some(AutoRestart)
    ensures OutputAt(cfg, Fresh, ticks, j) == Quiet
  {
    RepeatIsQuiet(cfg, MemoryAfter(cfg, Fresh, ticks[..j]), ticks[j]);
  }

  /** A restart that fails is not tried again while the decision stays the same: the alert was already raised. */
  lemma FailedRestartNotRetried(cfg: Config, ticks: seq<Tick>, i: nat, j: nat)
    requires i < j < |ticks| && OutputAt(cfg, Fresh, ticks, i) == Executed(AutoRestart, false)
    requires KeepsWanting(cfg, ticks, i, j)
    ensures OutputAt(cfg, Fresh, ticks, j) == Quiet
  {
    AlertBegins(cfg, ticks, i);
    AlertStays(cfg, ticks, i, j);
    WantedIsQuiet(cfg, ticks, j);
  }

  // ----- The loop's own state -----

  /** The loop's maps, keyed by run, and the persisted operator_run_states table. */
  class Supervisor {
    const cfg: Config
    var lastAlertByRun: map<string, Intent>
    var consecutiveUnhealthyByRun: map<string, nat>
    var operatorRunStates: map<string, RestartState>

    ghost function MemoryOf(run: string): Memory
      reads this
    {
      Memory(if run in lastAlertByRun then Some(lastAlertByRun[run]) else None,
             if run in consecutiveUnhealthyByRun then consecutiveUnhealthyByRun[run] else 0,
             if run in operatorRunStates then Some(operatorRunStates[run]) else None)
    }

    constructor (cfg: Config)
      ensures this.cfg == cfg && forall run :: MemoryOf(run) == Fresh
    {
      this.cfg := cfg;
      lastAlertByRun, consecutiveUnhealthyByRun, operatorRunStates := map[], map[], map[];
    }

    method Forget(run: string)
      modifies this`lastAlertByRun, this`consecutiveUnhealthyByRun
      ensures MemoryOf(run) == Memory(None, 0, old(MemoryOf(run).stored))
      ensures forall other :: other != run ==> MemoryOf(other) == old(MemoryOf(other))
    {
      lastAlertByRun := lastAlertByRun - {run};
      consecutiveUnhealthyByRun := consecutiveUnhealthyByRun - {run};
    }

    method Count(run: string, s: Snapshot) returns (count: nat)
      modifies this`consecutiveUnhealthyByRun
      ensures count == Counted(s, old(MemoryOf(run).consecutive))
      ensures MemoryOf(run) == old(MemoryOf(run)).(consecutive := count)
      ensures forall other :: other != run ==> MemoryOf(other) == old(MemoryOf(other))
    {
      count := if run in consecutiveUnhealthyByRun then consecutiveUnhealthyByRun[run] else 0;
      count := if s.unhealthy && s.status == Running then count + 1 else 0;
      consecutiveUnhealthyByRun := consecutiveUnhealthyByRun[run := count];
    }

    method Alert(run: string, alert: Option<Intent>)
      modifies this`lastAlertByRun
      ensures MemoryOf(run) == old(MemoryOf(run)).(lastAlert := alert)
      ensures forall other :: other != run ==> MemoryOf(other) == old(MemoryOf(other))
    {
      lastAlertByRun := if alert.None? then lastAlertByRun - {run} else lastAlertByRun[run := alert.value];
    }

    /** Counts a successful restart, if the state can be read and written. */
    method RecordRestart(run: string, tick: Tick)
      modifies this`operatorRunStates
      ensures MemoryOf(run) == old(MemoryOf(run)).(stored :=
                if Persisted(tick) then Some(AfterRestart(cfg, old(MemoryOf(run).stored), tick.now)) else old(MemoryOf(run).stored))
      ensures forall other :: other != run ==> MemoryOf(other) == old(MemoryOf(other))
    {
      if tick.rereadOk {
        var attempts := if run in operatorRunStates then operatorRunStates[run].attempts else 0;
        var state := RestartState(attempts + 1, Truncated(tick.now), Some(Truncated(tick.now + cfg.cooldown)));
        if tick.persistOk { operatorRunStates := operatorRunStates[run := state]; }
      }
    }

    /** The loop body for one snapshot: this run moves as `TickOnce` says, every other run is left alone. */
    method Observe(run: string, tick: Tick) returns (output: Output)
      modifies this
      ensures (MemoryOf(run), output) == TickOnce(cfg, old(MemoryOf(run)), tick)
      ensures forall other :: other != run ==> MemoryOf(other) == old(MemoryOf(other))
    {
      ghost var m := MemoryOf(run);
      var s := tick.snapshot;
      if !s.active {
        Forget(run);
        return Quiet;
      }
      var count := Count(run, s);
      var stored := if run in operatorRunStates then Some(operatorRunStates[run]) else None;
      var rule := RuleDecision(cfg, s, tick.now, count, stored, tick.readOk);
      if rule.None? { return Quiet; }
      var merged := Merge(cfg.mode, rule.value, tick.reply);
      assert Decision(cfg, m.consecutive, m.stored, tick) == Some(merged);
      if merged.intent == Noop {
        Alert(run, None);
        return Quiet;
      }
      if run in lastAlertByRun && lastAlertByRun[run] == merged.intent { return Quiet; }
      Alert(run, Some(merged.intent));
      if !merged.execute || cfg.dryRun { return Quiet; }
      if tick.actionOk && merged.intent == AutoRestart { RecordRestart(run, tick); }
      return Executed(merged.intent, tick.actionOk);
    }
  }
}
