/** The run and step transition tables: the specification of a legal status change. */
module Hsm {

  datatype RunStatus = Created | Planning | Running | AwaitingGuidance | Paused | Failed | Stopping | Stopped | Complete | Closing | Closed

  datatype StepStatus = StepPending | StepRunning | StepDone | StepFailed | StepSkipped

  function RunSuccessors(from: RunStatus): set<RunStatus> {
    match from
    case Created => {Planning}
    case Planning => {Running, Paused, Failed, Stopping}
    case Running => {AwaitingGuidance, Paused, Failed, Complete, Stopping}
    case AwaitingGuidance => {Running, Failed, Stopping}
    case Paused => {Running, Stopping}
    case Failed => {Running, Stopping}
    case Stopping => {Stopped}
    case Stopped => {Running}
    case Complete => {Closing, Running}
    case Closing => {Closed, Failed}
    case Closed => {}
  }

  function StepSuccessors(from: StepStatus): set<StepStatus> {
    match from
    case StepPending => {StepRunning, StepSkipped}
    case StepRunning => {StepDone, StepFailed}
    case StepFailed => {StepRunning, StepSkipped}
    case _ => {}
  }

  predicate CanTransitionRun(from: RunStatus, to: RunStatus) {
    from == to || to in RunSuccessors(from)
  }

  predicate CanTransitionStep(from: StepStatus, to: StepStatus) {
    from == to || to in StepSuccessors(from)
  }
}
