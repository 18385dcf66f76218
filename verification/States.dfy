/** The states of a copt and the legal changes between them (pkg/lifecycle/states.go). */
module States {
  datatype State =
    | Created | Starting | Idle | Processing | PostProcessing
    | Draining | Retaining | Stopping | Stopped | Failed

  /** The table of legal changes; a stopped copt has none. */
  function ValidTransitions(from: State): seq<State> {
    match from
    case Created => [Starting]
    case Starting => [Idle, Failed]
    case Idle => [Processing, Draining, Stopping]
    case Processing => [PostProcessing, Idle]
    case PostProcessing => [Idle]
    case Draining => [Retaining]
    case Retaining => [Idle, Failed]
    case Stopping => [Stopped]
    case Stopped => []
    case Failed => [Starting]
  }

  predicate CanTransition(from: State, to: State) {
    to in ValidTransitions(from)
  }

  /** Every change from one state of a history to the next is legal. */
  ghost predicate Legal(history: seq<State>) {
    forall i :: 0 <= i < |history| - 1 ==> CanTransition(history[i], history[i + 1])
  }
}
