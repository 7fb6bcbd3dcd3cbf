/** What the command tracker makes of a forced phase that is still in transition:
    `CommandExecutionTracker.tick` in `Visualize/control/command_executor.py`. */
module Tracking {

  const TRANSITION_TIMEOUT := 30.0

  /** What a tick sees of a forced phase: its pending target, and whether the target is shown. */
  datatype Sight = Sight(pending: bool, atTarget: bool)

  datatype Fate = Wait | Done | TimedOut

  /** The deadline is looked at first. */
  function FateOf(deadline: real, sight: Sight, simTime: real): Fate {
    if simTime > deadline then TimedOut
    else if !sight.pending && sight.atTarget then Done
    else Wait
  }
}
