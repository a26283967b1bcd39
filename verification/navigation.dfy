/**
 * The navigation controller's decisions: `playNext`, `playPrevious` and the player's
 * `ended` handler either move the current index by one and navigate, or report why not.
 */
module Navigation {

  /** What the script does to the page: show a transient notice, or load another URL. */
  datatype Effect = Notify(message: string) | Navigate(url: string)

  /** The outcome of a navigation request: go to an index, or refuse with a notice. */
  datatype Step = Go(index: nat) | Refuse(message: string)

  const QueueIsEmpty: string := "Queue is empty"
  const EndOfQueue: string := "End of queue"
  const BeginningOfQueue: string := "Beginning of queue"
  const QueueComplete: string := "Queue complete!"
  const UpNextPrefix: string := "Up Next: "

  /** `playNext` on a queue of `length` entries. */
  function NextStep(length: nat, current: int): (step: Step)
    requires current >= -1
    ensures step.Go? ==> step.index < length
  {
    if length == 0 then Refuse(QueueIsEmpty)
    else if current + 1 < length then Go(current + 1)
    else Refuse(EndOfQueue)
  }

  /** `playPrevious` on a queue of `length` entries. */
  function PreviousStep(length: nat, current: int): (step: Step)
    requires current <= length
    ensures step.Go? ==> step.index < length
  {
    if length == 0 then Refuse(QueueIsEmpty)
    else if current - 1 >= 0 then Go(current - 1)
    else Refuse(BeginningOfQueue)
  }

  /** The `ended` handler's decision, taken after the queue was reloaded. */
  function EndedStep(length: nat, current: int): (step: Step)
    requires current >= -1
    ensures step.Go? ==> step.index < length
  {
    if current + 1 < length then Go(current + 1) else Refuse(QueueComplete)
  }

  /** On a valid index, next is refused exactly on an empty queue or at the last entry, and
      previous exactly on an empty queue or at (or before) the first entry; otherwise they
      move by one. */
  lemma BoundariesOfNavigation(length: nat, current: int)
    requires -1 <= current < length
    ensures NextStep(length, current) == (if length == 0 then Refuse(QueueIsEmpty)
                                         else if current == length - 1 then Refuse(EndOfQueue)
                                         else Go(current + 1))
    ensures PreviousStep(length, current) == (if length == 0 then Refuse(QueueIsEmpty)
                                             else if current <= 0 then Refuse(BeginningOfQueue)
                                             else Go(current - 1))
  {
  }

  /** Previous undoes next, and next undoes previous. */
  lemma NextPreviousInverse(length: nat, current: int)
    requires 0 <= current < length
    ensures NextStep(length, current).Go? ==> PreviousStep(length, current + 1) == Go(current)
    ensures PreviousStep(length, current).Go? ==> NextStep(length, current - 1) == Go(current)
  {
  }

  /** The `ended` handler advances exactly where `playNext` would; it differs only on an empty
      queue or at the end, where it reports that the queue is complete. */
  lemma EndedAgreesWithNext(length: nat, current: int)
    requires current >= -1
    ensures EndedStep(length, current).Go? <==> NextStep(length, current).Go?
    ensures EndedStep(length, current).Go? ==> EndedStep(length, current) == NextStep(length, current)
    ensures EndedStep(length, current).Refuse? ==> EndedStep(length, current).message == QueueComplete
  {
  }

  /** The index after pressing next `n` times (each press that is refused stops the walk). */
  function AfterNexts(length: nat, current: int, n: nat): int
    requires current >= -1
    decreases n
  {
    if n == 0 then current
    else match NextStep(length, current)
      case Go(k) => AfterNexts(length, k, n - 1)
      case Refuse(_) => current
  }

  /** Pressing next `n` times from a valid index lands on `current + n`, or on the last entry
      when that runs past the end: playback visits every entry in order. */
  lemma {:induction false} NextWalksForward(length: nat, current: int, n: nat)
    requires -1 <= current < length
    ensures AfterNexts(length, current, n) == if current + n < length then current + n else length - 1
    decreases n
  {
    if n > 0 && current + 1 < length {
      NextWalksForward(length, current + 1, n - 1);
    }
  }
}
