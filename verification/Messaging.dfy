/** Decisions a handler can take on a message, and what a remote operation can do to it. */
module Messaging {

  datatype Decision = Ack | Drop | Retry | Undecided(text: string)

  /** What a remote operation did and what it reported. */
  datatype Outcome =
    | Done       // took effect, reported success
    | ReplyLost  // took effect, reported an error
    | NotDone    // no effect, reported an error

  predicate TookEffect(o: Outcome) {
    !o.NotDone?
  }
}
