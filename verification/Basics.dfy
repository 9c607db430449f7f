/** Types and constants shared by every module of the model. */
module Basics {

  datatype Option<+T> = None | Some(value: T)

  /** The gRPC status codes the modelled RPCs answer with. */
  datatype Status = Ok | InvalidArgument | NotFound | FailedPrecondition | Internal

  /** Number of values of an unsigned 64-bit integer, and of a 32-bit one. */
  const U64: nat := 0x1_0000_0000_0000_0000
  const U32: nat := 0x1_0000_0000

  /** Resolution of the steady clock that time-to-live checks read. */
  const TICKS_PER_SECOND: nat := 1_000_000_000
}

/**
 A run of a step system: a list of steps that grows at its end, so that a proof by
 induction over a run looks at the last step taken.
 */
module Traces {

  datatype Trace<S> = Start | After(prev: Trace<S>, step: S) {

    /** This run followed by the steps of `later`. */
    function Then(later: Trace<S>): Trace<S> {
      match later
      case Start => this
      case After(prev, step) => After(Then(prev), step)
    }

    /** True iff this run is an initial part of `whole`. */
    ghost predicate IsPrefixOf(whole: Trace<S>) {
      this == whole || (whole.After? && IsPrefixOf(whole.prev))
    }
  }
}
