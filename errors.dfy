// Exceptions raised by the pipeline, and the result types that carry them.
// Each Python `raise` in the modelled code becomes an `Err` of the matching
// kind; the message text is not modelled.
module PyErrors {

  /** The exception classes the modelled code raises or propagates. */
  datatype ErrorKind =
    | TypeError
    | ValueError
    | KeyError
    | IndexError
    | AttributeError
    | RuntimeError
    | AssertionError
    | OSError
    | StopIteration
    | NodeError           // pypeline.node.NodeError
    | CmdNodeError        // subclass of NodeError
    | MetaNodeError       // subclass of NodeError
    | NodeUnhandledException  // subclass of NodeError
    | CmdError            // pypeline.atomiccmd.CmdError
    | AtomicCmdBuilderError
    | MakefileError
    | FASTAError          // pypeline.common.formats.fasta.FASTAError
    | MSAError            // subclass of FASTAError
    | VersionRequirementError
    | NodeGraphError
    | NameError
    | MAKEFileError       // the phylo pipeline's own makefile error, a RuntimeError

  /** `isinstance(e, NodeError)` for the node exception hierarchy. */
  predicate IsNodeError(e: ErrorKind)
  {
    e.NodeError? || e.CmdNodeError? || e.MetaNodeError? || e.NodeUnhandledException?
  }

  /** A value, or the exception raised while computing it. */
  datatype Result<T> = Ok(value: T) | Err(error: ErrorKind)
  {
    predicate IsFailure() { Err? }
    function PropagateFailure<U>(): Result<U> requires Err? { Err(error) }
    function Extract(): T requires Ok? { value }
  }

  /** The outcome of a call that returns nothing or raises. */
  datatype Outcome = Pass | Fail(error: ErrorKind)
  {
    predicate IsFailure() { Fail? }
    function PropagateFailure(): Outcome requires Fail? { this }
  }

  datatype Option<T> = None | Some(value: T)
}
