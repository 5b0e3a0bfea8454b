/** The failures the organiser can report, and the result types that carry them.
    Each Java exception class (and each uncaught runtime exception the code can
    raise) becomes one constructor of Error. */
module Errors {

  /** Why a field of a task was refused at construction (IllegalArgumentException). */
  datatype Validation =
    | MustNotBeNull(field: string)
    | MustNotBeEmpty(field: string)
    | FromToMustDiffer

  /** Why an input line was refused (InvalidCommandException). */
  datatype CommandFailure =
    | DeadlineFormat        // "deadline format: deadline <desc> /by <when>"
    | EventFormat           // "event format: event <desc> /from <start> /to <end>"
    | EventPartsEmpty       // "event parts must not be empty."
    | TodoFormat            // "todo format: todo <desc>"
    | TodoEmpty             // "todo requires a description."
    | TodoMarkers           // "todo description must not contain /by, /from, or /to."
    | UnknownCommand        // "Unknown command. Type help for available commands."
    | KeywordNotSingleWord  // "Keyword must be a single word."

  datatype Error =
    | IllegalArgument(why: Validation)
      /** IllegalStateException from a strict done/undone transition;
          alreadyDone tells which of the two messages is raised. */
    | IllegalState(alreadyDone: bool)
    | InvalidCommand(failure: CommandFailure)
      /** TaskIndexOutOfBoundsException: the requested number and the list size. */
    | TaskIndexOutOfBounds(taskNumber: int, size: nat)
      /** StringIndexOutOfBoundsException from substring or charAt. */
    | StringIndexOutOfBounds
      /** ArrayIndexOutOfBoundsException from indexing the fields of a stored line. */
    | ArrayIndexOutOfBounds

  datatype Option<+T> = None | Some(value: T)

  datatype Result<+T> = Ok(value: T) | Err(error: Error) {
    predicate IsFailure() { Err? }
    function PropagateFailure<U>(): Result<U>
      requires Err?
    {
      Err(error)
    }
    function Extract(): T
      requires Ok?
    {
      value
    }
  }

  /** The outcome of a void Java method: it returned, or it threw. */
  datatype Outcome = Pass | Fail(error: Error)
}
