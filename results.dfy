/** The uniform outcome of every command: a value, or one of the error kinds
    the file manager reports. */
module Results {

  /** The errors a command can end with. `InvalidInput` and `OperationFailed`
      are the two user-facing kinds; `UnknownCommand` is raised by the
      dispatcher; `SystemError` stands for an operating-system error that a
      handler lets through without wrapping it (only `ls` does so). */
  datatype Error =
    | InvalidInput
    | OperationFailed
    | UnknownCommand(name: string)
    | SystemError

  datatype Result<T> = Success(value: T) | Failure(error: Error)

  /** The message the error carries; a `SystemError` carries the operating
      system's own text, which is not part of the model. */
  function Message(e: Error): string
    requires !e.SystemError?
  {
    match e
    case InvalidInput => "Invalid input"
    case OperationFailed => "Operation failed"
    case UnknownCommand(name) => "unknown command '" + name + "'"
  }
}
