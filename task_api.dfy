/**
 * The types of the task API that both task services answer with: errors,
 * replies, responses, and the outcome of launching an init process.
 */
module TaskApi {
  import ShimConfig

  /** A timestamp, taken from the clock by the caller; 0 is the zero time. */
  type Time = int

  const ZeroTime: Time := 0

  datatype Error =
    | AlreadyExists
    | NotFound
    | FailedPrecondition
    | Cancelled                          // the caller's context ended the wait
    | ConfigInvalid(cause: ShimConfig.ConfigError)
    | IoFailed                           // a file, FIFO, process or signal operation failed

  /** The answer to a call that waits for completion: a value, an error, or
      Blocked while the task has not completed and the caller still waits. */
  datatype Reply<+T> = Ok(value: T) | Err(error: Error) | Blocked

  /** How the launch of the suspended init process went: the pid, or a failure
      of one of the steps before it (script file, FIFOs, pipes, start). */
  datatype Launch = Launched(pid: int) | LaunchFailed

  datatype Status = Running | Stopped

  datatype StateResponse = StateResponse(
    id: string, pid: int, status: Status, stdout: string, stdin: string, exitStatus: int, exitTime: Time)

  datatype DeleteResponse = DeleteResponse(pid: int, exitStatus: int, exitTime: Time)

  datatype WaitResponse = WaitResponse(exitStatus: int, exitTime: Time)

  datatype ConnectResponse = ConnectResponse(shimPid: int, taskPid: int)
}
