/**
 * The exit decoder shared by both task services: the reaper turns what `cmd.Wait`
 * left in the process state into the exit status that `State`, `Wait` and
 * `Delete` report.
 */
module ExitStatus {

  /** Added to the signal number of a process killed by a signal, the shell
      convention of section 2.8.2 of the POSIX.1-2017 Shell and Utilities volume. */
  const ExitCodeSignal: nat := 128

  /** Reported when the operating system gave back no wait status. */
  const NoStatus: nat := 255

  /** The signal number of SIGKILL. */
  const SigKill: nat := 9

  type ExitCode = c: int | 0 <= c < 256

  /** What the reaper finds in the process state after waiting. */
  datatype ProcessState =
    | Missing                  // no process state at all
    | Exited(code: ExitCode)   // the process returned this code
    | Signaled(signal: nat)    // the process was terminated by this signal
    | NotTerminated            // neither of the above (stopped or continued)

  /** The exit status the reaper records. A process state that is neither an
      exit nor a signal death keeps the initial sentinel, like a missing one. */
  function Decode(st: ProcessState): (r: nat)
    ensures st.Exited? ==> r == st.code
    ensures st.Signaled? ==> r == ExitCodeSignal + st.signal
    ensures st.Missing? || st.NotTerminated? ==> r == NoStatus
    ensures !st.Signaled? ==> r <= NoStatus
    ensures st.Signaled? && st.signal > 0 ==> ExitCodeSignal < r
    ensures r == NoStatus ==> !st.Exited? || st.code == NoStatus
  {
    match st
    case Exited(code) => code
    case Signaled(signal) => ExitCodeSignal + signal
    case _ => NoStatus
  }

  /** Reads a recorded exit status back the way a shell does: up to 128 a
      normal exit, from 129 to 254 a death by signal, 255 no status. */
  function Describe(status: nat): (st: ProcessState)
    ensures status <= ExitCodeSignal ==> st.Exited?
    ensures st.Signaled? ==> 0 < st.signal < NoStatus - ExitCodeSignal
  {
    if status <= ExitCodeSignal then Exited(status)
    else if status < NoStatus then Signaled(status - ExitCodeSignal)
    else Missing
  }

  /** The decoded status identifies what happened, as long as the exit code is
      at most 128 and the signal number below 127. */
  predicate Unambiguous(st: ProcessState)
  {
    match st
    case Missing => true
    case Exited(code) => code <= ExitCodeSignal
    case Signaled(signal) => 0 < signal < NoStatus - ExitCodeSignal
    case NotTerminated => false
  }

  lemma DecodeRoundTrip(st: ProcessState)
    requires Unambiguous(st)
    ensures Describe(Decode(st)) == st
  {
  }

  /** Two distinct unambiguous outcomes never produce the same exit status. */
  lemma DecodeInjective(a: ProcessState, b: ProcessState)
    requires Unambiguous(a) && Unambiguous(b)
    requires Decode(a) == Decode(b)
    ensures a == b
  {
    DecodeRoundTrip(a);
    DecodeRoundTrip(b);
  }

  /** Exit code 7, SIGKILL, and no status. */
  lemma DecodeExamples()
    ensures Decode(Exited(7)) == 7
    ensures Decode(Signaled(SigKill)) == 137
    ensures Decode(Missing) == 255
  {
  }

  /** The status the shim manager's Stop reports after killing the init
      process: that of a death by SIGKILL. */
  function StopStatus(): (r: nat)
    ensures r == Decode(Signaled(SigKill)) && Describe(r) == Signaled(SigKill)
  {
    ExitCodeSignal + SigKill
  }
}
