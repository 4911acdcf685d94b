/** External commands, seen from the program that runs them. */
module Exec {
  import opened Wrappers

  /** How a command can fail: it ran and exited with a status other than zero, or it never started. */
  datatype ExecError = ExitStatus(code: int) | StartFailed

  /** What a command leaves behind: its combined output and, when it failed, why. */
  datatype Outcome = Outcome(output: string, err: Option<ExecError>)

  /**
   * The machine the program runs on, seen through the commands it executes: a fixed function from
   * a command name and its arguments to what the command leaves behind.
   */
  type Runner = (string, seq<string>) -> Outcome
}
