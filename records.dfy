/**
 * The result record every operation of the port tool returns, and the values that
 * stand for the operating system's answers: a process table and the outcome of
 * running a shell command.
 */
module Records {
  import opened Wrappers

  /** The `status` strings a result record carries. */
  datatype Status = Free | InUse | Invalid | Error | Aborted | Success {
    function Name(): string {
      match this
      case Free => "free"
      case InUse => "in-use"
      case Invalid => "invalid"
      case Error => "error"
      case Aborted => "aborted"
      case Success => "success"
    }
  }

  /**
   * The `port` field: absent (list errors, suggestions), a number, `NaN` (an unparsable
   * argument to the check), or the caller's argument text (kill and info pass it through).
   */
  datatype PortField = NoPort | PortNumber(n: int) | PortNaN | PortText(text: string)

  /** The `info` field of the info operation; `memory` is the rendered "<megabytes> MB" text. */
  datatype Info = Info(name: string, pid: string, memory: string, cmd: string)

  /** A result record; `None` stands for a property the JavaScript object does not have. */
  datatype Record = Record(
    port: PortField,
    status: Status,
    pid: Option<string>,
    processName: Option<string>,
    message: Option<string>,
    info: Option<Info>,
    ports: Option<seq<int>>)

  function StatusOnly(port: PortField, status: Status): Record {
    Record(port, status, None, None, None, None, None)
  }

  function WithMessage(port: PortField, status: Status, message: string): Record {
    Record(port, status, None, None, Some(message), None, None)
  }

  /** `{port, status: "in-use", pid, processName}`. */
  function InUseBy(port: PortField, pid: string, processName: string): Record {
    Record(port, InUse, Some(pid), Some(processName), None, None, None)
  }

  /** The guard message of the kill and info operations. */
  const NotInUseMessage := "Port is not in use or no process found"

  /** Port numbers in ascending order, each once. */
  predicate StrictlyIncreasing(s: seq<int>) {
    forall i, j :: 0 <= i < j < |s| ==> s[i] < s[j]
  }

  /** JavaScript truthiness of an optional string: present and non-empty. */
  predicate Truthy(s: Option<string>) {
    s.Some? && s.value != ""
  }

  /**
   * One entry of the process table as the `ps-list` package reports it. `memory` stands
   * for the text that `(memory / 1024 / 1024).toFixed(2)` produces.
   */
  datatype Process = Process(pid: int, name: string, cmd: Option<string>, memory: string)

  /** The outcome of loading and calling `ps-list`: the table, or the message it threw. */
  datatype ProcessTable = Listed(processes: seq<Process>) | ListFailed(message: string)

  /** The outcome of `execSync(command)`: its standard output, or the message it threw. */
  datatype CmdResult = Output(text: string) | CmdFailed(message: string)
}
