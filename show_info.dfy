/**
 * lib/showInfo.js: check a port and describe the process holding it. The process table
 * is the one `ps-list` gives at this second call; the check consults its own (the
 * environment's).
 */
module PortInfo {
  import opened Wrappers
  import opened JsNumber
  import opened Records
  import opened PortCheck

  const NotFoundMessage := "Process not found"
  const InfoFailurePrefix := "Failed to get process info: "

  /** The `info` object: name, decimal pid, "<megabytes> MB", and the command or "N/A" when it is missing or empty. */
  function InfoOf(p: Process): (i: Info)
    ensures i.name == p.name && ParseInt(i.pid) == Some(p.pid)
    ensures |i.memory| >= 3 && i.memory[|i.memory| - 3..] == " MB"
    ensures i.cmd != ""
  {
    ParseIntRoundTrip(p.pid);
    Info(p.name, IntToString(p.pid), p.memory + " MB", if Truthy(p.cmd) then p.cmd.value else "N/A")
  }

  /** `showInfo(port)`. */
  function ShowInfo(port: string, env: Env, table: ProcessTable): (r: Record)
    ensures r.port == PortText(port)
    ensures r.status == Success ==> ReportsPid(port, env) && r.info.Some? && Some(r.info.value.pid) == CheckPort(port, env).pid
    ensures !ReportsPid(port, env) ==> r == WithMessage(PortText(port), Error, NotInUseMessage)
  {
    Describe(port, CheckPort(port, env), table)
  }

  /** What `showInfo` makes of the check's result `check`. */
  function Describe(port: string, check: Record, table: ProcessTable): (r: Record)
    ensures r.port == PortText(port) && (r.status == Success || r.status == Error)
    ensures r.status == Success <==>
      Found(check) && table.Listed? && FindProcess(table.processes, check.pid.value).Some?
    ensures r.status == Success ==> r.info == Some(InfoOf(FindProcess(table.processes, check.pid.value).value))
  {
    if !Found(check) then WithMessage(PortText(port), Error, NotInUseMessage)
    else
      match table
      case ListFailed(m) => WithMessage(PortText(port), Error, InfoFailurePrefix + m)
      case Listed(ps) =>
        match FindProcess(ps, check.pid.value)
        case None => WithMessage(PortText(port), Error, NotFoundMessage)
        case Some(p) => Record(PortText(port), Success, None, None, None, Some(InfoOf(p)), None)
  }

  // ---------------------------------------------------------------------------
  // Properties
  // ---------------------------------------------------------------------------

  /** The guard error comes exactly when the check found no process; every record carries the caller's argument. */
  lemma GuardIff(port: string, check: Record, table: ProcessTable)
    ensures var r := Describe(port, check, table);
      && r.port == PortText(port)
      && (r == WithMessage(PortText(port), Error, NotInUseMessage) <==> !Found(check))
  {
    if Found(check) && table.ListFailed? {
      assert (InfoFailurePrefix + table.message)[0] != NotInUseMessage[0];
    }
  }

  /**
   * Success comes exactly when the table lists a process with the checked pid, and the
   * info describes the first such process.
   */
  lemma SuccessIff(port: string, check: Record, table: ProcessTable)
    requires Found(check)
    ensures var r := Describe(port, check, table);
      var pid := check.pid.value;
      && (r.status == Success <==>
            table.Listed? && exists i :: 0 <= i < |table.processes| && IntToString(table.processes[i].pid) == pid)
      && (r.status == Success ==>
            exists i :: 0 <= i < |table.processes| && FirstWithPid(table.processes, pid, i)
              && r.info == Some(InfoOf(table.processes[i])))
  {
  }

  /** The reported pid is the checked pid, and it reads back as the process's number. */
  lemma InfoNamesCheckedPid(port: string, check: Record, table: ProcessTable)
    requires Describe(port, check, table).status == Success
    ensures var r := Describe(port, check, table);
      && r.info.Some?
      && Some(r.info.value.pid) == check.pid
      && exists p :: p in table.processes && r.info.value == InfoOf(p) && ParseInt(r.info.value.pid) == Some(p.pid)
  {
    var p := FindProcess(table.processes, check.pid.value).value;
    ParseIntRoundTrip(p.pid);
    assert p in table.processes;
  }

  /** The errors after the guard: a failing `ps-list`, or no process with the pid. */
  lemma Errors(port: string, check: Record, table: ProcessTable)
    requires Found(check)
    ensures var r := Describe(port, check, table);
      && (table.ListFailed? ==> r == WithMessage(PortText(port), Error, InfoFailurePrefix + table.message))
      && (r.message == Some(NotFoundMessage) <==>
            table.Listed? && forall i :: 0 <= i < |table.processes| ==>
              IntToString(table.processes[i].pid) != check.pid.value)
  {
  }

  /** "N/A" stands in for a missing or empty command; a non-empty command is shown as it is. */
  lemma CommandOrNA(p: Process)
    ensures !Truthy(p.cmd) ==> InfoOf(p).cmd == "N/A"
    ensures Truthy(p.cmd) ==> InfoOf(p).cmd == p.cmd.value && InfoOf(p).cmd != ""
  {
  }
}
