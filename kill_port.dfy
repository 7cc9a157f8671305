/**
 * lib/killPort.js: check a port, ask for confirmation, and kill the process holding it.
 * The confirmation prompt is the `confirm` oracle (the user's answer to a prompt), the
 * kill command runs through the environment's `exec`.
 */
module PortKill {
  import opened Wrappers
  import opened JsText
  import opened JsNumber
  import opened Records
  import opened PortCheck

  const CancelledMessage := "Kill operation cancelled"
  const KillFailurePrefix := "Failed to kill process: "

  /** An `inquirer` confirm question: its text and the answer it defaults to. */
  datatype Prompt = Prompt(message: string, default: bool)

  /** The record `killPort` returns, with the prompt it showed and the command it ran, if any. */
  datatype KillRun = KillRun(result: Record, prompt: Option<Prompt>, command: Option<string>)

  function ConfirmPrompt(pid: string, port: string): Prompt {
    Prompt("Kill process " + pid + " using port " + port + "?", false)
  }

  /** `taskkill /PID <pid> /F` on win32, `kill -9 <pid>` elsewhere. */
  function KillCommand(platform: string, pid: string): (r: string)
    ensures pid != [] && NoSpace(pid) ==>
      Fields(r) == if platform == "win32" then ["taskkill", "/PID", pid, "/F"] else ["kill", "-9", pid]
  {
    TaskkillWords(pid);
    KillWords(pid);
    if platform == "win32" then "taskkill /PID " + pid + " /F" else "kill -9 " + pid
  }

  /** `killPort(port)`. */
  function KillPort(port: string, env: Env, confirm: Prompt -> bool): (k: KillRun)
    ensures k.result.port == PortText(port)
    ensures k.prompt.Some? <==> ReportsPid(port, env)
    ensures k.command.Some? ==>
      ReportsPid(port, env) && k.command.value == KillCommand(env.platform, CheckPort(port, env).pid.value)
  {
    var check := CheckPort(port, env);
    Kill(port, check, env.platform, env.exec, confirm)
  }

  /** What `killPort` does once the check gave `check`. */
  function Kill(port: string, check: Record, platform: string, exec: string -> CmdResult, confirm: Prompt -> bool): (k: KillRun)
    ensures k.result.port == PortText(port)
    ensures k.prompt.Some? <==> Found(check)
    ensures k.command.Some? ==> Found(check) && k.prompt.Some? && confirm(k.prompt.value)
    ensures k.command.Some? ==> k.command.value == KillCommand(platform, check.pid.value)
    ensures k.result.status == Success ==> k.command.Some? && exec(k.command.value).Output?
  {
    if !Found(check) then
      KillRun(WithMessage(PortText(port), Error, NotInUseMessage), None, None)
    else
      var pid := check.pid.value;
      var prompt := ConfirmPrompt(pid, port);
      if !confirm(prompt) then
        KillRun(WithMessage(PortText(port), Aborted, CancelledMessage), Some(prompt), None)
      else
        var command := KillCommand(platform, pid);
        match exec(command)
        case Output(_) =>
          KillRun(WithMessage(PortText(port), Success, "Process " + pid + " killed"), Some(prompt), Some(command))
        case CmdFailed(m) =>
          KillRun(WithMessage(PortText(port), Error, KillFailurePrefix + m), Some(prompt), Some(command))
  }

  // ---------------------------------------------------------------------------
  // Properties, for whatever record the check returned
  // ---------------------------------------------------------------------------

  /** Without a process to kill there is no prompt, no command and the guard error; with one, a prompt that defaults to "no". */
  lemma GuardIff(port: string, check: Record, platform: string, exec: string -> CmdResult, confirm: Prompt -> bool)
    ensures var k := Kill(port, check, platform, exec, confirm);
      && (k.prompt.None? <==> !Found(check))
      && (!Found(check) ==> k.command.None? && k.result == WithMessage(PortText(port), Error, NotInUseMessage))
      && (k.prompt.Some? ==> k.prompt.value == ConfirmPrompt(check.pid.value, port) && !k.prompt.value.default)
  {
  }

  /**
   * A command runs exactly when the check found a process and the answer was yes, and
   * it names the checked pid; a "no" gives the cancelled record.
   */
  lemma CommandOnlyAfterYes(port: string, check: Record, platform: string, exec: string -> CmdResult, confirm: Prompt -> bool)
    ensures var k := Kill(port, check, platform, exec, confirm);
      && (k.command.Some? <==> Found(check) && k.prompt.Some? && confirm(k.prompt.value))
      && (k.command.Some? ==> k.command.value == KillCommand(platform, check.pid.value))
      && (k.prompt.Some? && !confirm(k.prompt.value) ==>
            k.result == WithMessage(PortText(port), Aborted, CancelledMessage))
  {
  }

  /** Every record carries the caller's argument as its port, and the status tells which way it went. */
  lemma Outcomes(port: string, check: Record, platform: string, exec: string -> CmdResult, confirm: Prompt -> bool)
    ensures var k := Kill(port, check, platform, exec, confirm);
      && k.result.port == PortText(port)
      && k.result.message.Some?
      && (k.result.status == Success <==> k.command.Some? && exec(k.command.value).Output?)
      && (k.result.status == Success ==> k.result.message == Some("Process " + check.pid.value + " killed"))
      && (k.result.status == Aborted <==> k.prompt.Some? && k.command.None?)
      && (k.result.status in {Error, Aborted, Success})
  {
  }

  /** A failing kill command reports its message after "Failed to kill process: ". */
  lemma FailedKill(port: string, check: Record, platform: string, exec: string -> CmdResult, confirm: Prompt -> bool)
    requires Kill(port, check, platform, exec, confirm).command.Some?
    requires exec(Kill(port, check, platform, exec, confirm).command.value).CmdFailed?
    ensures Kill(port, check, platform, exec, confirm).result
      == WithMessage(PortText(port), Error,
           KillFailurePrefix + exec(Kill(port, check, platform, exec, confirm).command.value).message)
  {
  }

  /** A pid the check reports has no white space in it, whichever path found it. */
  lemma CheckedPidIsWord(port: string, env: Env)
    requires ReportsPid(port, env)
    ensures NoSpace(CheckPort(port, env).pid.value)
  {
    ClassifiedPidIsWord(ParseInt(port).value, env);
  }

  lemma ClassifiedPidIsWord(n: int, env: Env)
    requires Classify(n, env).status == InUse && Truthy(Classify(n, env).pid)
    ensures NoSpace(Classify(n, env).pid.value)
  {
    FoundPidIsWord(env.platform, n, env.exec);
  }

  lemma FoundPidIsWord(platform: string, port: int, exec: string -> CmdResult)
    ensures FindPid(platform, port, exec).Some? ==> NoSpace(FindPid(platform, port, exec).value)
  {
  }

  /** The command splits into words with the checked pid in its place: the kill targets that process. */
  lemma CommandTargetsPid(port: string, env: Env)
    requires ReportsPid(port, env)
    ensures var pid := CheckPort(port, env).pid.value;
      Fields(KillCommand(env.platform, pid))
        == if env.platform == "win32" then ["taskkill", "/PID", pid, "/F"] else ["kill", "-9", pid]
  {
    CheckedPidIsWord(port, env);
  }

  lemma TaskkillWords(pid: string)
    ensures pid != [] && NoSpace(pid) ==> Fields("taskkill /PID " + pid + " /F") == ["taskkill", "/PID", pid, "/F"]
  {
    if pid != [] && NoSpace(pid) {
      TaskkillWordsOf(pid);
    }
  }

  lemma TaskkillWordsOf(pid: string)
    requires pid != [] && NoSpace(pid)
    ensures Fields("taskkill /PID " + pid + " /F") == ["taskkill", "/PID", pid, "/F"]
  {
    var ws := ["taskkill", "/PID", pid, "/F"];
    JoinCons(pid, ["/F"], " ");
    JoinCons("/PID", [pid, "/F"], " ");
    JoinCons("taskkill", ["/PID", pid, "/F"], " ");
    var tail := pid + " " + "/F";
    assert tail == pid + " /F";
    assert "taskkill" + " " + ("/PID" + " " + tail) == "taskkill /PID " + tail;
    assert "taskkill /PID " + pid + " /F" == "taskkill /PID " + (pid + " /F");
    assert IsWordList(ws) by {
      assert NoSpace("taskkill") && NoSpace("/PID") && NoSpace("/F");
    }
    FieldsJoin(ws);
  }

  /** Joining a first part onto the rest. */
  lemma JoinCons(w: string, rest: seq<string>, sep: string)
    requires |rest| >= 1
    ensures Join([w] + rest, sep) == w + sep + Join(rest, sep)
  {
    assert ([w] + rest)[1..] == rest;
  }

  lemma KillWords(pid: string)
    ensures pid != [] && NoSpace(pid) ==> Fields("kill -9 " + pid) == ["kill", "-9", pid]
  {
    if pid != [] && NoSpace(pid) {
      KillWordsOf(pid);
    }
  }

  lemma KillWordsOf(pid: string)
    requires pid != [] && NoSpace(pid)
    ensures Fields("kill -9 " + pid) == ["kill", "-9", pid]
  {
    var ws := ["kill", "-9", pid];
    assert Join(ws[2..], " ") == pid;
    assert Join(ws[1..], " ") == "-9 " + pid;
    assert Join(ws, " ") == "kill -9 " + pid;
    assert IsWordList(ws) by {
      assert NoSpace("kill") && NoSpace("-9");
    }
    FieldsJoin(ws);
  }
}
