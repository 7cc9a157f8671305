/**
 * lib/checkPort.js: is a port free or in use, and by which process.
 *
 * The two socket binds (IPv4 on 0.0.0.0, then IPv6 on ::1) are inputs: each is the
 * event the server emitted, "listening" or an error with its code. Shell commands are
 * run through an `exec` oracle that maps a command line to its outcome, and `ps-list`
 * is a given process table.
 */
module PortCheck {
  import opened Wrappers
  import opened JsText
  import opened JsNumber
  import opened Records

  const RangeMessage := "Port must be between 1 and 65535"
  const NoPidMessage := "Unable to find PID"
  const NoInfoMessage := "Unable to find process info"
  const NetstatFailurePrefix := "Failed to check port: "

  predicate InRange(n: int) {
    1 <= n <= 65535
  }

  /** What one `server.listen(port, host)` attempt emitted. */
  datatype BindOutcome =
    | Listening
    | AddressInUse                  // error with code EADDRINUSE
    | PermissionDenied              // error with code EACCES
    | OtherError(message: string)   // any other error code, with err.message

  /** Everything the check learns from the operating system. */
  datatype Env = Env(
    platform: string,               // process.platform
    ipv4: BindOutcome,
    ipv6: BindOutcome,
    exec: string -> CmdResult,      // execSync
    processes: ProcessTable)        // ps-list

  /** The outcome of a `try` block: the value it computed, or the message of what it threw. */
  datatype Attempt<T> = Completed(value: T) | Threw(message: string)

  /** The text `findPid` looks for in each line of output: `":" + port`. */
  function Needle(port: int): string {
    ":" + IntToString(port)
  }

  /** The command `findPid` runs. */
  function PidCommand(platform: string, port: int): (r: string)
    ensures |r| > |Needle(port)| && r[|r| - |Needle(port)|..] == Needle(port)
  {
    if platform == "win32" then "netstat -aon | findstr " + Needle(port)
    else "netstat -tuln -p 2>/dev/null | grep " + Needle(port)
  }

  /** `pid` is the part of `field` before its first "/" (all of it when there is none). */
  predicate PidOfField(pid: string, field: string) {
    |pid| <= |field| && pid == field[..|pid|] && '/' !in pid && (|pid| == |field| || field[|pid|] == '/')
  }

  /** `field.split("/")[0]`. */
  function UpToSlash(field: string): (r: string)
    ensures PidOfField(r, field)
    ensures NoSpace(field) ==> NoSpace(r)
  {
    SplitHeadIsPrefix(field, '/');
    Split(field, '/')[0]
  }

  /**
   * The parsing half of `findPid`: the first output line that contains `":" + port`,
   * split on white space, gives the pid (see `PidFromLine`); no matching line gives `None`.
   */
  function PidFromOutput(platform: string, port: int, output: string): (r: Option<string>)
    ensures r.None? <==> Filter(Split(output, '\n'), Needle(port)) == []
    ensures r.Some? ==> NoSpace(r.value)
    ensures platform == "win32" && r.Some? ==> r.value != ""
    ensures platform != "win32" && r.Some? ==> '/' !in r.value
  {
    var lines := Filter(Split(output, '\n'), Needle(port));
    if lines == [] then None
    else
      MatchedLineIsNotBlank(lines[0], port);
      PidFromLine(platform, lines[0])
  }

  /**
   * The pid field of a matching line, which is not blank since it holds the needle: on
   * win32 the last field of `netstat -aon` (the PID column); elsewhere the last field of
   * `netstat -tuln -p`, the "PID/Program name" column, up to its "/". The code as written
   * takes the second-to-last field off win32 (`PidFromLineAsWritten`).
   */
  function PidFromLine(platform: string, line: string): (r: Option<string>)
    requires !AllSpace(line)
    ensures r.Some? && NoSpace(r.value)
    ensures platform == "win32" ==> r.value == Last(Fields(line)) && r.value != ""
    ensures platform != "win32" ==> PidOfField(r.value, Last(Fields(line)))
  {
    var field := Last(Fields(line));
    if platform == "win32" then Some(field) else Some(UpToSlash(field))
  }

  /**
   * `parts[parts.length - 2].split("/")[0]` off win32, as the code is written: the
   * second-to-last field up to its "/"; with a single field there is none, and the
   * TypeError of `undefined.split` is caught, giving `None`.
   */
  function PidFromLineAsWritten(platform: string, line: string): (r: Option<string>)
    requires !AllSpace(line)
    ensures platform == "win32" ==> r == Some(Last(Fields(line)))
    ensures r.None? <==> platform != "win32" && |Fields(line)| < 2
    ensures platform != "win32" && r.Some? ==> PidOfField(r.value, Fields(line)[|Fields(line)| - 2])
  {
    var parts := Fields(line);
    if platform == "win32" then Some(Last(parts))
    else if |parts| < 2 then None
    else Some(UpToSlash(parts[|parts| - 2]))
  }

  /** `findPid(port)`: a failing command gives `None`; nothing escapes as an exception. */
  function FindPid(platform: string, port: int, exec: string -> CmdResult): (r: Option<string>)
    ensures exec(PidCommand(platform, port)).CmdFailed? ==> r.None?
    ensures exec(PidCommand(platform, port)).Output? ==>
      r == PidFromOutput(platform, port, exec(PidCommand(platform, port)).text)
  {
    match exec(PidCommand(platform, port))
    case CmdFailed(_) => None
    case Output(text) => PidFromOutput(platform, port, text)
  }

  /** `processes.find(p => p.pid.toString() === pid)`. */
  function FindProcess(ps: seq<Process>, pid: string): (r: Option<Process>)
    ensures r.Some? ==> exists i :: 0 <= i < |ps| && ps[i] == r.value && FirstWithPid(ps, pid, i)
    ensures r.None? ==> forall i :: 0 <= i < |ps| ==> IntToString(ps[i].pid) != pid
    decreases |ps|
  {
    if ps == [] then None
    else if IntToString(ps[0].pid) == pid then
      assert FirstWithPid(ps, pid, 0);
      Some(ps[0])
    else
      var r := FindProcess(ps[1..], pid);
      assert r.Some? ==> exists i :: 0 <= i < |ps| && ps[i] == r.value && FirstWithPid(ps, pid, i) by {
        if r.Some? {
          var i :| 0 <= i < |ps[1..]| && ps[1..][i] == r.value && FirstWithPid(ps[1..], pid, i);
          assert ps[i + 1] == r.value;
          assert FirstWithPid(ps, pid, i + 1) by {
            forall j | 0 <= j < i + 1 ensures IntToString(ps[j].pid) != pid {
              if j > 0 { assert ps[j] == ps[1..][j - 1]; }
            }
          }
        }
      }
      assert r.None? ==> forall i :: 0 <= i < |ps| ==> IntToString(ps[i].pid) != pid by {
        if r.None? {
          forall i | 0 <= i < |ps| ensures IntToString(ps[i].pid) != pid {
            if i > 0 { assert ps[i] == ps[1..][i - 1]; }
          }
        }
      }
      r
  }

  /** Entry `i` is the first entry whose decimal pid is `pid`. */
  predicate FirstWithPid(ps: seq<Process>, pid: string, i: nat)
    requires i < |ps|
  {
    IntToString(ps[i].pid) == pid && forall j :: 0 <= j < i ==> IntToString(ps[j].pid) != pid
  }

  /** `getProcessInfo(pid)`: a failing `ps-list` gives `None`. */
  function GetProcessInfo(pid: string, table: ProcessTable): (r: Option<Process>)
    ensures table.ListFailed? ==> r.None?
    ensures table.Listed? ==> r == FindProcess(table.processes, pid)
  {
    match table
    case ListFailed(_) => None
    case Listed(ps) => FindProcess(ps, pid)
  }

  /** `processInfo ? processInfo.name : "unknown"`. */
  function NameOrUnknown(info: Option<Process>): string {
    if info.Some? then info.value.name else "unknown"
  }

  /** `checkWithNetstat(port)`, with the outcome of its `try` block's `findPid` call as input. */
  function CheckWithNetstat(port: int, lookup: Attempt<Option<string>>, table: ProcessTable): (r: Record)
    ensures r.port == PortNumber(port)
    ensures lookup.Threw? ==> r == WithMessage(PortNumber(port), Error, NetstatFailurePrefix + lookup.message)
    ensures lookup.Completed? && Truthy(lookup.value) ==>
      r == InUseBy(PortNumber(port), lookup.value.value, NameOrUnknown(GetProcessInfo(lookup.value.value, table)))
    ensures lookup.Completed? && !Truthy(lookup.value) ==> r == StatusOnly(PortNumber(port), Free)
  {
    match lookup
    case Threw(m) => WithMessage(PortNumber(port), Error, NetstatFailurePrefix + m)
    case Completed(pid) =>
      if Truthy(pid) then InUseBy(PortNumber(port), pid.value, NameOrUnknown(GetProcessInfo(pid.value, table)))
      else StatusOnly(PortNumber(port), Free)
  }

  /** `handlePortInUse(port, resolve)`: always "in-use"; the lookup decides the rest. */
  function HandlePortInUse(port: int, lookup: Attempt<Option<string>>, table: ProcessTable): (r: Record)
    ensures r.port == PortNumber(port) && r.status == InUse
    ensures lookup.Threw? ==> r.message == Some(NoInfoMessage) && r.pid.None?
    ensures lookup.Completed? && Truthy(lookup.value) ==>
      r.pid == lookup.value && r.processName == Some(NameOrUnknown(GetProcessInfo(lookup.value.value, table)))
    ensures lookup.Completed? && !Truthy(lookup.value) ==> r.message == Some(NoPidMessage) && r.pid.None?
  {
    match lookup
    case Threw(_) => WithMessage(PortNumber(port), InUse, NoInfoMessage)
    case Completed(pid) =>
      if Truthy(pid) then InUseBy(PortNumber(port), pid.value, NameOrUnknown(GetProcessInfo(pid.value, table)))
      else WithMessage(PortNumber(port), InUse, NoPidMessage)
  }

  /** The `once("error")` handler shared by both binds. */
  function OnBindError(port: int, err: BindOutcome, env: Env): (r: Record)
    requires !err.Listening?
    ensures r.port == PortNumber(port) && r.status != Invalid
    ensures r.pid.Some? ==> r.pid == FindPid(env.platform, port, env.exec)
  {
    match err
    case PermissionDenied => CheckWithNetstat(port, Completed(FindPid(env.platform, port, env.exec)), env.processes)
    case AddressInUse => HandlePortInUse(port, Completed(FindPid(env.platform, port, env.exec)), env.processes)
    case OtherError(m) => WithMessage(PortNumber(port), Error, m)
  }

  /** `checkIPv6(port, resolve)`, reached once the IPv4 bind emitted "listening". */
  function CheckIPv6(port: int, env: Env): (r: Record)
    ensures r.port == PortNumber(port) && r.status != Invalid
    ensures r.pid.Some? ==> r.pid == FindPid(env.platform, port, env.exec)
  {
    if env.ipv6.Listening? then StatusOnly(PortNumber(port), Free) else OnBindError(port, env.ipv6, env)
  }

  /** `checkPort(port)`: parse, validate the range, then classify the bind outcomes. */
  function CheckPort(input: string, env: Env): (r: Record)
    ensures r.status == Invalid <==> !ValidPortText(input)
    ensures !ValidPortText(input) ==> r.message == Some(RangeMessage)
    ensures ParseInt(input).None? ==> r.port == PortNaN
    ensures ParseInt(input).Some? ==> r.port == PortNumber(ParseInt(input).value)
    ensures ValidPortText(input) ==> r == Classify(ParseInt(input).value, env)
  {
    match ParseInt(input)
    case None => WithMessage(PortNaN, Invalid, RangeMessage)
    case Some(n) =>
      if !InRange(n) then WithMessage(PortNumber(n), Invalid, RangeMessage)
      else Classify(n, env)
  }

  /** The promise of `checkPort` for a valid port: the IPv4 bind first, then the IPv6 one. */
  function Classify(port: int, env: Env): (r: Record)
    ensures r.port == PortNumber(port) && r.status != Invalid
    ensures r.pid.Some? ==> r.pid == FindPid(env.platform, port, env.exec)
  {
    if env.ipv4.Listening? then CheckIPv6(port, env) else OnBindError(port, env.ipv4, env)
  }

  /** The argument parses, as `parseInt` does, to a port in 1..65535. */
  predicate ValidPortText(input: string) {
    ParseInt(input).Some? && InRange(ParseInt(input).value)
  }

  /** The check found a process: status "in-use" with a non-empty pid, the guard of the kill and info operations. */
  predicate ReportsPid(input: string, env: Env) {
    Found(CheckPort(input, env))
  }

  /** A check result that names a process: "in-use" with a pid. */
  predicate Found(check: Record) {
    check.status == InUse && Truthy(check.pid)
  }

  /** The first bind that did not reach "listening", in the order they are tried. */
  function FirstBindFailure(env: Env): Option<BindOutcome> {
    if !env.ipv4.Listening? then Some(env.ipv4)
    else if !env.ipv6.Listening? then Some(env.ipv6)
    else None
  }

  // ---------------------------------------------------------------------------
  // Classification of a valid port by the first failing bind
  // ---------------------------------------------------------------------------

  /**
   * A text that does not parse to a port in 1..65535 is "invalid" whatever the binds and
   * commands would have done: the check never reaches them.
   */
  lemma InvalidIgnoresEnvironment(input: string, env: Env, other: Env)
    requires !ValidPortText(input)
    ensures CheckPort(input, env) == CheckPort(input, other)
    ensures CheckPort(input, env).status == Invalid && CheckPort(input, env).message == Some(RangeMessage)
  {
  }

  /** Both binds listening means "free"; otherwise the first failing bind's error handler decides. */
  lemma ClassifyByFailure(port: int, env: Env)
    ensures FirstBindFailure(env).None? ==> Classify(port, env) == StatusOnly(PortNumber(port), Free)
    ensures FirstBindFailure(env).Some? ==>
      !FirstBindFailure(env).value.Listening?
      && Classify(port, env) == OnBindError(port, FirstBindFailure(env).value, env)
  {
  }

  /**
   * "free" comes out exactly when both binds reach "listening", or when the first failing
   * bind is refused with EACCES and the netstat fallback finds no pid.
   */
  lemma FreeIff(port: int, env: Env)
    ensures Classify(port, env).status == Free <==>
      FirstBindFailure(env).None?
      || (FirstBindFailure(env) == Some(PermissionDenied) && !Truthy(FindPid(env.platform, port, env.exec)))
  {
    ClassifyByFailure(port, env);
  }

  /** EADDRINUSE on either stack always means "in-use"; the pid lookup decides the other fields. */
  lemma AddressInUseOutcome(port: int, env: Env)
    requires FirstBindFailure(env) == Some(AddressInUse)
    ensures var pid := FindPid(env.platform, port, env.exec);
      var r := Classify(port, env);
      && r.status == InUse
      && (Truthy(pid) ==> r == InUseBy(PortNumber(port), pid.value, NameOrUnknown(GetProcessInfo(pid.value, env.processes))))
      && (!Truthy(pid) ==> r == WithMessage(PortNumber(port), InUse, NoPidMessage))
  {
    ClassifyByFailure(port, env);
  }

  /** EACCES falls back on netstat: "in-use" with the pid when one is found, "free" otherwise. */
  lemma PermissionDeniedOutcome(port: int, env: Env)
    requires FirstBindFailure(env) == Some(PermissionDenied)
    ensures var pid := FindPid(env.platform, port, env.exec);
      var r := Classify(port, env);
      && (Truthy(pid) ==> r == InUseBy(PortNumber(port), pid.value, NameOrUnknown(GetProcessInfo(pid.value, env.processes))))
      && (!Truthy(pid) ==> r == StatusOnly(PortNumber(port), Free))
  {
    ClassifyByFailure(port, env);
  }

  /** Any other bind error gives "error" with the error's own message, on either stack. */
  lemma OtherErrorOutcome(port: int, env: Env, m: string)
    requires FirstBindFailure(env) == Some(OtherError(m))
    ensures Classify(port, env) == WithMessage(PortNumber(port), Error, m)
  {
    ClassifyByFailure(port, env);
  }

  /** The check gives "error" only for a bind error it does not know, and then with that error's message. */
  lemma ErrorOnlyFromOtherBindErrors(input: string, env: Env)
    requires CheckPort(input, env).status == Error
    ensures ValidPortText(input)
    ensures FirstBindFailure(env).Some? && FirstBindFailure(env).value.OtherError?
    ensures CheckPort(input, env).message == Some(FirstBindFailure(env).value.message)
  {
    var port := ParseInt(input).value;
    ClassifyError(port, env);
  }

  lemma ClassifyError(port: int, env: Env)
    requires Classify(port, env).status == Error
    ensures FirstBindFailure(env).Some? && FirstBindFailure(env).value.OtherError?
    ensures Classify(port, env).message == Some(FirstBindFailure(env).value.message)
  {
    ClassifyByFailure(port, env);
  }

  /**
   * `findPid` and `getProcessInfo` catch everything they could throw, so the `catch`
   * branches of `handlePortInUse` and `checkWithNetstat` never run: an "in-use" record
   * never says "Unable to find process info", and the netstat fallback never gives "error".
   */
  lemma CaughtBranchesUnreachable(port: int, env: Env)
    ensures Classify(port, env).status == InUse ==> Classify(port, env).message != Some(NoInfoMessage)
    ensures FirstBindFailure(env) == Some(PermissionDenied) ==>
      Classify(port, env).status == InUse || Classify(port, env).status == Free
  {
    ClassifyByFailure(port, env);
    assert |NoPidMessage| != |NoInfoMessage|;
  }

  // ---------------------------------------------------------------------------
  // findPid
  // ---------------------------------------------------------------------------

  lemma MatchedLineIsNotBlank(line: string, port: int)
    requires Contains(line, Needle(port))
    ensures !AllSpace(line)
  {
    ContainsIff(line, Needle(port));
    var i :| OccursAt(line, Needle(port), i);
    assert line[i] == Needle(port)[0] == ':';
  }

  lemma SplitHeadIsPrefix(s: string, sep: char)
    ensures |Split(s, sep)[0]| <= |s| && Split(s, sep)[0] == s[..|Split(s, sep)[0]|]
    ensures |Split(s, sep)[0]| == |s| || s[|Split(s, sep)[0]|] == sep
    decreases |s|
  {
    if s != [] {
      SplitHeadIsPrefix(s[1..], sep);
    }
  }

  /** The needle for a port also occurs in a line that names a longer port with the same leading digits. */
  lemma LongerPortMatches(line: string, port: int, more: string)
    requires Contains(line, Needle(port) + more)
    ensures Contains(line, Needle(port))
  {
    var n := Needle(port);
    ContainsIff(line, n + more);
    var i :| OccursAt(line, n + more, i);
    assert line[i..i + |n|] == (n + more)[..|n|] == n;
    assert OccursAt(line, n, i);
    ContainsIff(line, n);
  }

  /** On win32, a matching single-space-separated line yields its last field. */
  lemma Win32LineGivesLastField(port: int, fields: seq<string>)
    requires IsWordList(fields) && |fields| >= 1
    requires Contains(Join(fields, " "), Needle(port))
    ensures PidFromOutput("win32", port, Join(fields, " ")) == Some(Last(fields))
  {
    var line := Join(fields, " ");
    JoinWordsHasNoNewline(fields);
    SingleLineOutput(line, port);
    FieldsJoin(fields);
  }

  /** Elsewhere, a matching line whose last field is `pid/program` yields `pid`. */
  lemma PosixLineGivesPid(platform: string, port: int, fields: seq<string>, pid: string, program: string)
    requires platform != "win32"
    requires IsWordList(fields) && |fields| >= 1
    requires '/' !in pid && Last(fields) == pid + "/" + program
    requires Contains(Join(fields, " "), Needle(port))
    ensures PidFromOutput(platform, port, Join(fields, " ")) == Some(pid)
  {
    var line := Join(fields, " ");
    JoinWordsHasNoNewline(fields);
    SingleLineOutput(line, port);
    FieldsJoin(fields);
    SplitHeadBeforeSeparator(pid, program, '/');
  }

  /** The pid comes from the first line of the output that contains the needle, whatever the lines after it say. */
  lemma FirstMatchGivesPid(platform: string, port: int, output: string, i: nat)
    requires i < |Split(output, '\n')| && FirstMatch(Split(output, '\n'), Needle(port), i)
    ensures !AllSpace(Split(output, '\n')[i])
    ensures PidFromOutput(platform, port, output) == PidFromLine(platform, Split(output, '\n')[i])
  {
    var lines := Split(output, '\n');
    MatchedLineIsNotBlank(lines[i], port);
    var kept := Filter(lines, Needle(port));
    assert lines[i] in lines;
    var j :| 0 <= j < |lines| && lines[j] == kept[0] && FirstMatch(lines, Needle(port), j);
    FirstMatchUnique(lines, Needle(port), i, j);
  }

  lemma FirstMatchUnique(lines: seq<string>, needle: string, i: nat, j: nat)
    requires i < |lines| && j < |lines|
    requires FirstMatch(lines, needle, i) && FirstMatch(lines, needle, j)
    ensures i == j
  {
  }

  /** No pid exactly when no line of the output contains the needle. */
  lemma NoMatchNoPid(platform: string, port: int, output: string, lines: seq<string>)
    requires lines == Split(output, '\n')
    ensures PidFromOutput(platform, port, output).None? <==>
      forall i :: 0 <= i < |lines| ==> !Contains(lines[i], Needle(port))
  {
    FilterEmptyIff(lines, Needle(port));
  }

  lemma NeedleOf80()
    ensures Needle(80) == ":80"
  {
    assert IntToString(80) == "80";
  }

  /**
   * Port 80 takes its pid from the first line that holds ":8080" when no line before it
   * holds ":80": the owner of port 8080 is reported as the owner of port 80.
   */
  lemma Port80TakesEarlier8080Line(platform: string, output: string, lines: seq<string>, i: nat)
    requires lines == Split(output, '\n')
    requires i < |lines| && Contains(lines[i], ":8080")
    requires forall j :: 0 <= j < i ==> !Contains(lines[j], ":80")
    ensures !AllSpace(lines[i])
    ensures PidFromOutput(platform, 80, output) == PidFromLine(platform, lines[i])
  {
    NeedleOf80();
    PrefixPortIsMatched(lines[i]);
    assert FirstMatch(lines, Needle(80), i);
    FirstMatchGivesPid(platform, 80, output, i);
  }

  /** A field without "/" is its own pid; `pid/program` gives `pid`. */
  lemma UpToSlashOf(pid: string, program: string)
    requires '/' !in pid
    ensures UpToSlash(pid) == pid
    ensures UpToSlash(pid + "/" + program) == pid
  {
    var v := UpToSlash(pid);
    assert |v| == |pid|;
    SplitHeadBeforeSeparator(pid, program, '/');
  }

  /**
   * As written, a `netstat -tuln -p` line of a listening TCP socket, whose last two
   * fields are the State column "LISTEN" and "PID/Program name", gives "LISTEN" for
   * the pid; the corrected parse gives the pid.
   */
  lemma ListenTakenAsPid(platform: string, fields: seq<string>, pid: string, program: string)
    requires platform != "win32"
    requires IsWordList(fields) && |fields| >= 2
    requires fields[|fields| - 2] == "LISTEN" && Last(fields) == pid + "/" + program && '/' !in pid
    ensures !AllSpace(Join(fields, " "))
    ensures PidFromLineAsWritten(platform, Join(fields, " ")) == Some("LISTEN")
    ensures PidFromLine(platform, Join(fields, " ")) == Some(pid)
  {
    LineOfWords(fields);
    ListenFields(platform, Join(fields, " "), pid, program);
  }

  lemma ListenFields(platform: string, line: string, pid: string, program: string)
    requires platform != "win32" && !AllSpace(line)
    requires var parts := Fields(line);
      |parts| >= 2 && parts[|parts| - 2] == "LISTEN" && Last(parts) == pid + "/" + program && '/' !in pid
    ensures PidFromLineAsWritten(platform, line) == Some("LISTEN")
    ensures PidFromLine(platform, line) == Some(pid)
  {
    UpToSlashOf("LISTEN", "");
    UpToSlashOf(pid, program);
  }

  /**
   * The fields of the line `tcp 0 0 0.0.0.0:80 0.0.0.0:* LISTEN 1234/node`, joined by
   * single spaces: pid "LISTEN" as written, "1234" corrected.
   */
  lemma NetstatListenLine()
    ensures var line := Join(["tcp", "0", "0", "0.0.0.0:80", "0.0.0.0:*", "LISTEN", "1234/node"], " ");
      && !AllSpace(line)
      && PidFromLineAsWritten("linux", line) == Some("LISTEN")
      && PidFromLine("linux", line) == Some("1234")
  {
    var fields := ["tcp", "0", "0", "0.0.0.0:80", "0.0.0.0:*", "LISTEN", "1234/node"];
    assert IsWordList(fields);
    assert Last(fields) == "1234" + "/" + "node";
    ListenTakenAsPid("linux", fields, "1234", "node");
  }

  /** A line of words separated by single spaces is not blank and splits back into those words. */
  lemma LineOfWords(fields: seq<string>)
    requires IsWordList(fields) && |fields| >= 1
    ensures !AllSpace(Join(fields, " ")) && Fields(Join(fields, " ")) == fields
  {
    JoinStartsWithWord(fields);
    FieldsJoin(fields);
  }

  lemma SplitHeadBeforeSeparator(head: string, tail: string, sep: char)
    requires sep !in head
    ensures Split(head + [sep] + tail, sep)[0] == head
  {
    assert head + [sep] + tail == head + ([sep] + tail);
    SplitPrefix(head, [sep] + tail, sep);
    assert ([sep] + tail)[1..] == tail;
    assert Split([sep] + tail, sep)[0] == "";
    assert head + "" == head;
  }

  lemma {:induction false} JoinWordsHasNoNewline(fields: seq<string>)
    requires IsWordList(fields)
    ensures '\n' !in Join(fields, " ")
    decreases |fields|
  {
    if |fields| == 1 {
      assert IsSpace('\n');
    } else if |fields| > 1 {
      JoinWordsHasNoNewline(fields[1..]);
      assert '\n' !in fields[0] by { assert IsSpace('\n'); }
    }
  }

  lemma SingleLineOutput(line: string, port: int)
    requires Contains(line, Needle(port))
    requires '\n' !in line
    ensures Filter(Split(line, '\n'), Needle(port)) == [line]
  {
    SplitJoin([line], '\n');
  }

  /** The netstat line of port 8080 is taken as the owner of port 80: `findPid` matches by substring. */
  lemma PrefixPortIsMatched(line: string)
    requires Contains(line, ":8080")
    ensures Contains(line, Needle(80))
  {
    assert Needle(80) == ":80" by {
      assert IntToString(80) == "80";
    }
    assert ":8080" == Needle(80) + "80";
    LongerPortMatches(line, 80, "80");
  }

  // ---------------------------------------------------------------------------
  // getProcessInfo
  // ---------------------------------------------------------------------------

  /** A process found by the decimal text of a pid has exactly that pid. */
  lemma FoundProcessHasPid(ps: seq<Process>, n: int)
    requires FindProcess(ps, IntToString(n)).Some?
    ensures FindProcess(ps, IntToString(n)).value.pid == n
    ensures FindProcess(ps, IntToString(n)).value in ps
  {
    var i :| 0 <= i < |ps| && ps[i] == FindProcess(ps, IntToString(n)).value && FirstWithPid(ps, IntToString(n), i);
    IntToStringInjective(ps[i].pid, n);
  }

  /** The first process with the pid is found whenever one exists. */
  lemma FindProcessFindsFirst(ps: seq<Process>, pid: string, i: nat)
    requires i < |ps| && FirstWithPid(ps, pid, i)
    ensures FindProcess(ps, pid) == Some(ps[i])
  {
    var r := FindProcess(ps, pid);
    if r.Some? {
      var k :| 0 <= k < |ps| && ps[k] == r.value && FirstWithPid(ps, pid, k);
      assert k == i;
    }
  }
}
