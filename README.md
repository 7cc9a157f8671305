# portpeek, modelled in Dafny

portpeek is a command-line tool. It checks whether a TCP port is free and, if it is
not, which process holds it. It lists every listening port with its owner, suggests
free ports from a starting port, kills the process on a port after a confirmation,
and describes that process. Under the operating-system plumbing sits a small core of
decisions and text parsing. This project models that core and proves its properties.

Every effect of the tool becomes an input value:

- the two socket binds (IPv4 on 0.0.0.0, then IPv6 on ::1) are `BindOutcome` values:
  `Listening`, `AddressInUse` (EADDRINUSE), `PermissionDenied` (EACCES) or
  `OtherError(message)`;
- `execSync` is an oracle `exec: string -> CmdResult` from a command line to its
  standard output or to the message it threw;
- `ps-list` is a `ProcessTable`: a list of processes, or the message it threw;
- the `inquirer` confirmation is an oracle `confirm: Prompt -> bool`;
- `JSON.stringify` is an oracle `stringify: Reply -> string`;
- `chalk` colours are tags on text (`Painted(colour, text)`);
- the scan of `suggestPorts` calls `checkPort` on each port; here that is a probe
  oracle `probe: int -> Status`, and `ProbeByCheck` ties the probe to the check's model.

The files, one module each:

- `wrappers.dfy`: `Option`.
- `js_text.dfy`: the JavaScript string operations the tool uses. These are `trim`,
  `trimStart`, `trimEnd`, `includes`, `split` on one character, `split(/\s+/)` after
  `trim()` (`Fields`), `filter` with `includes`, `join` and `pop` (`Last`).
- `js_number.dfy`: `parseInt` (leading white space, an optional sign, a `0x` prefix, the
  longest digit prefix, `None` for `NaN`) and the decimal rendering `String(n)`.
- `records.dfy`: the result record shared by all operations.
- `check_port.dfy`: `checkPort`, `checkIPv6`, `checkWithNetstat`, `handlePortInUse`,
  `findPid` and `getProcessInfo` (lib/checkPort.js).
- `list_ports.dfy`: `listPorts` (lib/listPorts.js). It is an imperative method. Its loop
  fills the port map (a Dafny `map` plus the key insertion order that a JavaScript `Map`
  keeps). A second loop builds the records. Both loops are proved against the reference
  functions `Collect` and `InUseRecords`.
- `suggest_ports.dfy`: `suggestPorts` (lib/suggestPorts.js). It is an imperative `while`
  loop, proved equal to the reference function `FreeFrom`. `FreeFrom` is in turn proved
  to be the unique solution of an independent description, `FirstFree`: exactly the first
  `count` free ports at or above the start.
- `kill_port.dfy`: `killPort` (lib/killPort.js). `KillPort(port, env, confirm)` is
  `Kill(port, CheckPort(port, env), …)`, and the lemmas hold for whatever record the
  check returned.
- `show_info.dfy`: `showInfo` (lib/showInfo.js). It is built the same way:
  `ShowInfo(port, env, table)` is `Describe(port, CheckPort(port, env), table)`.
- `format.dfy`: `formatOutput` (lib/utils.js).

Two behaviours of the code that a reader might not expect:

- The port map keeps the last pid seen for a port. `Map.set` runs for every line, so a
  later line overwrites an earlier one (lib/listPorts.js:42). A re-set port keeps its
  first insertion place, but that place no longer matters once the ports are sorted.
  The lemma is `LastLineWins`.
- The process table is consulted once per listed port, not once per distinct pid
  (lib/listPorts.js:53-62). The lemma is `InUseRecordsAt`.

One behaviour of `findPid` is evidently not what its authors intended; "## Findings"
describes it. The model keeps the code as written in `PidFromLineAsWritten` and builds
the rest on the corrected `PidFromLine`.

## Model

| member | source | states |
|---|---|---|
| JsText.Trim | lib/listPorts.js:17 | `trim()` is empty exactly when the text is all white space; otherwise it starts and ends with a non-space character |
| JsText.Fields | lib/checkPort.js:124 | `trim().split(/\s+/)` gives `[""]` for blank text and otherwise a non-empty list of non-empty, space-free words |
| JsText.FieldsJoin | lib/listPorts.js:25 | splitting a single-space join of words gives those words back |
| JsText.SplitJoin | lib/utils.js:28 | splitting the join of separator-free pieces at the separator gives the pieces back |
| JsText.JoinSplit | lib/checkPort.js:121 | joining the pieces of a split with the separator gives the text back |
| JsText.ContainsIff | lib/checkPort.js:122 | `includes(sub)` holds exactly when `sub` occurs at some index |
| JsText.Filter | lib/checkPort.js:120-122 | the kept lines are exactly those that contain the needle, and the first one kept is the first matching line; with `FilterAppend` and `FilterOne`, they stay in input order |
| JsText.FilterAppend | lib/listPorts.js:23 | filtering a concatenation is the concatenation of the filtered parts, so `filter` keeps the input order |
| JsText.FilterOne | lib/listPorts.js:23 | a single line is kept exactly when it contains the needle |
| JsText.FilterAround | lib/listPorts.js:23 | the lines kept from before a matching line, then that line, then the lines kept from after it |
| JsText.KeptAfter | lib/listPorts.js:23 | a line kept after a matching line comes from a later input line |
| JsNumber.ParseInt | lib/checkPort.js:7 | blank text is `NaN`; a number needs a digit first after the white space, or a sign and then a digit |
| JsNumber.ParseIntOfRendering | lib/checkPort.js:7 | `parseInt` reads back the decimal rendering of any integer and stops at a following non-digit, so "80abc" gives 80 |
| JsNumber.ParseIntRoundTrip | lib/suggestPorts.js:5 | `parseInt(String(n)) == n` for every integer |
| JsNumber.ParseIntSkipsSpace | lib/checkPort.js:7 | leading white space does not change what `parseInt` reads |
| JsNumber.IntToStringInjective | lib/checkPort.js:140 | distinct pids render as distinct strings |
| PortCheck.CheckPort | lib/checkPort.js:6-38 | "invalid" with the range message exactly when the text does not parse to 1..65535; the port field is `NaN` or the parsed number; a valid port is classified by the bind outcomes |
| PortCheck.InvalidIgnoresEnvironment | lib/checkPort.js:7-14 | an invalid port gives the same "invalid" record whatever the binds and commands would do, so no bind is attempted |
| PortCheck.Classify | lib/checkPort.js:16-37 | a valid port's record carries the port, is never "invalid", and any pid in it is the one `findPid` found |
| PortCheck.CheckIPv6 | lib/checkPort.js:43-62 | the IPv6 step carries the port, is never "invalid", and any pid it reports is the one `findPid` found |
| PortCheck.OnBindError | lib/checkPort.js:19-30 | the shared error handler carries the port, is never "invalid", and any pid it reports is the one `findPid` found |
| PortCheck.ClassifyByFailure | lib/checkPort.js:16-62 | both binds listening gives "free"; otherwise the first failing bind's error handler decides the record |
| PortCheck.FreeIff | lib/checkPort.js:31-81 | "free" exactly when both binds listen, or when the first failure is EACCES and netstat finds no pid |
| PortCheck.AddressInUseOutcome | lib/checkPort.js:84-105 | EADDRINUSE on either stack gives "in-use": with pid and process name (or "unknown") when a pid is found, else "Unable to find PID" |
| PortCheck.PermissionDeniedOutcome | lib/checkPort.js:65-81 | EACCES gives "in-use" with pid and name when netstat finds a pid, else "free" |
| PortCheck.OtherErrorOutcome | lib/checkPort.js:26-27 | any other bind error gives "error" with that error's message verbatim |
| PortCheck.ErrorOnlyFromOtherBindErrors | lib/checkPort.js:19-56 | an "error" record comes only from an unknown bind error, valid port, and carries its message |
| PortCheck.CaughtBranchesUnreachable | lib/checkPort.js:78-103 | the lookups never throw: no "in-use" record says "Unable to find process info", and the EACCES path never gives "error" |
| PortCheck.CheckWithNetstat | lib/checkPort.js:65-81 | the netstat fallback: "in-use" with pid and name for a found pid, "free" without one, the "Failed to check port: " error when the lookup throws |
| PortCheck.HandlePortInUse | lib/checkPort.js:84-105 | always "in-use"; pid and name for a found pid, "Unable to find PID" without, "Unable to find process info" when the lookup throws |
| PortCheck.PidCommand | lib/checkPort.js:111-119 | the command ends with the same `:port` needle that the lines are then filtered on |
| PortCheck.UpToSlash | lib/checkPort.js:127 | `split("/")[0]` is the longest prefix of the field without "/", and it stays free of white space |
| PortCheck.PidFromOutput | lib/checkPort.js:120-128 | no pid exactly when no line holds ":port"; a pid has no white space, is non-empty on win32 and has no "/" elsewhere |
| PortCheck.PidFromLine | lib/checkPort.js:124-127 | corrected column: always a pid; on win32 the last field; elsewhere the last field ("PID/Program name") up to its first "/" |
| PortCheck.PidFromLineAsWritten | lib/checkPort.js:124-127 | as written: on win32 the last field; elsewhere the second-to-last field up to its first "/", and none exactly for a one-field line |
| PortCheck.FirstMatchGivesPid | lib/checkPort.js:120-124 | the pid is read from the first line holding ":port", whatever the later lines hold |
| PortCheck.NoMatchNoPid | lib/checkPort.js:123-132 | no pid exactly when no line of the output holds ":port" |
| PortCheck.Port80TakesEarlier8080Line | lib/checkPort.js:120-127 | for port 80, a ":8080" line before any ":80" line supplies the pid |
| PortCheck.ListenTakenAsPid | lib/checkPort.js:127 | as written, a line ending in `LISTEN pid/program` gives "LISTEN"; corrected, it gives `pid` |
| PortCheck.NetstatListenLine | lib/checkPort.js:127 | the line `tcp 0 0 0.0.0.0:80 0.0.0.0:* LISTEN 1234/node` gives "LISTEN" as written and "1234" corrected |
| PortCheck.FindPid | lib/checkPort.js:108-133 | a failing command gives no pid; otherwise the pid parsed from its output |
| PortCheck.Win32LineGivesLastField | lib/checkPort.js:124-126 | a one-line win32 output of words yields its last field |
| PortCheck.PosixLineGivesPid | lib/checkPort.js:127 | a one-line output of words whose last field is `pid/program` yields `pid` (corrected column) |
| PortCheck.LongerPortMatches | lib/checkPort.js:122 | a line naming a longer port with the same leading digits also matches the needle |
| PortCheck.PrefixPortIsMatched | lib/checkPort.js:122 | a line holding ":8080" matches the needle of port 80 |
| PortCheck.FindProcess | lib/checkPort.js:140 | the result is the first process whose decimal pid equals the text; none exactly when no process has it |
| PortCheck.GetProcessInfo | lib/checkPort.js:136-145 | a failing `ps-list` gives none; otherwise the first process with the pid |
| PortCheck.FoundProcessHasPid | lib/checkPort.js:140 | the process found for `String(n)` has pid `n` and is in the table |
| PortCheck.FindProcessFindsFirst | lib/checkPort.js:140 | whenever a first process with the pid exists, it is the one found |
| PortList.WindowsLine | lib/listPorts.js:25-30 | a line with fewer than two fields throws V8's `undefined.split` error; an entry has the last field as pid and the number after the second field's last ":" as port |
| PortList.PosixLine | lib/listPorts.js:35-44 | never throws; fewer than nine fields is skipped; nine or more fields, a ninth field with ":" and a number after its last ":" give an entry; an entry has a ninth field with ":", the second field as pid and the number after the last ":" as port |
| PortList.ListingLines | lib/listPorts.js:22-34 | win32 visits exactly the lines holding "LISTENING", in output order (`FilterAppend`, `Win32LastListeningLineWins`); elsewhere every line after the header |
| PortList.Listing | lib/listPorts.js:6-69 | always one error record or strictly ascending in-use records; the unsupported-platform and command-failure errors |
| PortList.ListPorts | lib/listPorts.js:6-69 | the method returns the reference listing, which is a single error record or in-use records in strictly ascending port order |
| PortList.RecordsFromOutput | lib/listPorts.js:17-64 | after the command printed its output, the method returns the reference records of that output |
| PortList.CollectLines | lib/listPorts.js:21-46 | the line loop leaves the port map the reference fold `Collect` gives |
| PortList.InUseRecordsOf | lib/listPorts.js:53-62 | the record loop returns one in-use record per port, in order |
| PortList.Collect | lib/listPorts.js:21-46 | the insertion order lists each key of the port map exactly once |
| PortList.Step | lib/listPorts.js:30 | one `Map.set` keeps the map and its insertion order in step |
| PortList.Insert | lib/listPorts.js:49-50 | inserting a new port keeps the ports strictly ascending and adds exactly that port |
| PortList.SortedPorts | lib/listPorts.js:49-50 | the sorted keys are strictly ascending, with the same members and length |
| PortList.InUseRecordsAt | lib/listPorts.js:54-61 | record `k` is "in-use" with port `k`, its mapped pid and the found name or "unknown" |
| PortList.CrashStops | lib/listPorts.js:65-67 | once a line throws, later lines change nothing and the result is the "Failed to list ports: " error |
| PortList.RecordsListMapKeys | lib/listPorts.js:49-62 | the records list exactly the keys of the port map |
| PortList.ListedPortsAreYielded | lib/listPorts.js:21-62 | a port is listed exactly when some visited line yields it |
| PortList.LastLineWins | lib/listPorts.js:42 | the last line that yields a port decides its pid |
| PortList.Win32LastListeningLineWins | lib/listPorts.js:23-30 | on win32, the last output line holding "LISTENING" that yields a port decides that port's pid |
| PortList.LastListeningLineWins | lib/listPorts.js:23-30 | the same, stated over any lines filtered on "LISTENING" |
| PortList.CollectedKeys | lib/listPorts.js:21-46 | the keys of the port map are exactly the ports the lines yield |
| PortList.BlankOutput | lib/listPorts.js:17-19 | blank output gives the single "No listening ports found" error |
| PortList.NothingParsed | lib/listPorts.js:64 | when no line yields a port and none throws, the result is the single "No listening ports found" error |
| PortList.PosixLineRoundTrip | lib/listPorts.js:34-44 | an `lsof` line whose ninth field is `host:port` yields that port with its second field as pid |
| PortList.WindowsLineRoundTrip | lib/listPorts.js:23-31 | a `netstat` line whose second field is `address:port` yields that port with its last field as pid |
| PortSuggest.FreeFrom | lib/suggestPorts.js:13-19 | at most `count` ports, strictly increasing, each in [start, 65535] and reported free |
| PortSuggest.Suggestion | lib/suggestPorts.js:3-26 | success or error with one of the two messages; success holds 1..count ports, each free and in [start, 65535] |
| PortSuggest.SuggestPorts | lib/suggestPorts.js:3-26 | the method returns the reference suggestion |
| PortSuggest.Scan | lib/suggestPorts.js:13-19 | the `while` loop returns exactly the reference scan `FreeFrom` |
| PortSuggest.FreeFromIsFirstFree | lib/suggestPorts.js:13-19 | the scan skips no free port: its result is the first `count` free ports at or above the start |
| PortSuggest.FirstFreeIsUnique | lib/suggestPorts.js:13-19 | only one list meets that description, so it determines the scan's result |
| PortSuggest.InvalidStartIff | lib/suggestPorts.js:5-10 | "Invalid start port" exactly when the start does not parse to 1..65535 |
| PortSuggest.SuggestionResult | lib/suggestPorts.js:21-25 | success carries the first free ports (at least one); otherwise "No free ports found" exactly when the scan found none |
| PortSuggest.NoCountNoPorts | lib/suggestPorts.js:13-22 | a count of 0, a negative count or `NaN` gives "No free ports found" |
| PortSuggest.ProbeByCheck | lib/suggestPorts.js:14-16 | with the check as probe, every suggested port had both binds listening, or EACCES with no pid found |
| PortKill.KillCommand | lib/killPort.js:30-34 | for a space-free pid the command splits into `taskkill /PID <pid> /F` on win32 and `kill -9 <pid>` elsewhere |
| PortKill.KillPort | lib/killPort.js:6-44 | the caller's port text; a prompt exactly when the check reports a pid; a command only then, aimed at that pid |
| PortKill.Kill | lib/killPort.js:8-43 | a prompt exactly when the check found a process; a command only after yes, for the checked pid; success only when the command succeeded |
| PortKill.GuardIff | lib/killPort.js:7-23 | no prompt exactly when the check found no process, which gives the guard error with no command; the prompt names the pid and defaults to "no" |
| PortKill.CommandOnlyAfterYes | lib/killPort.js:25-34 | a command runs exactly when a process was found and the answer was yes; it names the checked pid; "no" gives "aborted" / "Kill operation cancelled" |
| PortKill.Outcomes | lib/killPort.js:9-42 | every record carries the caller's port text and a message; "success" ("Process <pid> killed") exactly when the command ran and succeeded; "aborted" exactly on a declined prompt |
| PortKill.FailedKill | lib/killPort.js:36-42 | a failing command gives "error" with "Failed to kill process: " and its message |
| PortKill.CheckedPidIsWord | lib/checkPort.js:124-127 | a pid the check reports contains no white space |
| PortKill.CommandTargetsPid | lib/killPort.js:30-34 | the command splits into `taskkill /PID <pid> /F` on win32 and `kill -9 <pid>` elsewhere, with the checked pid as one word |
| PortKill.TaskkillWords | lib/killPort.js:31 | the win32 command's words are `taskkill`, `/PID`, the pid and `/F` |
| PortKill.KillWords | lib/killPort.js:33 | the other command's words are `kill`, `-9` and the pid |
| PortInfo.InfoOf | lib/showInfo.js:22-27 | the name as listed, a pid text that reads back as the process's pid, memory ending in " MB", a non-empty command |
| PortInfo.ShowInfo | lib/showInfo.js:4-38 | the caller's port text; the guard error when the check reports no pid; success only with the checked pid in the info |
| PortInfo.Describe | lib/showInfo.js:5-36 | success or error; success exactly when a process was found and the table lists its pid, with that first process's info |
| PortInfo.GuardIff | lib/showInfo.js:5-12 | the guard error comes exactly when the check found no process; every record carries the caller's port text |
| PortInfo.SuccessIff | lib/showInfo.js:17-29 | "success" exactly when the table lists a process with the checked pid; its info describes the first such process |
| PortInfo.InfoNamesCheckedPid | lib/showInfo.js:22-24 | the info's pid is the checked pid, and it reads back as the process's number |
| PortInfo.Errors | lib/showInfo.js:18-36 | a failing `ps-list` gives "Failed to get process info: "; "Process not found" exactly when no process has the pid |
| PortInfo.CommandOrNA | lib/showInfo.js:26 | "N/A" for a missing or empty command; otherwise the command itself |
| Format.ItemLine | lib/utils.js:17-26 | an array item is red exactly when it is in-use or an error, yellow otherwise; an error item is "Error: " and its message |
| Format.SingleLine | lib/utils.js:32-54 | red exactly for in-use and invalid; green exactly for free or a ports list; cyan exactly for info with no ports |
| Format.FormatOutput | lib/utils.js:10-56 | JSON exactly with `--json`; otherwise one line per array item, in order, or one line for a single result |
| Format.JsonOnly | lib/utils.js:11-13 | with `--json` the output is the serialisation and nothing else |
| Format.OneLinePerItem | lib/utils.js:15-28 | an array result splits at "\n" into its items' lines, one per item, in order |
| Format.InUseSameEverywhere | lib/utils.js:18-36 | an in-use record prints the same line in an array and on its own |
| Format.SingleErrorIsBare | lib/utils.js:22-53 | a single error record prints its bare message in yellow; as an array item it gets "Error: " in red |
| Format.StatusBeforeFields | lib/utils.js:33-54 | the branch order in-use, free, invalid, ports, info, message, with "Unknown result" for a missing message |
| Format.FreePortsReadBack | lib/utils.js:41-42 | after "Free ports: ", splitting at "," and reading each piece with `parseInt` gives the ports back in order |

## Findings

| source | as written | input that shows it | evidently intended | confidence | as-written member | corrected member |
|---|---|---|---|---|---|---|
| lib/checkPort.js:127 | off win32 the pid is `parts[parts.length - 2].split("/")[0]` | the `netstat -tuln -p` line `tcp 0 0 0.0.0.0:80 0.0.0.0:* LISTEN 1234/node` gives the pid "LISTEN" | the last field, the "PID/Program name" column, up to its "/": "1234" | medium, not executed | PortCheck.PidFromLineAsWritten, PortCheck.ListenTakenAsPid, PortCheck.NetstatListenLine | PortCheck.PidFromLine, PortCheck.PosixLineGivesPid |

## Left out

- Socket binding, the `listening` and `error` events, and the promise plumbing are left
  out. The bind outcomes are inputs.
- `execSync` is the `exec` oracle: the subprocesses and their real output are not
  modelled. Each call of the oracle on one command gives one answer. So the model cannot
  express a command whose output changes between two calls in the same run.
- `ps-list` and `inquirer` are foreign libraries. They are a given process table and a
  given answer.
- The check of `killPort` and `showInfo` consults the environment's process table, and
  `showInfo` calls `ps-list` a second time. The model takes these as two separate tables.
- The memory text `(memory / 1024 / 1024).toFixed(2)` is floating point. A process
  carries that text already rendered.
- `chalk` escape codes are left out; colours are tags. `Plain` drops the tags.
- `logError`, `console` output, `outputResult` (printing, and appending to the log file
  with a timestamp) and the internals of `JSON.stringify` are left out.
- lib/watchPort.js (an endless polling loop) and bin/portpeek.js (the `commander`
  wiring) are not part of this model.
- PortCheck.FindPid follows the corrected column of the Findings row, and so do
  `CheckPort`, `KillPort` and `ShowInfo`, which use its pid. Off win32, on a
  `netstat -tuln -p` TCP LISTEN line, the program as written reports the pid "LISTEN"
  with the name "unknown"; `killPort` then runs `kill -9 LISTEN` and `showInfo` answers
  "Process not found". The model reports the real pid in all three.
- PortSuggest.SuggestPorts: the default `count = 4` belongs to the caller, so `count` is
  always passed. It is an integer or `NaN`, the value `parseInt` gives.
- JsNumber.ParseSigned: `parseInt` is exact on integers of any size. JavaScript loses
  precision above 2^53 and renders huge values in exponent form, and the model does not.
  A port string never reaches that range and still be valid.
- JsNumber.ParseSigned: `-0` is read as 0. JavaScript keeps the sign, but `-0` fails the
  range check the same way and renders as "0".
- PortList.WindowsLine: the exception a one-field line throws carries V8's message for
  `undefined.split`. Other engines word that message differently.
- Format.ItemLine: the "Unknown result" fallback of an array item needs a record without
  a status. Every record here has one, so that branch is not modelled.
