/**
 * lib/listPorts.js: every listening TCP socket, one record per port, in ascending port
 * order. The listing command runs through the `exec` oracle; `ps-list` is a given
 * process table consulted once per port.
 */
module PortList {
  import opened Wrappers
  import opened JsText
  import opened JsNumber
  import opened Records
  import opened PortCheck

  const WindowsListCommand := "netstat -aon | findstr LISTENING"
  const PosixListCommand := "lsof -iTCP -sTCP:LISTEN -P -n"
  const NoPortsMessage := "No listening ports found"
  const FailurePrefix := "Failed to list ports: "
  /** What V8 throws for `undefined.split(":")`. */
  const UndefinedSplitMessage := "Cannot read properties of undefined (reading 'split')"

  predicate Supported(platform: string) {
    platform == "win32" || platform == "linux" || platform == "darwin"
  }

  function ListCommand(platform: string): string
    requires Supported(platform)
  {
    if platform == "win32" then WindowsListCommand else PosixListCommand
  }

  function ErrorList(message: string): seq<Record> {
    [WithMessage(NoPort, Error, message)]
  }

  /** What one line contributes: nothing, a `(port, pid)` pair, or an exception. */
  datatype LineParse = Skip | Entry(port: int, pid: string) | Crash(message: string)

  /**
   * One `netstat -aon` line: the port is the text after the last ":" of the second
   * field, the pid is the last field. A line with one field has no second field, and
   * splitting `undefined` throws.
   */
  function WindowsLine(line: string): (r: LineParse)
    ensures r.Crash? <==> |Fields(line)| < 2
    ensures r.Crash? ==> r.message == UndefinedSplitMessage
    ensures r.Entry? ==> r.pid == Last(Fields(line)) && ParseInt(Last(Split(Fields(line)[1], ':'))) == Some(r.port)
    ensures r.Skip? ==> ParseInt(Last(Split(Fields(line)[1], ':'))).None?
  {
    var parts := Fields(line);
    if |parts| < 2 then Crash(UndefinedSplitMessage)
    else
      match ParseInt(Last(Split(parts[1], ':')))
      case None => Skip
      case Some(n) => Entry(n, Last(parts))
  }

  /**
   * One `lsof` line: lines with fewer than nine fields are ignored; the port is the text
   * after the last ":" of the ninth field, the pid is the second field.
   */
  function PosixLine(line: string): (r: LineParse)
    ensures !r.Crash?
    ensures |Fields(line)| < 9 ==> r.Skip?
    ensures |Fields(line)| >= 9 && ':' in Fields(line)[8] && ParseInt(Last(Split(Fields(line)[8], ':'))).Some? ==> r.Entry?
    ensures r.Entry? ==> var address := Fields(line)[8];
      && ':' in address && r.pid == Fields(line)[1]
      && ParseInt(Last(Split(address, ':'))) == Some(r.port)
  {
    var parts := Fields(line);
    if |parts| < 9 then Skip
    else
      var address := parts[8];
      if ':' !in address then Skip
      else
        var port := Last(Split(address, ':'));
        if port == [] then Skip
        else
          match ParseInt(port)
          case None => Skip
          case Some(n) => Entry(n, parts[1])
  }

  function ParseLine(platform: string, line: string): LineParse {
    if platform == "win32" then WindowsLine(line) else PosixLine(line)
  }

  /** The lines the loop visits: those holding "LISTENING" on win32, all but the header line elsewhere. */
  function ListingLines(platform: string, output: string): (r: seq<string>)
    ensures platform == "win32" ==> forall l :: l in r <==> l in Split(output, '\n') && Contains(l, "LISTENING")
    ensures platform != "win32" ==> Split(output, '\n') == [Split(output, '\n')[0]] + r
  {
    if platform == "win32" then Filter(Split(output, '\n'), "LISTENING") else Split(output, '\n')[1..]
  }

  /** What each visited line contributes, in order. */
  function Parses(platform: string, lines: seq<string>): (r: seq<LineParse>)
    ensures |r| == |lines| && forall k :: 0 <= k < |lines| ==> r[k] == ParseLine(platform, lines[k])
  {
    seq(|lines|, k requires 0 <= k < |lines| => ParseLine(platform, lines[k]))
  }

  /**
   * The JavaScript `Map` after the lines: its entries as a Dafny map, and its keys in
   * insertion order (the order `Array.from` enumerates them in); or the first exception.
   */
  datatype Collected = Collected(portMap: map<int, string>, order: seq<int>) | Crashed(message: string)

  predicate Distinct(s: seq<int>) {
    forall i, j :: 0 <= i < j < |s| ==> s[i] != s[j]
  }

  /** The insertion order lists each key of the map once. */
  predicate Consistent(c: Collected) {
    c.Collected? ==>
      && Distinct(c.order)
      && (forall k :: k in c.order ==> k in c.portMap)
      && (forall k :: k in c.portMap ==> k in c.order)
  }

  /**
   * The loop over the lines: an entry is `Map.set`, which overwrites the pid of a key
   * already present and keeps its place in the insertion order; a crash ends the loop.
   */
  function Collect(parses: seq<LineParse>): (r: Collected)
    ensures Consistent(r)
    decreases |parses|
  {
    if parses == [] then Collected(map[], [])
    else Step(Collect(parses[..|parses| - 1]), parses[|parses| - 1])
  }

  /** One iteration of the loop. */
  function Step(c: Collected, e: LineParse): (r: Collected)
    requires Consistent(c)
    ensures Consistent(r)
  {
    match c
    case Crashed(m) => Crashed(m)
    case Collected(m, order) =>
      match e
      case Skip => Collected(m, order)
      case Entry(port, pid) =>
        if port in m then Collected(m[port := pid], order)
        else Collected(m[port := pid], order + [port])
      case Crash(msg) => Crashed(msg)
  }

  /** `x` placed into an ascending sequence at its place. */
  function Insert(x: int, s: seq<int>): (r: seq<int>)
    requires StrictlyIncreasing(s) && x !in s
    ensures StrictlyIncreasing(r) && |r| == |s| + 1
    ensures forall y :: y in r <==> y == x || y in s
    decreases |s|
  {
    if s == [] then [x]
    else if x < s[0] then
      assert StrictlyIncreasing([x] + s) by {
        forall i, j | 0 <= i < j < |s| + 1 ensures ([x] + s)[i] < ([x] + s)[j] {
          if i > 0 { assert ([x] + s)[i] == s[i - 1]; }
          assert ([x] + s)[j] == s[j - 1];
        }
      }
      [x] + s
    else
      var rest := Insert(x, s[1..]);
      assert StrictlyIncreasing([s[0]] + rest) by {
        forall i, j | 0 <= i < j < |rest| + 1 ensures ([s[0]] + rest)[i] < ([s[0]] + rest)[j] {
          if i == 0 {
            assert ([s[0]] + rest)[j] in rest;
          } else {
            assert ([s[0]] + rest)[i] == rest[i - 1];
          }
        }
      }
      [s[0]] + rest
  }

  /** The keys in ascending order, as `sort((a, b) => a.port - b.port)` leaves them. */
  function SortedPorts(s: seq<int>): (r: seq<int>)
    requires Distinct(s)
    ensures StrictlyIncreasing(r) && |r| == |s|
    ensures forall y :: y in r <==> y in s
    decreases |s|
  {
    if s == [] then []
    else
      var init := s[..|s| - 1];
      assert Distinct(init);
      assert s[|s| - 1] !in init;
      assert s == init + [s[|s| - 1]];
      Insert(s[|s| - 1], SortedPorts(init))
  }

  /** `{port, status: "in-use", pid, processName}` for each port, in order. */
  function InUseRecords(ports: seq<int>, portMap: map<int, string>, table: ProcessTable): (r: seq<Record>)
    requires forall p :: p in ports ==> p in portMap
    ensures |r| == |ports|
    decreases |ports|
  {
    if ports == [] then []
    else
      var p := ports[|ports| - 1];
      InUseRecords(ports[..|ports| - 1], portMap, table)
        + [InUseBy(PortNumber(p), portMap[p], NameOrUnknown(GetProcessInfo(portMap[p], table)))]
  }

  /** The records built from the port map, or the caught exception. */
  function RecordsOf(c: Collected, table: ProcessTable): seq<Record>
    requires Consistent(c)
  {
    match c
    case Crashed(m) => ErrorList(FailurePrefix + m)
    case Collected(m, order) =>
      var rs := InUseRecords(SortedPorts(order), m, table);
      if rs == [] then ErrorList(NoPortsMessage) else rs
  }

  /** What `listPorts()` returns once the listing command printed `output`. */
  function ListingOf(platform: string, output: string, table: ProcessTable): seq<Record> {
    if Trim(output) == [] then ErrorList(NoPortsMessage)
    else RecordsOf(Collect(Parses(platform, ListingLines(platform, output))), table)
  }

  /** What `listPorts()` returns. */
  function Listing(platform: string, exec: string -> CmdResult, table: ProcessTable): (r: seq<Record>)
    ensures IsSingleError(r) || IsPortListing(r)
    ensures !Supported(platform) ==> r == ErrorList("Unsupported platform: " + platform)
    ensures Supported(platform) && exec(ListCommand(platform)).CmdFailed? ==>
      r == ErrorList(FailurePrefix + exec(ListCommand(platform)).message)
  {
    if !Supported(platform) then ErrorList("Unsupported platform: " + platform)
    else
      match exec(ListCommand(platform))
      case CmdFailed(m) => ErrorList(FailurePrefix + m)
      case Output(output) =>
        ListingOfShape(platform, output, table);
        ListingOf(platform, output, table)
  }

  /** `listPorts()`: fill the port map line by line, then build one record per port in ascending order. */
  method ListPorts(platform: string, exec: string -> CmdResult, table: ProcessTable) returns (results: seq<Record>)
    ensures results == Listing(platform, exec, table)
    ensures IsSingleError(results) || IsPortListing(results)
  {
    var command: string;
    if platform == "win32" {
      command := WindowsListCommand;
    } else if platform == "linux" || platform == "darwin" {
      command := PosixListCommand;
    } else {
      return ErrorList("Unsupported platform: " + platform);
    }
    var output: string;
    match exec(command) {
      case CmdFailed(m) => return ErrorList(FailurePrefix + m);
      case Output(text) => output := text;
    }
    results := RecordsFromOutput(platform, output, table);
  }

  /** The part of `listPorts()` after the command printed `output`. */
  method RecordsFromOutput(platform: string, output: string, table: ProcessTable) returns (results: seq<Record>)
    ensures results == ListingOf(platform, output, table)
  {
    if Trim(output) == [] {
      return ErrorList(NoPortsMessage);
    }
    var collected := CollectLines(platform, ListingLines(platform, output));
    match collected {
      case Crashed(m) => return ErrorList(FailurePrefix + m);
      case Collected(portMap, order) =>
        results := InUseRecordsOf(SortedPorts(order), portMap, table);
        if results == [] {
          results := ErrorList(NoPortsMessage);
        }
    }
  }

  /** The loop over the lines: `portMap.set(port, pid)` for each line that yields a port; a line that throws ends it. */
  method CollectLines(platform: string, lines: seq<string>) returns (c: Collected)
    ensures c == Collect(Parses(platform, lines))
  {
    ghost var parses := Parses(platform, lines);
    var portMap: map<int, string> := map[];
    var order: seq<int> := [];
    for i := 0 to |lines|
      invariant Collect(parses[..i]) == Collected(portMap, order)
    {
      var parsed := ParseLine(platform, lines[i]);
      CollectPrefix(parses, i);
      assert parses[i] == parsed;
      match parsed {
        case Skip =>
        case Entry(port, pid) =>
          if port !in portMap {
            order := order + [port];
          }
          portMap := portMap[port := pid];
        case Crash(m) =>
          CrashStops(parses, i + 1);
          return Crashed(m);
      }
    }
    assert parses[..|lines|] == parses;
    return Collected(portMap, order);
  }

  lemma CollectPrefix(parses: seq<LineParse>, i: nat)
    requires i < |parses|
    ensures Collect(parses[..i + 1]) == Step(Collect(parses[..i]), parses[i])
  {
    assert parses[..i + 1][..i] == parses[..i];
  }

  /** The loop over the sorted ports: one in-use record per port, named from the process table. */
  method InUseRecordsOf(ports: seq<int>, portMap: map<int, string>, table: ProcessTable) returns (results: seq<Record>)
    requires forall p :: p in ports ==> p in portMap
    ensures results == InUseRecords(ports, portMap, table)
  {
    results := [];
    for j := 0 to |ports|
      invariant results == InUseRecords(ports[..j], portMap, table)
    {
      var port := ports[j];
      InUseRecordsPrefix(ports, portMap, table, j);
      var pid := portMap[port];
      results := results + [InUseBy(PortNumber(port), pid, NameOrUnknown(GetProcessInfo(pid, table)))];
    }
    assert ports[..|ports|] == ports;
  }

  lemma InUseRecordsPrefix(ports: seq<int>, portMap: map<int, string>, table: ProcessTable, j: nat)
    requires forall p :: p in ports ==> p in portMap
    requires j < |ports|
    ensures ports[j] in portMap
    ensures InUseRecords(ports[..j + 1], portMap, table)
      == InUseRecords(ports[..j], portMap, table)
        + [InUseBy(PortNumber(ports[j]), portMap[ports[j]], NameOrUnknown(GetProcessInfo(portMap[ports[j]], table)))]
  {
    var p := ports[j];
    assert p in ports;
    assert ports[..j + 1][..j] == ports[..j];
  }

  predicate IsSingleError(rs: seq<Record>) {
    |rs| == 1 && rs[0].status == Error && rs[0].port == NoPort && rs[0].message.Some?
  }

  /** Every record is "in-use" with a numeric port, a pid and a process name, in strictly ascending port order. */
  predicate IsPortListing(rs: seq<Record>) {
    && (forall i :: 0 <= i < |rs| ==>
          rs[i].status == InUse && rs[i].port.PortNumber? && rs[i].pid.Some? && rs[i].processName.Some?)
    && (forall i, j :: 0 <= i < j < |rs| ==> rs[i].port.n < rs[j].port.n)
  }

  // ---------------------------------------------------------------------------
  // Properties of the listing
  // ---------------------------------------------------------------------------

  /** Once a line throws, later lines change nothing: the exception ends the loop. */
  lemma {:induction false} CrashStops(parses: seq<LineParse>, k: nat)
    requires 0 < k <= |parses| && parses[k - 1].Crash?
    requires Collect(parses[..k - 1]).Collected?
    ensures Collect(parses) == Crashed(parses[k - 1].message)
    decreases |parses|
  {
    if k < |parses| {
      var init := parses[..|parses| - 1];
      assert init[..k - 1] == parses[..k - 1];
      assert init[k - 1] == parses[k - 1];
      CrashStops(init, k);
    } else {
      assert parses[..|parses| - 1] == parses[..k - 1];
    }
  }

  /** The record at position `k` carries the `k`-th port and its mapped pid. */
  lemma {:induction false} InUseRecordsAt(ports: seq<int>, portMap: map<int, string>, table: ProcessTable, k: nat)
    requires forall p :: p in ports ==> p in portMap
    requires k < |ports|
    ensures InUseRecords(ports, portMap, table)[k]
      == InUseBy(PortNumber(ports[k]), portMap[ports[k]], NameOrUnknown(GetProcessInfo(portMap[ports[k]], table)))
    decreases |ports|
  {
    if k < |ports| - 1 {
      InUseRecordsAt(ports[..|ports| - 1], portMap, table, k);
    }
  }

  /** Records built from strictly ascending ports form a port listing. */
  lemma InUseRecordsListing(ports: seq<int>, portMap: map<int, string>, table: ProcessTable)
    requires forall p :: p in ports ==> p in portMap
    requires StrictlyIncreasing(ports)
    ensures IsPortListing(InUseRecords(ports, portMap, table))
  {
    var rs := InUseRecords(ports, portMap, table);
    forall i | 0 <= i < |rs| ensures rs[i].status == InUse && rs[i].port == PortNumber(ports[i])
      && rs[i].pid.Some? && rs[i].processName.Some? {
      InUseRecordsAt(ports, portMap, table, i);
    }
  }

  lemma RecordsOfShape(c: Collected, table: ProcessTable)
    requires Consistent(c)
    ensures IsSingleError(RecordsOf(c, table)) || IsPortListing(RecordsOf(c, table))
  {
    if c.Collected? {
      InUseRecordsListing(SortedPorts(c.order), c.portMap, table);
    }
  }

  lemma ListingOfShape(platform: string, output: string, table: ProcessTable)
    ensures IsSingleError(ListingOf(platform, output, table)) || IsPortListing(ListingOf(platform, output, table))
  {
    if Trim(output) != [] {
      RecordsOfShape(Collect(Parses(platform, ListingLines(platform, output))), table);
    }
  }

  /** The records built from the port map list exactly its keys. */
  lemma RecordsListMapKeys(c: Collected, table: ProcessTable, port: int)
    requires c.Collected? && Consistent(c) && c.order != []
    ensures var rs := RecordsOf(c, table);
      (exists i :: 0 <= i < |rs| && rs[i].port == PortNumber(port)) <==> port in c.portMap
  {
    var ports := SortedPorts(c.order);
    var rs := InUseRecords(ports, c.portMap, table);
    assert rs != [];
    assert RecordsOf(c, table) == rs;
    if exists i :: 0 <= i < |rs| && rs[i].port == PortNumber(port) {
      var i :| 0 <= i < |rs| && rs[i].port == PortNumber(port);
      InUseRecordsAt(ports, c.portMap, table, i);
      assert ports[i] in ports;
    }
    if port in c.portMap {
      assert port in c.order;
      assert port in ports;
      var i :| 0 <= i < |ports| && ports[i] == port;
      InUseRecordsAt(ports, c.portMap, table, i);
      assert i < |rs| && rs[i].port == PortNumber(port);
    }
  }

  /** The line contributes an entry for `port`. */
  predicate YieldsPort(e: LineParse, port: int) {
    e.Entry? && e.port == port
  }

  /** A port is listed exactly when some visited line yields it. */
  lemma ListedPortsAreYielded(parses: seq<LineParse>, table: ProcessTable, port: int)
    requires Collect(parses).Collected?
    requires IsPortListing(RecordsOf(Collect(parses), table))
    ensures var rs := RecordsOf(Collect(parses), table);
      (exists i :: 0 <= i < |rs| && rs[i].port == PortNumber(port))
        <==> (exists k :: 0 <= k < |parses| && YieldsPort(parses[k], port))
  {
    var c := Collect(parses);
    CollectedKeys(parses, port);
    NoKeysNoListing(c, table);
    RecordsListMapKeys(c, table, port);
  }

  /** A map with no keys yields the "No listening ports found" error record. */
  lemma NoKeysNoListing(c: Collected, table: ProcessTable)
    requires c.Collected? && Consistent(c)
    ensures c.order == [] ==> RecordsOf(c, table) == ErrorList(NoPortsMessage)
    ensures c.order == [] ==> !IsPortListing(RecordsOf(c, table))
  {
    if c.order == [] {
      assert SortedPorts(c.order) == [];
      var rs := RecordsOf(c, table);
      assert !rs[0].port.PortNumber?;
    }
  }

  /** The last line that yields a port decides its pid: a later `Map.set` overwrites an earlier one. */
  lemma {:induction false} LastLineWins(parses: seq<LineParse>, k: nat)
    requires Collect(parses).Collected?
    requires k < |parses| && parses[k].Entry?
    requires forall j :: k < j < |parses| ==> !YieldsPort(parses[j], parses[k].port)
    ensures parses[k].port in Collect(parses).portMap
    ensures Collect(parses).portMap[parses[k].port] == parses[k].pid
    decreases |parses|
  {
    var init := parses[..|parses| - 1];
    if k < |parses| - 1 {
      assert init[k] == parses[k];
      forall j | k < j < |init| ensures !YieldsPort(init[j], init[k].port) {
        assert init[j] == parses[j];
      }
      LastLineWins(init, k);
    }
  }

  /**
   * On win32 the pid of a port is the one on the last output line holding "LISTENING"
   * that yields the port: the `filter` before the loop keeps the output's line order.
   */
  lemma Win32LastListeningLineWins(output: string, lines: seq<string>, k: nat)
    requires lines == Split(output, '\n')
    requires k < |lines| && Contains(lines[k], "LISTENING") && WindowsLine(lines[k]).Entry?
    requires forall j :: k < j < |lines| && Contains(lines[j], "LISTENING") ==>
      !YieldsPort(WindowsLine(lines[j]), WindowsLine(lines[k]).port)
    requires Collect(Parses("win32", ListingLines("win32", output))).Collected?
    ensures WindowsLine(lines[k]).port in Collect(Parses("win32", ListingLines("win32", output))).portMap
    ensures Collect(Parses("win32", ListingLines("win32", output))).portMap[WindowsLine(lines[k]).port]
      == WindowsLine(lines[k]).pid
  {
    LastListeningLineWins(lines, k);
  }

  /** `LastLineWins` carried through the "LISTENING" filter. */
  lemma {:induction false} LastListeningLineWins(lines: seq<string>, k: nat)
    requires k < |lines| && Contains(lines[k], "LISTENING") && WindowsLine(lines[k]).Entry?
    requires forall j :: k < j < |lines| && Contains(lines[j], "LISTENING") ==>
      !YieldsPort(WindowsLine(lines[j]), WindowsLine(lines[k]).port)
    requires Collect(Parses("win32", Filter(lines, "LISTENING"))).Collected?
    ensures WindowsLine(lines[k]).port in Collect(Parses("win32", Filter(lines, "LISTENING"))).portMap
    ensures Collect(Parses("win32", Filter(lines, "LISTENING"))).portMap[WindowsLine(lines[k]).port]
      == WindowsLine(lines[k]).pid
  {
    FilterAround(lines, "LISTENING", k);
    var kept, at := Filter(lines, "LISTENING"), |Filter(lines[..k], "LISTENING")|;
    assert kept[at] == lines[k];
    var e := WindowsLine(lines[k]);
    var parses := Parses("win32", kept);
    assert parses[at] == e;
    forall j | at < j < |parses| ensures !YieldsPort(parses[j], e.port) {
      KeptAfter(lines, "LISTENING", k, j);
      var i :| k < i < |lines| && lines[i] == kept[j];
    }
    LastLineWins(parses, at);
  }

  /** The keys of the port map are the ports the lines yield. */
  lemma {:induction false} CollectedKeys(parses: seq<LineParse>, port: int)
    requires Collect(parses).Collected?
    ensures port in Collect(parses).portMap <==> exists k :: 0 <= k < |parses| && YieldsPort(parses[k], port)
    decreases |parses|
  {
    if parses != [] {
      var init := parses[..|parses| - 1];
      CollectedKeys(init, port);
      if exists k :: 0 <= k < |parses| && YieldsPort(parses[k], port) {
        var k :| 0 <= k < |parses| && YieldsPort(parses[k], port);
        if k < |init| {
          assert init[k] == parses[k];
        }
      }
      if exists k :: 0 <= k < |init| && YieldsPort(init[k], port) {
        var k :| 0 <= k < |init| && YieldsPort(init[k], port);
        assert parses[k] == init[k];
      }
    }
  }

  /** Output that is only white space gives the single "No listening ports found" error. */
  lemma BlankOutput(platform: string, exec: string -> CmdResult, table: ProcessTable)
    requires Supported(platform) && exec(ListCommand(platform)).Output?
    requires AllSpace(exec(ListCommand(platform)).text)
    ensures Listing(platform, exec, table) == ErrorList(NoPortsMessage)
  {
  }

  /** When no visited line yields a port and none throws, the listing is the single "No listening ports found" error. */
  lemma {:induction false} NothingParsed(parses: seq<LineParse>, table: ProcessTable)
    requires forall k :: 0 <= k < |parses| ==> !parses[k].Entry? && !parses[k].Crash?
    ensures RecordsOf(Collect(parses), table) == ErrorList(NoPortsMessage)
    decreases |parses|
  {
    if parses != [] {
      NothingParsed(parses[..|parses| - 1], table);
    }
  }

  // ---------------------------------------------------------------------------
  // Line parsing against rendered lines
  // ---------------------------------------------------------------------------

  /** An `lsof` line whose ninth field is `host:port` yields that port and its second field as pid. */
  lemma PosixLineRoundTrip(fields: seq<string>, host: string, port: nat)
    requires IsWordList(fields) && |fields| >= 9
    requires fields[8] == host + ":" + IntToString(port)
    ensures PosixLine(Join(fields, " ")) == Entry(port, fields[1])
  {
    FieldsJoin(fields);
    assert ':' in fields[8] by { assert fields[8][|host|] == ':'; }
    NoColonInDigits(port);
    SplitLastPiece(host, IntToString(port), ':');
    ParseIntRoundTrip(port);
  }

  /** A `netstat -aon` line whose second field is `address:port` yields that port and its last field as pid. */
  lemma WindowsLineRoundTrip(fields: seq<string>, host: string, port: int)
    requires IsWordList(fields) && |fields| >= 2
    requires fields[1] == host + ":" + IntToString(port)
    ensures WindowsLine(Join(fields, " ")) == Entry(port, Last(fields))
  {
    FieldsJoin(fields);
    NoColonInInteger(port);
    SplitLastPiece(host, IntToString(port), ':');
    ParseIntRoundTrip(port);
  }

  lemma NoColonInDigits(n: nat)
    ensures ':' !in IntToString(n)
  {
    var s := IntToString(n);
    forall i | 0 <= i < |s| ensures s[i] != ':' {
      assert IsDecDigit(s[i]);
    }
  }

  lemma NoColonInInteger(n: int)
    ensures ':' !in IntToString(n)
  {
    if n >= 0 {
      NoColonInDigits(n);
    } else {
      NoColonInDigits(-n);
      assert IntToString(n) == "-" + IntToString(-n);
    }
  }
}
