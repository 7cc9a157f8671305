/**
 * `formatOutput` of lib/utils.js: the text printed for a result. A `chalk` colour is a
 * tag on a piece of text; `JSON.stringify(result, null, 2)` is the `stringify` oracle.
 */
module Format {
  import opened Wrappers
  import opened JsText
  import opened JsNumber
  import opened Records

  datatype Colour = Red | Green | Yellow | Cyan

  /** A string wrapped in one `chalk` colour. */
  datatype Painted = Painted(colour: Colour, text: string)

  /** What `formatOutput` is given: one record, or an array of them (the listing). */
  datatype Reply = One(record: Record) | Many(records: seq<Record>)

  /** The string returned: the JSON text, or coloured pieces joined by "\n" (one piece for a single record). */
  datatype Output = Json(text: string) | Coloured(lines: seq<Painted>)

  const UnknownResult := "Unknown result"

  /** `${record.port}` in a template literal. */
  function PortString(p: PortField): string {
    match p
    case NoPort => "undefined"
    case PortNumber(n) => IntToString(n)
    case PortNaN => "NaN"
    case PortText(t) => t
  }

  /** `${value}` of a property that may be missing. */
  function Shown(s: Option<string>): string {
    if s.Some? then s.value else "undefined"
  }

  /** `value || fallback`. */
  function OrElse(s: Option<string>, fallback: string): string {
    if Truthy(s) then s.value else fallback
  }

  /** The in-use line, the same for array items and single results. */
  function InUseLine(r: Record): Painted {
    Painted(Red, "Port " + PortString(r.port) + " is in use by " + OrElse(r.processName, "unknown")
      + " (PID " + OrElse(r.pid, "unknown") + ")")
  }

  /** One item of an array result. */
  function ItemLine(rec: Record): (line: Painted)
    ensures line.colour == Red <==> rec.status == InUse || rec.status == Error
    ensures line.colour != Red ==> line.colour == Yellow
    ensures rec.status == Error ==> line.text == "Error: " + Shown(rec.message)
  {
    if rec.status == InUse then InUseLine(rec)
    else if rec.status == Error then Painted(Red, "Error: " + Shown(rec.message))
    else Painted(Yellow, "Port " + PortString(rec.port) + ": " + rec.status.Name())
  }

  /** Numbers as `Array.prototype.join` renders them. */
  function Decimals(ns: seq<int>): (r: seq<string>)
    ensures |r| == |ns|
    ensures forall i :: 0 <= i < |ns| ==> r[i] == IntToString(ns[i])
    decreases |ns|
  {
    if ns == [] then [] else [IntToString(ns[0])] + Decimals(ns[1..])
  }

  function InfoText(port: PortField, info: Info): string {
    "Port " + PortString(port) + " info:\n"
      + "Name: " + info.name + "\n"
      + "PID: " + info.pid + "\n"
      + "Memory: " + info.memory + "\n"
      + "Command: " + info.cmd
  }

  /** A single result: the first matching branch of in-use, free, invalid, ports, info, message. */
  function SingleLine(rec: Record): (line: Painted)
    ensures line.colour == Red <==> rec.status == InUse || rec.status == Invalid
    ensures line.colour == Green <==> rec.status == Free || (rec.status !in {InUse, Invalid} && rec.ports.Some?)
    ensures line.colour == Cyan <==> rec.status !in {InUse, Free, Invalid} && rec.ports.None? && rec.info.Some?
  {
    if rec.status == InUse then InUseLine(rec)
    else if rec.status == Free then Painted(Green, "Port " + PortString(rec.port) + " is free")
    else if rec.status == Invalid then Painted(Red, "Invalid port: " + Shown(rec.message))
    else if rec.ports.Some? then Painted(Green, "Free ports: " + Join(Decimals(rec.ports.value), ", "))
    else if rec.info.Some? then Painted(Cyan, InfoText(rec.port, rec.info.value))
    else Painted(Yellow, OrElse(rec.message, UnknownResult))
  }

  /** `result.map(...)`: one line per item, in order. */
  function ItemLines(rs: seq<Record>): (r: seq<Painted>)
    ensures |r| == |rs|
    ensures forall i :: 0 <= i < |rs| ==> r[i] == ItemLine(rs[i])
    decreases |rs|
  {
    if rs == [] then [] else [ItemLine(rs[0])] + ItemLines(rs[1..])
  }

  /** `formatOutput(result, options)`. */
  function FormatOutput(reply: Reply, json: bool, stringify: Reply -> string): (o: Output)
    ensures o.Json? <==> json
    ensures !json && reply.Many? ==>
      |o.lines| == |reply.records| && forall i :: 0 <= i < |o.lines| ==> o.lines[i] == ItemLine(reply.records[i])
    ensures !json && reply.One? ==> |o.lines| == 1 && o.lines[0] == SingleLine(reply.record)
  {
    if json then Json(stringify(reply))
    else
      match reply
      case Many(rs) => Coloured(ItemLines(rs))
      case One(r) => Coloured([SingleLine(r)])
  }

  function Texts(lines: seq<Painted>): (r: seq<string>)
    ensures |r| == |lines|
    ensures forall i :: 0 <= i < |lines| ==> r[i] == lines[i].text
    decreases |lines|
  {
    if lines == [] then [] else [lines[0].text] + Texts(lines[1..])
  }

  /** The returned string with the colour codes taken out. */
  function Plain(o: Output): string {
    match o
    case Json(t) => t
    case Coloured(lines) => Join(Texts(lines), "\n")
  }

  // ---------------------------------------------------------------------------
  // Properties
  // ---------------------------------------------------------------------------

  /** With `--json` the output is the serialisation and nothing else, whatever the result. */
  lemma JsonOnly(reply: Reply, stringify: Reply -> string)
    ensures FormatOutput(reply, true, stringify) == Json(stringify(reply))
    ensures Plain(FormatOutput(reply, true, stringify)) == stringify(reply)
  {
  }

  /**
   * An array result is one line per item, in order: splitting the plain text at "\n"
   * gives the items' lines back, as long as no item's line holds a newline itself.
   */
  lemma {:induction false} OneLinePerItem(rs: seq<Record>, stringify: Reply -> string)
    requires rs != []
    requires forall i :: 0 <= i < |rs| ==> '\n' !in ItemLine(rs[i]).text
    ensures var o := FormatOutput(Many(rs), false, stringify);
      && o.Coloured? && |o.lines| == |rs|
      && Split(Plain(o), '\n') == Texts(ItemLines(rs))
      && forall i :: 0 <= i < |rs| ==> Split(Plain(o), '\n')[i] == ItemLine(rs[i]).text
  {
    var ts := Texts(ItemLines(rs));
    forall i | 0 <= i < |ts| ensures '\n' !in ts[i] {
      assert ts[i] == ItemLine(rs[i]).text;
    }
    SplitJoin(ts, '\n');
  }

  /** In-use records print the same way in an array and on their own. */
  lemma InUseSameEverywhere(r: Record)
    requires r.status == InUse
    ensures ItemLine(r) == SingleLine(r) == InUseLine(r)
  {
  }

  /**
   * A single error record with neither `ports` nor `info` prints its bare message in
   * yellow, without the "Error: " an array item gets.
   */
  lemma SingleErrorIsBare(r: Record)
    requires r.status == Error && r.ports.None? && r.info.None? && Truthy(r.message)
    ensures SingleLine(r) == Painted(Yellow, r.message.value)
    ensures ItemLine(r) == Painted(Red, "Error: " + r.message.value)
  {
  }

  /** The status decides first: a free or invalid record prints so even when it also carries ports, info or a message. */
  lemma StatusBeforeFields(r: Record)
    ensures r.status == Free ==> SingleLine(r).text == "Port " + PortString(r.port) + " is free"
    ensures r.status == Invalid ==> SingleLine(r) == Painted(Red, "Invalid port: " + Shown(r.message))
    ensures r.status !in {InUse, Free, Invalid} && r.ports.Some? ==> SingleLine(r).colour == Green
    ensures r.status !in {InUse, Free, Invalid} && r.ports.None? && r.info.Some? ==> SingleLine(r).colour == Cyan
    ensures r.status !in {InUse, Free, Invalid} && r.ports.None? && r.info.None? && !Truthy(r.message) ==>
      SingleLine(r) == Painted(Yellow, UnknownResult)
  {
  }

  /**
   * The "Free ports" line reads back: after its 12-character label, splitting at ","
   * and reading each piece with `parseInt` gives the ports in order.
   */
  lemma FreePortsReadBack(r: Record)
    requires r.status !in {InUse, Free, Invalid} && r.ports.Some? && r.ports.value != []
    ensures var text := SingleLine(r).text;
      && |text| >= 12 && text[..12] == "Free ports: "
      && |Split(text[12..], ',')| == |r.ports.value|
      && forall i :: 0 <= i < |r.ports.value| ==> ParseInt(Split(text[12..], ',')[i]) == Some(r.ports.value[i])
  {
    var ns := r.ports.value;
    var text := SingleLine(r).text;
    var body := Join(Decimals(ns), ", ");
    assert text == "Free ports: " + body;
    assert text[12..] == body;
    var pieces := Spaced(Decimals(ns));
    CommaSpaceJoin(Decimals(ns));
    forall i | 0 <= i < |pieces| ensures ',' !in pieces[i] {
      NoCommaInInteger(ns[i]);
    }
    SplitJoin(pieces, ',');
    PiecesReadBack(ns, pieces);
  }

  /** Every piece, with or without its leading space, reads back as its number. */
  lemma {:induction false} PiecesReadBack(ns: seq<int>, pieces: seq<string>)
    requires pieces == Spaced(Decimals(ns))
    ensures forall i :: 0 <= i < |ns| ==> ParseInt(pieces[i]) == Some(ns[i])
  {
    forall i | 0 <= i < |ns| ensures ParseInt(pieces[i]) == Some(ns[i]) {
      ParseIntRoundTrip(ns[i]);
      if i > 0 {
        assert pieces[i] == " " + IntToString(ns[i]);
        ParseIntSkipsSpace(" ", IntToString(ns[i]));
      }
    }
  }

  /** The pieces a split at "," leaves of a join with ", ": every piece after the first starts with the space. */
  function Spaced(xs: seq<string>): (r: seq<string>)
    ensures |r| == |xs|
    ensures |xs| > 0 ==> r[0] == xs[0]
    ensures forall i :: 0 < i < |xs| ==> r[i] == " " + xs[i]
  {
    if xs == [] then [] else [xs[0]] + seq(|xs| - 1, i requires 0 <= i < |xs| - 1 => " " + xs[i + 1])
  }

  lemma {:induction false} CommaSpaceJoin(xs: seq<string>)
    ensures Join(xs, ", ") == Join(Spaced(xs), ",")
    decreases |xs|
  {
    if |xs| >= 2 {
      var tail := xs[1..];
      var s := Spaced(xs);
      var st := Spaced(tail);
      CommaSpaceJoin(tail);
      assert s[1..] == [" " + st[0]] + st[1..];
      JoinPrefixedHead(" ", st, ",");
      assert Join(s[1..], ",") == " " + Join(tail, ", ");
      assert Join(s, ",") == s[0] + "," + Join(s[1..], ",");
    }
  }

  /** Prefixing the first part prefixes the join. */
  lemma JoinPrefixedHead(w: string, parts: seq<string>, sep: string)
    requires |parts| >= 1
    ensures Join([w + parts[0]] + parts[1..], sep) == w + Join(parts, sep)
  {
    var ps := [w + parts[0]] + parts[1..];
    assert ps[1..] == parts[1..];
    if |parts| > 1 {
      assert Join(ps, sep) == (w + parts[0]) + sep + Join(parts[1..], sep);
    }
  }

  lemma NoCommaInInteger(n: int)
    ensures ',' !in IntToString(n)
  {
    if n >= 0 {
      NoCommaInDigits(n);
    } else {
      NoCommaInDigits(-n);
      assert IntToString(n) == "-" + IntToString(-n);
    }
  }

  lemma NoCommaInDigits(n: nat)
    ensures ',' !in IntToString(n)
  {
    var s := IntToString(n);
    forall i | 0 <= i < |s| ensures s[i] != ',' {
      assert IsDecDigit(s[i]);
    }
  }
}
