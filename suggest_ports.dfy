/**
 * lib/suggestPorts.js: scan upward from a start port and collect the first `count` ports
 * the check reports "free". The check of one port is the `probe` oracle; the lemma
 * `ProbeByCheck` ties it to the model of the check.
 */
module PortSuggest {
  import opened Wrappers
  import opened JsNumber
  import opened Records
  import opened PortCheck

  const InvalidStartMessage := "Invalid start port"
  const NoFreeMessage := "No free ports found"
  const MaxPort := 65535

  /** `count` after `parseInt`: `None` stands for `NaN`, which no comparison satisfies. */
  predicate Below(n: int, count: Option<int>) {
    count.Some? && n < count.value
  }

  /** How many ports the scan wants: a `NaN` count asks for none, like a count of 0. */
  function Need(count: Option<int>): int {
    if count.Some? then count.value else 0
  }

  /** The first `need` ports from `p` up to 65535 that the probe reports free. */
  function FreeFrom(probe: int -> Status, p: int, need: int): (r: seq<int>)
    ensures |r| <= if need < 0 then 0 else need
    ensures forall i :: 0 <= i < |r| ==> p <= r[i] <= MaxPort && probe(r[i]) == Free
    ensures StrictlyIncreasing(r)
    decreases MaxPort + 1 - p
  {
    if need <= 0 || p > MaxPort then []
    else if probe(p) == Free then
      var rest := FreeFrom(probe, p + 1, need - 1);
      assert StrictlyIncreasing([p] + rest) by {
        forall i, j | 0 <= i < j < |rest| + 1 ensures ([p] + rest)[i] < ([p] + rest)[j] {
          assert ([p] + rest)[j] == rest[j - 1];
          if i > 0 { assert ([p] + rest)[i] == rest[i - 1]; }
        }
      }
      [p] + rest
    else FreeFrom(probe, p + 1, need)
  }

  /** What `suggestPorts(startPort, count)` returns. */
  function Suggestion(startPort: string, count: Option<int>, probe: int -> Status): (r: Record)
    ensures r.port == NoPort && (r.status == Success || r.status == Error)
    ensures r.status == Error ==> r.message == Some(InvalidStartMessage) || r.message == Some(NoFreeMessage)
    ensures r.status == Success ==> r.ports.Some? && 1 <= |r.ports.value| <= Need(count)
    ensures r.status == Success ==> ValidPortText(startPort)
    ensures r.status == Success ==> forall i :: 0 <= i < |r.ports.value| ==>
      ParseInt(startPort).value <= r.ports.value[i] <= MaxPort && probe(r.ports.value[i]) == Free
  {
    match ParseInt(startPort)
    case None => WithMessage(NoPort, Error, InvalidStartMessage)
    case Some(start) =>
      if start < 1 || start > MaxPort then WithMessage(NoPort, Error, InvalidStartMessage)
      else
        var ports := FreeFrom(probe, start, Need(count));
        if ports == [] then WithMessage(NoPort, Error, NoFreeMessage)
        else Record(NoPort, Success, None, None, None, None, Some(ports))
  }

  /** `suggestPorts(startPort, count)`: validate the start port, scan, and report what the scan found. */
  method SuggestPorts(startPort: string, count: Option<int>, probe: int -> Status) returns (r: Record)
    ensures r == Suggestion(startPort, count, probe)
  {
    var parsed := ParseInt(startPort);
    if parsed.None? || parsed.value < 1 || parsed.value > MaxPort {
      return WithMessage(NoPort, Error, InvalidStartMessage);
    }
    var results := Scan(parsed.value, count, probe);
    if |results| == 0 {
      return WithMessage(NoPort, Error, NoFreeMessage);
    }
    return Record(NoPort, Success, None, None, None, None, Some(results));
  }

  /** The `while` loop: probe each port from `start` on, keeping the free ones, until `count` are kept or 65535 is passed. */
  method Scan(start: int, count: Option<int>, probe: int -> Status) returns (results: seq<int>)
    ensures results == FreeFrom(probe, start, Need(count))
  {
    ghost var need := Need(count);
    ghost var goal := FreeFrom(probe, start, need);
    var port := start;
    results := [];
    while Below(|results|, count) && port <= MaxPort
      invariant results + FreeFrom(probe, port, need - |results|) == goal
      decreases MaxPort + 1 - port
    {
      ScanStep(probe, port, need, results);
      if probe(port) == Free {
        results := results + [port];
      }
      port := port + 1;
    }
    ScanDone(probe, port, need, results);
  }

  /** One turn of the loop keeps what is still to be found in step with the reference. */
  lemma ScanStep(probe: int -> Status, port: int, need: int, results: seq<int>)
    requires |results| < need && port <= MaxPort
    ensures probe(port) == Free ==>
      (results + [port]) + FreeFrom(probe, port + 1, need - |results + [port]|)
        == results + FreeFrom(probe, port, need - |results|)
    ensures probe(port) != Free ==>
      results + FreeFrom(probe, port + 1, need - |results|) == results + FreeFrom(probe, port, need - |results|)
  {
    FreeFromStep(probe, port, need - |results|);
    if probe(port) == Free {
      var rest := FreeFrom(probe, port + 1, need - |results| - 1);
      assert (results + [port]) + rest == results + ([port] + rest);
    }
  }

  /** When the loop stops, nothing is left to find. */
  lemma ScanDone(probe: int -> Status, port: int, need: int, results: seq<int>)
    requires |results| >= need || port > MaxPort
    ensures results + FreeFrom(probe, port, need - |results|) == results
  {
    FreeFromStep(probe, port, need - |results|);
    assert results + [] == results;
  }

  // ---------------------------------------------------------------------------
  // "Exactly the first k free ports at or above the start"
  // ---------------------------------------------------------------------------

  /**
   * The independent description of the scan's result: ascending free ports in
   * [p, 65535], no more than `need`, and every free port in range that is missing
   * lies beyond the last one found, after `need` ports were already found.
   */
  /** A port from `p` up to 65535 that the probe reports free. */
  predicate FreeInRange(probe: int -> Status, p: int, q: int) {
    p <= q <= MaxPort && probe(q) == Free
  }

  ghost predicate FirstFree(probe: int -> Status, p: int, need: int, r: seq<int>) {
    && StrictlyIncreasing(r)
    && (forall i :: 0 <= i < |r| ==> p <= r[i] <= MaxPort && probe(r[i]) == Free)
    && |r| <= (if need < 0 then 0 else need)
    && (forall q {:trigger FreeInRange(probe, p, q)} :: FreeInRange(probe, p, q) && q !in r ==>
          |r| >= need && (r == [] || r[|r| - 1] < q))
  }

  /** The scan skips no free port: what it finds is the first `need` of them. */
  lemma {:induction false} FreeFromIsFirstFree(probe: int -> Status, p: int, need: int)
    ensures FirstFree(probe, p, need, FreeFrom(probe, p, need))
    decreases MaxPort + 1 - p
  {
    if need <= 0 || p > MaxPort {
      FreeFromNone(probe, p, need);
    } else if probe(p) == Free {
      FreeFromIsFirstFree(probe, p + 1, need - 1);
      FreeFromTakesFree(probe, p, need);
    } else {
      FreeFromIsFirstFree(probe, p + 1, need);
      FreeFromSkipsBusy(probe, p, need);
    }
  }

  lemma FreeFromNone(probe: int -> Status, p: int, need: int)
    requires need <= 0 || p > MaxPort
    ensures FirstFree(probe, p, need, FreeFrom(probe, p, need))
  {
    FreeFromStep(probe, p, need);
  }

  lemma FreeFromTakesFree(probe: int -> Status, p: int, need: int)
    requires need > 0 && p <= MaxPort && probe(p) == Free
    requires FirstFree(probe, p + 1, need - 1, FreeFrom(probe, p + 1, need - 1))
    ensures FirstFree(probe, p, need, FreeFrom(probe, p, need))
  {
    FreeFromStep(probe, p, need);
    FirstFreeCons(probe, p, need, FreeFrom(probe, p + 1, need - 1));
  }

  lemma FreeFromSkipsBusy(probe: int -> Status, p: int, need: int)
    requires need > 0 && p <= MaxPort && probe(p) != Free
    requires FirstFree(probe, p + 1, need, FreeFrom(probe, p + 1, need))
    ensures FirstFree(probe, p, need, FreeFrom(probe, p, need))
  {
    FreeFromStep(probe, p, need);
    FirstFreeBeforeBusy(probe, p, need, FreeFrom(probe, p + 1, need));
  }

  lemma FirstFreeCons(probe: int -> Status, p: int, need: int, rest: seq<int>)
    requires p <= MaxPort && probe(p) == Free && need > 0
    requires FirstFree(probe, p + 1, need - 1, rest)
    ensures FirstFree(probe, p, need, [p] + rest)
  {
    var r := [p] + rest;
    forall i, j | 0 <= i < j < |r| ensures r[i] < r[j] {
      assert r[j] == rest[j - 1];
      if i > 0 { assert r[i] == rest[i - 1]; }
    }
    forall i | 0 <= i < |r| ensures p <= r[i] <= MaxPort && probe(r[i]) == Free {
      if i > 0 { assert r[i] == rest[i - 1]; }
    }
    forall q | FreeInRange(probe, p, q) && q !in r
      ensures |r| >= need && (r == [] || r[|r| - 1] < q)
    {
      assert q != p && q !in rest;
      assert FreeInRange(probe, p + 1, q);
      EndsInRange(rest, p + 1, MaxPort);
    }
  }

  lemma FirstFreeBeforeBusy(probe: int -> Status, p: int, need: int, r: seq<int>)
    requires probe(p) != Free
    requires FirstFree(probe, p + 1, need, r)
    ensures FirstFree(probe, p, need, r)
  {
    forall q | FreeInRange(probe, p, q) && q !in r
      ensures |r| >= need && (r == [] || r[|r| - 1] < q)
    {
      assert FreeInRange(probe, p + 1, q);
    }
  }

  /** The description has one solution only, so it defines the scan's result on its own. */
  lemma {:induction false} FirstFreeIsUnique(probe: int -> Status, p: int, need: int, r: seq<int>)
    requires FirstFree(probe, p, need, r)
    ensures r == FreeFrom(probe, p, need)
    decreases MaxPort + 1 - p, 1
  {
    if need <= 0 || p > MaxPort {
      FirstFreeEmpty(probe, p, need, r);
      FreeFromStep(probe, p, need);
    } else if probe(p) == Free {
      UniqueAtFree(probe, p, need, r);
    } else {
      UniqueAtBusy(probe, p, need, r);
    }
  }

  lemma {:induction false} UniqueAtFree(probe: int -> Status, p: int, need: int, r: seq<int>)
    requires FirstFree(probe, p, need, r) && need > 0 && p <= MaxPort && probe(p) == Free
    ensures r == FreeFrom(probe, p, need)
    decreases MaxPort + 1 - p, 0
  {
    FreeFromStep(probe, p, need);
    FirstFreeStartsAtFree(probe, p, need, r);
    FirstFreeTail(probe, p, need, r);
    var tail := r[1..];
    FirstFreeIsUnique(probe, p + 1, need - 1, tail);
    assert r == [p] + tail;
  }

  lemma {:induction false} UniqueAtBusy(probe: int -> Status, p: int, need: int, r: seq<int>)
    requires FirstFree(probe, p, need, r) && need > 0 && p <= MaxPort && probe(p) != Free
    ensures r == FreeFrom(probe, p, need)
    decreases MaxPort + 1 - p, 0
  {
    FirstFreeAfterBusy(probe, p, need, r);
    FirstFreeIsUnique(probe, p + 1, need, r);
    FreeFromStep(probe, p, need);
  }

  lemma FirstFreeEmpty(probe: int -> Status, p: int, need: int, r: seq<int>)
    requires FirstFree(probe, p, need, r) && (need <= 0 || p > MaxPort)
    ensures r == []
  {
    EndsInRange(r, p, MaxPort);
  }

  lemma EndsInRange(r: seq<int>, lo: int, hi: int)
    requires forall i :: 0 <= i < |r| ==> lo <= r[i] <= hi
    ensures r != [] ==> lo <= r[0] <= hi && lo <= r[|r| - 1] <= hi
  {
  }

  lemma FirstFreeStartsAtFree(probe: int -> Status, p: int, need: int, r: seq<int>)
    requires FirstFree(probe, p, need, r) && need > 0 && p <= MaxPort && probe(p) == Free
    ensures r != [] && r[0] == p
  {
    assert r != [] ==> p <= r[|r| - 1];
    assert FreeInRange(probe, p, p);
    assert p in r;
    var i :| 0 <= i < |r| && r[i] == p;
    assert r[0] <= r[i];
    assert p <= r[0];
  }

  lemma FirstFreeAfterBusy(probe: int -> Status, p: int, need: int, r: seq<int>)
    requires FirstFree(probe, p, need, r) && probe(p) != Free
    ensures FirstFree(probe, p + 1, need, r)
  {
    forall i | 0 <= i < |r| ensures p + 1 <= r[i] {
      assert probe(r[i]) == Free;
    }
    forall q | FreeInRange(probe, p + 1, q) && q !in r
      ensures |r| >= need && (r == [] || r[|r| - 1] < q)
    {
      assert FreeInRange(probe, p, q);
    }
  }

  /** One iteration of the scan. */
  lemma FreeFromStep(probe: int -> Status, p: int, need: int)
    ensures need <= 0 || p > MaxPort ==> FreeFrom(probe, p, need) == []
    ensures need > 0 && p <= MaxPort && probe(p) == Free ==>
      FreeFrom(probe, p, need) == [p] + FreeFrom(probe, p + 1, need - 1)
    ensures need > 0 && p <= MaxPort && probe(p) != Free ==>
      FreeFrom(probe, p, need) == FreeFrom(probe, p + 1, need)
  {
  }

  lemma FirstFreeTail(probe: int -> Status, p: int, need: int, r: seq<int>)
    requires FirstFree(probe, p, need, r) && r != [] && r[0] == p
    ensures FirstFree(probe, p + 1, need - 1, r[1..])
  {
    var tail := r[1..];
    forall i | 0 <= i < |tail| ensures p + 1 <= tail[i] <= MaxPort && probe(tail[i]) == Free {
      assert tail[i] == r[i + 1];
      assert r[0] < r[i + 1];
    }
    forall q | FreeInRange(probe, p + 1, q) && q !in tail
      ensures |tail| >= need - 1 && (tail == [] || tail[|tail| - 1] < q)
    {
      assert q != r[0];
      assert forall i :: 1 <= i < |r| ==> r[i] == tail[i - 1];
      assert q !in r;
      assert FreeInRange(probe, p, q);
      assert r[|r| - 1] < q;
      if tail == [] {
        assert r[|r| - 1] == p;
      }
    }
  }

  // ---------------------------------------------------------------------------
  // The result record
  // ---------------------------------------------------------------------------

  /** The start-port check is the check's own validity test: parse, then 1..65535. */
  lemma InvalidStartIff(startPort: string, count: Option<int>, probe: int -> Status)
    ensures Suggestion(startPort, count, probe) == WithMessage(NoPort, Error, InvalidStartMessage)
      <==> !ValidPortText(startPort)
  {
  }

  /**
   * A successful suggestion lists the first free ports from the start, at most `count`
   * of them; the "No free ports found" error comes exactly when the start is valid and
   * no free port lies in reach, or `count` is at most 0 or `NaN`.
   */
  lemma SuggestionResult(startPort: string, count: Option<int>, probe: int -> Status)
    requires ValidPortText(startPort)
    ensures var r := Suggestion(startPort, count, probe);
      var start := ParseInt(startPort).value;
      && (r.status == Success ==>
            r.ports.Some? && FirstFree(probe, start, Need(count), r.ports.value) && r.ports.value != [])
      && (r.status == Error <==> r.message == Some(NoFreeMessage))
      && (r.status == Error <==> FreeFrom(probe, start, Need(count)) == [])
      && (r.status == Success || r.status == Error)
  {
    FreeFromIsFirstFree(probe, ParseInt(startPort).value, Need(count));
  }

  /** A count of 0, a negative count and a `NaN` count all end in "No free ports found". */
  lemma NoCountNoPorts(startPort: string, count: Option<int>, probe: int -> Status)
    requires ValidPortText(startPort)
    requires count.None? || count.value <= 0
    ensures Suggestion(startPort, count, probe) == WithMessage(NoPort, Error, NoFreeMessage)
  {
  }

  /**
   * With the probe being the check of each port in its own environment, every
   * suggested port had both binds reach "listening", or was refused with EACCES while
   * the netstat fallback found no pid.
   */
  lemma ProbeByCheck(startPort: string, count: Option<int>, probe: int -> Status, envAt: int -> Env, p: int)
    requires forall q :: probe(q) == CheckPort(IntToString(q), envAt(q)).status
    requires Suggestion(startPort, count, probe).ports.Some?
    requires p in Suggestion(startPort, count, probe).ports.value
    ensures FirstBindFailure(envAt(p)).None?
      || (FirstBindFailure(envAt(p)) == Some(PermissionDenied)
          && !Truthy(FindPid(envAt(p).platform, p, envAt(p).exec)))
  {
    var start := ParseInt(startPort).value;
    var ports := FreeFrom(probe, start, Need(count));
    var i :| 0 <= i < |ports| && ports[i] == p;
    assert probe(p) == Free && 1 <= p <= MaxPort;
    ParseIntRoundTrip(p);
    FreeIff(p, envAt(p));
  }
}
