/**
 * The byte counters of `send_data` in simpleperf.py, with the socket
 * abstracted away: each `send` call is counted as `dataSent += 1000`,
 * whatever `send` returns. The wall clock enters as two
 * inputs: how many times the time-mode loop condition held (`rounds`) and the
 * set of loop iterations at which the interval had elapsed (`reportAt`).
 * An interval or time given as `None` is represented by 0: both are falsy.
 */
module Sender {
  import opened Wrappers

  /** `len(dataPacket)`: every `send` call is counted as 1000 bytes. */
  const PacketSize: nat := 1000

  /** One interval line: the window `tempInterval - endInterval` and `diffSent`, the bytes sent in it. */
  datatype Report = Report(windowStart: int, windowEnd: int, sent: int)

  /** The loop variables `dataSent`, `startSent`, `endInterval`, and the interval lines printed so far. */
  datatype Counters = Counters(dataSent: int, startSent: int, endInterval: int, reports: seq<Report>)

  /** The variables when a transfer loop starts: everything 0, nothing printed. */
  function Start(): Counters {
    Counters(0, 0, 0, [])
  }

  /**
   * One pass of the loop body: count a packet passed to `send`, then, when
   * an interval is set and has elapsed, report the bytes counted since the
   * previous report over the window that starts where the previous one ended.
   */
  function Tick(c: Counters, interval: int, elapsed: bool): Counters {
    var dataSent := c.dataSent + PacketSize;
    if interval != 0 && elapsed then
      var diffSent := dataSent - c.startSent;
      Counters(dataSent, dataSent, c.endInterval + interval,
               c.reports + [Report(c.endInterval, c.endInterval + interval, diffSent)])
    else
      c.(dataSent := dataSent)
  }

  /** The variables after `n` passes of the loop body; pass `i` sees the interval elapsed iff `i in reportAt`. */
  function Run(n: nat, interval: int, reportAt: set<nat>): Counters {
    if n == 0 then Start() else Tick(Run(n - 1, interval, reportAt), interval, n - 1 in reportAt)
  }

  /** The number of passes below `n` at which the interval had elapsed. */
  function Count(n: nat, reportAt: set<nat>): (k: nat)
    ensures k <= n
  {
    if n == 0 then 0 else Count(n - 1, reportAt) + (if n - 1 in reportAt then 1 else 0)
  }

  /** The sum of the bytes reported in `reports`. */
  function Reported(reports: seq<Report>): int {
    if reports == [] then 0 else Reported(reports[..|reports| - 1]) + reports[|reports| - 1].sent
  }

  /** Interval windows start at 0, each is `interval` long, and each starts where the previous one ended. */
  ghost predicate Contiguous(reports: seq<Report>, interval: int) {
    && (|reports| > 0 ==> reports[0].windowStart == 0)
    && (forall j :: 0 <= j < |reports| ==> reports[j].windowEnd == reports[j].windowStart + interval)
    && (forall j :: 0 < j < |reports| ==> reports[j].windowStart == reports[j - 1].windowEnd)
  }

  /** Every report covers at least one whole packet. */
  predicate WholeReports(reports: seq<Report>) {
    forall j :: 0 <= j < |reports| ==> reports[j].sent > 0 && reports[j].sent % PacketSize == 0
  }

  /**
   * The invariant of the bookkeeping: counts are whole packets, the reported
   * windows are contiguous and end at `endInterval`, every report covers at
   * least one packet, and the reports add up to `startSent`, which never
   * exceeds `dataSent`.
   */
  ghost predicate Consistent(c: Counters, interval: int) {
    && c.dataSent % PacketSize == 0
    && 0 <= c.startSent <= c.dataSent && c.startSent % PacketSize == 0
    && Contiguous(c.reports, interval)
    && c.endInterval == (if c.reports == [] then 0 else c.reports[|c.reports| - 1].windowEnd)
    && WholeReports(c.reports)
    && Reported(c.reports) == c.startSent
  }

  /** Whole packets stay whole: adding or taking away a multiple of 1000 keeps a multiple of 1000. */
  lemma WholePackets(a: int, b: int)
    requires a % PacketSize == 0 && b % PacketSize == 0
    ensures (a + PacketSize) % PacketSize == 0
    ensures (a - b) % PacketSize == 0
  {
    assert a == PacketSize * (a / PacketSize);
    assert b == PacketSize * (b / PacketSize);
    assert a + PacketSize == PacketSize * (a / PacketSize + 1);
    assert a - b == PacketSize * (a / PacketSize - b / PacketSize);
  }

  lemma ReportedAppend(reports: seq<Report>, x: Report)
    ensures Reported(reports + [x]) == Reported(reports) + x.sent
  {
    assert (reports + [x])[..|reports|] == reports;
  }

  /** A report appended at `endInterval` keeps the windows contiguous. */
  lemma ContiguousAppend(c: Counters, interval: int, x: Report)
    requires Consistent(c, interval)
    requires x.windowStart == c.endInterval && x.windowEnd == c.endInterval + interval
    ensures Contiguous(c.reports + [x], interval)
  {
    var r := c.reports + [x];
    assert forall j :: 0 <= j < |c.reports| ==> r[j] == c.reports[j];
  }

  lemma WholeReportsAppend(reports: seq<Report>, x: Report)
    requires WholeReports(reports) && x.sent > 0 && x.sent % PacketSize == 0
    ensures WholeReports(reports + [x])
  {
    var r := reports + [x];
    assert forall j :: 0 <= j < |reports| ==> r[j] == reports[j];
  }

  /** A pass only appends: the reports before it are a prefix of those after it. */
  lemma TickExtends(c: Counters, interval: int, elapsed: bool)
    ensures |c.reports| <= |Tick(c, interval, elapsed).reports|
    ensures Tick(c, interval, elapsed).reports[..|c.reports|] == c.reports
  {
    if interval != 0 && elapsed {
      var x := Report(c.endInterval, c.endInterval + interval, c.dataSent + PacketSize - c.startSent);
      assert (c.reports + [x])[..|c.reports|] == c.reports;
    } else {
      assert c.reports[..|c.reports|] == c.reports;
    }
  }

  /** A pass that prints no report keeps the invariant. */
  lemma QuietTickConsistent(c: Counters, interval: int)
    requires Consistent(c, interval)
    ensures Consistent(c.(dataSent := c.dataSent + PacketSize), interval)
  {
    WholePackets(c.dataSent, c.startSent);
  }

  /** A pass that prints a report keeps the invariant: the new report covers the packets since `startSent`. */
  lemma ReportTickConsistent(c: Counters, interval: int)
    requires Consistent(c, interval)
    ensures var dataSent := c.dataSent + PacketSize;
      var x := Report(c.endInterval, c.endInterval + interval, dataSent - c.startSent);
      Consistent(Counters(dataSent, dataSent, c.endInterval + interval, c.reports + [x]), interval)
  {
    var dataSent := c.dataSent + PacketSize;
    WholePackets(c.dataSent, c.startSent);
    WholePackets(dataSent, c.startSent);
    var x := Report(c.endInterval, c.endInterval + interval, dataSent - c.startSent);
    ReportedAppend(c.reports, x);
    ContiguousAppend(c, interval, x);
    WholeReportsAppend(c.reports, x);
  }

  /** One pass keeps the invariant, adds one packet, and adds a report exactly when an interval is set and has elapsed. */
  lemma TickConsistent(c: Counters, interval: int, elapsed: bool)
    requires Consistent(c, interval)
    ensures Consistent(Tick(c, interval, elapsed), interval)
    ensures Tick(c, interval, elapsed).dataSent == c.dataSent + PacketSize
    ensures |Tick(c, interval, elapsed).reports| == |c.reports| + if interval != 0 && elapsed then 1 else 0
  {
    if interval != 0 && elapsed {
      ReportTickConsistent(c, interval);
    } else {
      QuietTickConsistent(c, interval);
    }
  }

  /**
   * After `n` passes: `n` packets were counted, one report was printed per
   * pass at which the interval had elapsed (none when no interval is set), and
   * the bookkeeping invariant holds.
   */
  lemma {:induction false} RunConsistent(n: nat, interval: int, reportAt: set<nat>)
    ensures Consistent(Run(n, interval, reportAt), interval)
    ensures Run(n, interval, reportAt).dataSent == PacketSize * n
    ensures |Run(n, interval, reportAt).reports| == if interval == 0 then 0 else Count(n, reportAt)
  {
    if n > 0 {
      RunConsistent(n - 1, interval, reportAt);
      TickConsistent(Run(n - 1, interval, reportAt), interval, n - 1 in reportAt);
    }
  }

  /** Reports once printed stay as printed: the reports after `m` passes begin those after `n >= m` passes. */
  lemma {:induction false} RunReportsGrow(m: nat, n: nat, interval: int, reportAt: set<nat>)
    requires m <= n
    ensures |Run(m, interval, reportAt).reports| <= |Run(n, interval, reportAt).reports|
    ensures Run(n, interval, reportAt).reports[..|Run(m, interval, reportAt).reports|] == Run(m, interval, reportAt).reports
  {
    if m < n {
      var a, b := Run(m, interval, reportAt).reports, Run(n - 1, interval, reportAt).reports;
      RunReportsGrow(m, n - 1, interval, reportAt);
      TickExtends(Run(n - 1, interval, reportAt), interval, n - 1 in reportAt);
      var c := Run(n, interval, reportAt).reports;
      assert c[..|a|] == c[..|b|][..|a|];
    }
  }

  /** With contiguous windows, report `j` covers [j * interval, (j + 1) * interval], so the last window ends at `k * interval` after `k` reports. */
  lemma {:induction false} WindowsAreMultiples(reports: seq<Report>, interval: int)
    requires Contiguous(reports, interval)
    ensures forall j :: 0 <= j < |reports| ==> reports[j].windowStart == j * interval && reports[j].windowEnd == (j + 1) * interval
    ensures (if reports == [] then 0 else reports[|reports| - 1].windowEnd) == |reports| * interval
  {
    if reports != [] {
      var init := reports[..|reports| - 1];
      WindowsAreMultiples(init, interval);
      var k := |reports| - 1;
      if k > 0 {
        assert reports[k].windowStart == init[k - 1].windowEnd == k * interval;
      }
      assert reports[k].windowEnd == k * interval + interval == (k + 1) * interval;
    }
  }

  /** After `n` passes, `endInterval` is the number of reports times the interval. */
  lemma EndIntervalAfterRun(n: nat, interval: int, reportAt: set<nat>)
    ensures Run(n, interval, reportAt).endInterval == |Run(n, interval, reportAt).reports| * interval
  {
    RunConsistent(n, interval, reportAt);
    WindowsAreMultiples(Run(n, interval, reportAt).reports, interval);
  }

  /** The number of passes of `while dataSent <= totalData`: the loop stops at the first multiple of 1000 above `totalData`. */
  function SizeModeRounds(totalData: nat): (n: nat)
    ensures totalData < n * PacketSize <= totalData + PacketSize
  {
    totalData / PacketSize + 1
  }

  /** The size-mode loop overshoots: a target of 5000 bytes counts 6000. */
  lemma SizeModeOvershoots()
    ensures SizeModeRounds(5000) * PacketSize == 6000
  {
  }

  /**
   * The size-mode loop (`if totalData:` ... `while dataSent <= totalData`).
   * It is skipped for `None` and 0; otherwise it counts packets until `dataSent`
   * exceeds the target, so it ends strictly above the target and at most one
   * packet beyond it.
   */
  method SendBySize(totalData: Option<nat>, interval: int, reportAt: set<nat>) returns (r: Option<Counters>)
    ensures r.None? <==> totalData.None? || totalData.value == 0
    ensures r.Some? ==> r.value == Run(SizeModeRounds(totalData.value), interval, reportAt)
    ensures r.Some? ==> totalData.value < r.value.dataSent <= totalData.value + PacketSize
    ensures r.Some? ==> Consistent(r.value, interval)
  {
    if totalData.None? || totalData.value == 0 {
      return None;
    }
    var target := totalData.value;
    var dataSent, startSent, endInterval, reports := 0, 0, 0, [];
    var i: nat := 0;
    while dataSent <= target
      invariant Counters(dataSent, startSent, endInterval, reports) == Run(i, interval, reportAt)
      invariant dataSent == PacketSize * i
      invariant i <= SizeModeRounds(target)
      decreases SizeModeRounds(target) - i
    {
      dataSent := dataSent + PacketSize;
      if interval != 0 && i in reportAt {
        var currSent := dataSent;
        var diffSent := currSent - startSent;
        startSent := currSent;
        var tempInterval := endInterval;
        endInterval := endInterval + interval;
        reports := reports + [Report(tempInterval, endInterval, diffSent)];
      }
      i := i + 1;
    }
    assert i == SizeModeRounds(target);
    RunConsistent(i, interval, reportAt);
    r := Some(Counters(dataSent, startSent, endInterval, reports));
  }

  /** The first pass in [from, rounds) at which the interval had not elapsed. */
  function FirstQuiet(from: nat, rounds: nat, reportAt: set<nat>): (r: Option<nat>)
    ensures r.Some? ==> from <= r.value < rounds && r.value !in reportAt
    ensures r.Some? ==> forall j :: from <= j < r.value ==> j in reportAt
    ensures r.None? ==> forall j :: from <= j < rounds ==> j in reportAt
    decreases rounds - from
  {
    if from >= rounds then None
    else if from !in reportAt then Some(from)
    else FirstQuiet(from + 1, rounds, reportAt)
  }

  /** How a time-mode loop ends. */
  datatype TimedEnd =
    | Elapsed(counters: Counters)  // the loop condition stopped holding
    | ExitSent(counters: Counters) // 'exit' was sent and `sys.exit()` ended the thread

  /**
   * The time-mode loop (`if totTime:` ... `while elapsed <= totTime`), run for
   * the `rounds` passes the clock allows. When an interval is set that is at
   * least the total time, the first pass at which the interval has not
   * elapsed sends 'exit' and ends the thread.
   */
  method SendByTime(totTime: int, rounds: nat, interval: int, reportAt: set<nat>) returns (r: Option<TimedEnd>)
    ensures r.None? <==> totTime == 0
    ensures r.Some? ==>
      var quiet := if interval != 0 && interval >= totTime then FirstQuiet(0, rounds, reportAt) else None;
      match quiet
      case None => r.value == Elapsed(Run(rounds, interval, reportAt))
      case Some(i) => r.value == ExitSent(Run(i + 1, interval, reportAt))
  {
    if totTime == 0 {
      return None;
    }
    var dataSent, startSent, endInterval, reports := 0, 0, 0, [];
    var i: nat := 0;
    while i < rounds
      invariant i <= rounds
      invariant Counters(dataSent, startSent, endInterval, reports) == Run(i, interval, reportAt)
      invariant interval != 0 && interval >= totTime ==> forall j :: 0 <= j < i ==> j in reportAt
    {
      dataSent := dataSent + PacketSize;
      if interval != 0 {
        if i in reportAt {
          var currSent := dataSent;
          var diffSent := currSent - startSent;
          startSent := currSent;
          var tempInterval := endInterval;
          endInterval := endInterval + interval;
          reports := reports + [Report(tempInterval, endInterval, diffSent)];
        } else if interval >= totTime {
          return Some(ExitSent(Counters(dataSent, startSent, endInterval, reports)));
        }
      }
      i := i + 1;
    }
    r := Some(Elapsed(Counters(dataSent, startSent, endInterval, reports)));
  }

  /** The two ways `run_client` calls the session: with a time and no size, or with a size and no time. */
  datatype Mode = ByTime(totTime: int) | BySize(totalData: Option<nat>)

  /** How one `send_data` session ends. */
  datatype SessionEnd =
    | Finished(counters: Counters) // BYE sent, ACK received, a result line with `dataSent` appended
    | Exited(counters: Counters)   // 'exit' sent, thread ended by `sys.exit()`, no result
    | Unbound                      // no loop ran, so `dataSent` is unbound and the result fails

  /**
   * One sender session's counters, from the start of the transfer to the
   * final result. In size mode the outcome does not depend on the clock or on
   * interval reporting: every parallel connection counts the first multiple
   * of 1000 strictly above the target.
   */
  method SendData(mode: Mode, rounds: nat, interval: int, reportAt: set<nat>) returns (r: SessionEnd)
    ensures mode.BySize? ==> (r.Unbound? <==> mode.totalData.None? || mode.totalData.value == 0)
    ensures mode.BySize? ==> !r.Exited?
    ensures mode.BySize? && r.Finished? ==> r.counters.dataSent == SizeModeRounds(mode.totalData.value) * PacketSize
    ensures mode.ByTime? ==> (r.Unbound? <==> mode.totTime == 0)
    ensures mode.ByTime? && r.Finished? ==> r.counters.dataSent == PacketSize * rounds
    ensures r.Finished? || r.Exited? ==> Consistent(r.counters, interval)
  {
    match mode
    case ByTime(totTime) =>
      var timed := SendByTime(totTime, rounds, interval, reportAt);
      if timed.None? {
        return Unbound;
      }
      match timed.value {
        case Elapsed(c) =>
          RunConsistent(rounds, interval, reportAt);
          r := Finished(c);
        case ExitSent(c) =>
          var i := FirstQuiet(0, rounds, reportAt).value;
          RunConsistent(i + 1, interval, reportAt);
          r := Exited(c);
      }
    case BySize(totalData) =>
      var sized := SendBySize(totalData, interval, reportAt);
      if sized.None? {
        return Unbound;
      }
      RunConsistent(SizeModeRounds(totalData.value), interval, reportAt);
      r := Finished(sized.value);
  }
}
