/** What the statistics of common/common.py say about the reports behind them, over any run. */
module Accounting {
  import opened Text
  import opened Reports
  import opened Updater
  import Resume

  /** The state after a series of valid reports. */
  function OnReports(config: Config, rs: seq<Report>): (c: Core)
    ensures Sound(c)
  {
    if rs == [] then NEW_CORE else OnReport(config, OnReports(config, rs[..|rs| - 1]), rs[|rs| - 1])
  }

  /** What one report leaves of the state of one node. */
  lemma NodeAfter(config: Config, c: Core, r: Report, id: int)
    requires Sound(c)
    ensures var turned := c.hour.Some? && HourOf(r.ts) != c.hour.value;
            var s := if turned && id in config.nodes then NodeReset(Get(c.nodes, id)) else Get(c.nodes, id);
            var t := Get(OnReport(config, c, r).nodes, id);
            if r.nodeId != id then t == s
            else if id !in config.nodes then t == NodeReported(s, r)
            else match config.nodes[id]
                 case MeterReader =>
                   t == NodeReported(if ParseMeterLine(r.parts) == None then s else MeterState(s, r), r)
                 case TempSensor =>
                   t == NodeReported(s.(temps := t.temps), r)
    ensures OnReport(config, c, r).hour == Some(HourOf(r.ts))
  {
    var h := HourChanged(config, c, r);
    assert Get(h.nodes, id) ==
           if c.hour.Some? && HourOf(r.ts) != c.hour.value && id in config.nodes
           then NodeReset(Get(c.nodes, id)) else Get(c.nodes, id);
  }

  /** The last report starts a new hour. */
  predicate HourTurns(rs: seq<Report>)
  {
    |rs| > 1 && HourOf(rs[|rs| - 1].ts) != HourOf(rs[|rs| - 2].ts)
  }

  lemma HourIsLast(config: Config, rs: seq<Report>)
    ensures OnReports(config, rs).hour == if rs == [] then None else Some(HourOf(rs[|rs| - 1].ts))
  {
    if rs != [] {
      NodeAfter(config, OnReports(config, rs[..|rs| - 1]), rs[|rs| - 1], 0);
    }
  }

  // ---------- Meters ----------

  datatype Reading = Reading(ts: real, pingId: int, counter: int)

  /** The readings of one meter. */
  function Readings(rs: seq<Report>, id: int): seq<Reading>
  {
    if rs == [] then []
    else
      var r := rs[|rs| - 1];
      Readings(rs[..|rs| - 1], id) +
      if r.nodeId == id && ParseMeterLine(r.parts).Some?
      then [Reading(r.ts, r.pingId, ParseMeterLine(r.parts).value.0)] else []
  }

  /** The count a series of readings amounts to: the first one, and one plain step each from then on. */
  function Total(readings: seq<Reading>): int
  {
    if readings == [] then 0
    else
      var n := |readings| - 1;
      if n == 0 then readings[0].counter
      else Total(readings[..n]) + PlainStep(readings[n].pingId, readings[n].counter, readings[n - 1].counter)
  }

  lemma {:induction false} TotalSnoc(readings: seq<Reading>, r: Reading)
    ensures Total(readings + [r]) ==
            if readings == [] then r.counter
            else Total(readings) + PlainStep(r.pingId, r.counter, readings[|readings| - 1].counter)
  {
    assert (readings + [r])[..|readings|] == readings;
  }

  ghost predicate AllNonNegative(rs: seq<Report>)
  {
    forall i :: 0 <= i < |rs| ==> NonNegative(rs[i].parts)
  }

  /** The state of a meter that has sent these readings. */
  ghost predicate MeterKnows(s: NodeState, readings: seq<Reading>)
  {
    if readings == [] then s.lastLine == [] && s.realCounter == 0 && s.firstCount == 0
    else
      && s.lastLine != [] && ParseMeterLine(s.lastLine).Some?
      && ParseMeterLine(s.lastLine).value.0 == readings[|readings| - 1].counter
      && s.firstCount == readings[0].counter && s.firstTs == readings[0].ts
      && s.realCounter == Total(readings)
  }

  ghost predicate CountersOnly(readings: seq<Reading>)
  {
    forall i :: 0 <= i < |readings| ==> readings[i].counter >= 0
  }

  lemma {:induction false} ReadingsNonNegative(rs: seq<Report>, id: int)
    requires AllNonNegative(rs)
    ensures CountersOnly(Readings(rs, id))
  {
    if rs != [] {
      ReadingsNonNegative(rs[..|rs| - 1], id);
      if ParseMeterLine(rs[|rs| - 1].parts).Some? {
        CounterNonNegative(rs[|rs| - 1].parts);
      }
    }
  }

  lemma EarlierReadings(rs: seq<Report>, id: int)
    requires rs != [] && CountersOnly(Readings(rs, id))
    ensures CountersOnly(Readings(rs[..|rs| - 1], id))
    ensures var r := rs[|rs| - 1];
            r.nodeId == id && ParseMeterLine(r.parts).Some? ==> ParseMeterLine(r.parts).value.0 >= 0
  {
    var before, all := Readings(rs[..|rs| - 1], id), Readings(rs, id);
    assert forall i :: 0 <= i < |before| ==> all[i] == before[i];
    assert |all| > |before| ==> all[|before|].counter >= 0;
  }

  lemma OneMoreReading(s: NodeState, readings: seq<Reading>, r: Report)
    requires MeterKnows(s, readings) && CountersOnly(readings)
    requires ParseMeterLine(r.parts).Some? && ParseMeterLine(r.parts).value.0 >= 0
    ensures MeterKnows(MeterState(s, r), readings + [Reading(r.ts, r.pingId, ParseMeterLine(r.parts).value.0)])
  {
    var reading := Reading(r.ts, r.pingId, ParseMeterLine(r.parts).value.0);
    TotalSnoc(readings, reading);
    if readings != [] {
      StepOfCounters(r.pingId, reading.counter, readings[|readings| - 1].counter, s.lastPing, |r.parts|);
    }
  }

  /** The real counter of a meter is the total of its readings, whatever other nodes send in between and however
      often the hour turns. */
  lemma {:induction false} RealCounterIsTotal(config: Config, rs: seq<Report>, id: int)
    requires id in config.nodes && config.nodes[id].MeterReader? && CountersOnly(Readings(rs, id))
    ensures MeterKnows(Get(OnReports(config, rs).nodes, id), Readings(rs, id))
  {
    if rs != [] {
      var n := |rs| - 1;
      var r := rs[n];
      var s := Get(OnReports(config, rs[..n]).nodes, id);
      EarlierReadings(rs, id);
      RealCounterIsTotal(config, rs[..n], id);
      NodeAfter(config, OnReports(config, rs[..n]), r, id);
      var before := Readings(rs[..n], id);
      assert before + [] == before;
      assert MeterKnows(NodeReset(s), before);
      if r.nodeId == id && ParseMeterLine(r.parts).Some? {
        OneMoreReading(s, before, r);
        OneMoreReading(NodeReset(s), before, r);
      }
    }
  }

  /** It never decreases ... */
  lemma {:induction false} TotalGrows(readings: seq<Reading>, n: nat)
    requires CountersOnly(readings) && 0 < n <= |readings|
    ensures Total(readings[..n]) <= Total(readings)
    decreases |readings|
  {
    if n < |readings| {
      var k := |readings| - 1;
      TotalGrows(readings[..k], n);
      assert readings[..k][..n] == readings[..n];
    } else {
      assert readings[..n] == readings;
    }
  }

  /** ... is the raw counter as long as the node never restarts ... */
  lemma {:induction false} TotalWithoutRestart(readings: seq<Reading>)
    requires readings != []
    requires forall i :: 0 < i < |readings| ==>
               readings[i].pingId != 1 && readings[i].counter >= readings[i - 1].counter
    ensures Total(readings) == readings[|readings| - 1].counter
  {
    if |readings| > 1 {
      TotalWithoutRestart(readings[..|readings| - 1]);
    }
  }

  /** What has been reported of a meter's revolutions, and when. */
  function RevsOf(metrics: seq<Metric>, id: int): seq<(real, Value)>
  {
    if metrics == [] then []
    else
      var m := metrics[|metrics| - 1];
      RevsOf(metrics[..|metrics| - 1], id) + if m.nodeId == id && m.name == Revs then [(m.ts, m.value)] else []
  }

  /** The running totals of a series of readings. */
  function RunningTotals(readings: seq<Reading>): seq<(real, Value)>
  {
    if readings == [] then []
    else
      RunningTotals(readings[..|readings| - 1]) + [(readings[|readings| - 1].ts, Count(Total(readings)))]
  }

  lemma {:induction false} RevsAppend(a: seq<Metric>, b: seq<Metric>, id: int)
    ensures RevsOf(a + b, id) == RevsOf(a, id) + RevsOf(b, id)
  {
    if b == [] {
      assert a + b == a;
    } else {
      RevsAppend(a, b[..|b| - 1], id);
      assert (a + b)[..|a + b| - 1] == a + b[..|b| - 1];
    }
  }

  lemma RevsOfPair(m: Metric, n: Metric, id: int)
    requires n.name != Revs
    ensures RevsOf([m, n], id) == if m.nodeId == id && m.name == Revs then [(m.ts, m.value)] else []
  {
    var one := if m.nodeId == id && m.name == Revs then [(m.ts, m.value)] else [];
    assert [m][..0] == [];
    assert RevsOf([m], id) == one;
    assert [m, n][..1] == [m];
    assert one + [] == one;
  }

  /** What one report adds to the revolutions reported of a meter. */
  lemma RevsAfter(config: Config, c: Core, r: Report, id: int)
    requires Sound(c) && id in config.nodes && config.nodes[id].MeterReader?
    ensures RevsOf(OnReport(config, c, r).metrics, id) ==
            RevsOf(c.metrics, id) +
            if r.nodeId == id && ParseMeterLine(r.parts).Some?
            then [(r.ts, Count(Get(OnReport(config, c, r).nodes, id).realCounter))] else []
  {
    var h := HourChanged(config, c, r);
    assert RevsOf(c.metrics, id) + [] == RevsOf(c.metrics, id);
    if r.nodeId in config.nodes {
      match config.nodes[r.nodeId]
      case MeterReader =>
        var parsed := ParseMeterLine(r.parts);
        if parsed.Some? {
          var s := MeterState(Get(h.nodes, r.nodeId), r);
          var m, n := Metric(r.nodeId, Revs, r.ts, Count(s.realCounter)),
                      Metric(r.nodeId, Battery, r.ts, Count(parsed.value.1));
          RevsAppend(h.metrics, [m, n], id);
          RevsOfPair(m, n, id);
        }
      case TempSensor =>
        var parsed := ParseTempSensorLine(config, r.parts);
        if parsed.Some? {
          var m, n := Metric(r.nodeId, Temperature, r.ts, Degrees(parsed.value.0)),
                      Metric(r.nodeId, Battery, r.ts, Count(parsed.value.1));
          RevsAppend(h.metrics, [m, n], id);
          RevsOfPair(m, n, id);
        }
    }
  }

  /** The metric reported for each reading is the running total, at the time of the reading. */
  lemma {:induction false} RevsAreRunningTotals(config: Config, rs: seq<Report>, id: int)
    requires id in config.nodes && config.nodes[id].MeterReader? && CountersOnly(Readings(rs, id))
    ensures RevsOf(OnReports(config, rs).metrics, id) == RunningTotals(Readings(rs, id))
  {
    if rs != [] {
      var n := |rs| - 1;
      var before := Readings(rs[..n], id);
      EarlierReadings(rs, id);
      RevsAreRunningTotals(config, rs[..n], id);
      RevsAfter(config, OnReports(config, rs[..n]), rs[n], id);
      RealCounterIsTotal(config, rs, id);
      assert before + [] == before;
      if rs[n].nodeId == id && ParseMeterLine(rs[n].parts).Some? {
        assert Readings(rs, id)[..|before|] == before;
      }
    }
  }

  /** The hourly usages of a meter, added up. */
  function UsageSum(usages: seq<map<int, int>>, id: int): int
  {
    if usages == [] then 0
    else
      var u := usages[|usages| - 1];
      UsageSum(usages[..|usages| - 1], id) + if id in u then u[id] else 0
  }

  lemma UsageSumSnoc(usages: seq<map<int, int>>, u: map<int, int>, id: int)
    ensures UsageSum(usages + [u], id) == UsageSum(usages, id) + if id in u then u[id] else 0
  {
    assert (usages + [u])[..|usages|] == usages;
  }

  /** ... and is handed out hour by hour without loss: the hourly usages and the usage since the last report add
      up to what the meter has counted since its first reading. */
  lemma {:induction false} UsageConserved(config: Config, rs: seq<Report>, id: int)
    requires id in config.nodes && config.nodes[id].MeterReader? && CountersOnly(Readings(rs, id))
    ensures var c := OnReports(config, rs);
            var s := Get(c.nodes, id);
            UsageSum(c.usages, id) + (s.realCounter - s.hourCounter) == s.realCounter - s.firstCount
    ensures Readings(rs, id) == [] ==> Get(OnReports(config, rs).nodes, id).hourCounter == 0
  {
    RealCounterIsTotal(config, rs, id);
    if rs != [] {
      var n := |rs| - 1;
      var c := OnReports(config, rs[..n]);
      EarlierReadings(rs, id);
      UsageConserved(config, rs[..n], id);
      RealCounterIsTotal(config, rs[..n], id);
      NodeAfter(config, c, rs[n], id);
      UsagesAfter(config, c, rs[n], id);
    }
  }

  lemma UsagesAfter(config: Config, c: Core, r: Report, id: int)
    requires Sound(c) && id in config.nodes && config.nodes[id].MeterReader?
    ensures var turned := c.hour.Some? && HourOf(r.ts) != c.hour.value;
            var s := Get(c.nodes, id);
            UsageSum(OnReport(config, c, r).usages, id) ==
            UsageSum(c.usages, id) + if turned then s.realCounter - s.hourCounter else 0
  {
    var u := UsageOf(config, c.nodes, config.nodes.Keys);
    UsageSumSnoc(c.usages, u, id);
    assert u[id] == Get(c.nodes, id).realCounter - Get(c.nodes, id).hourCounter;
    assert OnReport(config, c, r).usages == HourChanged(config, c, r).usages;
  }

  // ---------- Meters over files and resumed runs ----------

  /** The valid reports among processed lines. */
  function ReportsIn(es: seq<Resume.Entry>): seq<Report>
  {
    if es == [] then []
    else
      ReportsIn(es[..|es| - 1]) +
      match Parse(es[|es| - 1].line)
      case None => []
      case Some(r) => [r]
  }

  lemma {:induction false} FoldIsOnReports(config: Config, es: seq<Resume.Entry>)
    ensures Resume.Fold(config, NEW_CORE, es) == OnReports(config, ReportsIn(es))
  {
    if es != [] {
      var rs := ReportsIn(es[..|es| - 1]);
      FoldIsOnReports(config, es[..|es| - 1]);
      match Parse(es[|es| - 1].line)
      case None =>
        assert rs + [] == rs;
      case Some(r) =>
        assert (rs + [r])[..|rs|] == rs;
    }
  }

  /** However often the processor was stopped and resumed while the logs grew, a meter's real counter is the
      total of all its readings in the logs, and what was handed out hour by hour plus the current hour is what
      it has counted since the first of them. */
  lemma MeterAccountsOverRuns(config: Config, snapshots: seq<seq<LogFile>>, id: int)
    requires id in config.nodes && config.nodes[id].MeterReader?
    requires snapshots != []
    requires forall i :: 0 < i < |snapshots| ==> Resume.Extends(snapshots[i - 1], snapshots[i])
    requires forall i :: 0 <= i < |snapshots| ==>
               snapshots[i] != [] && snapshots[i][|snapshots[i]| - 1].lines != []
    requires CountersOnly(Readings(ReportsIn(Resume.AllEntries(snapshots[|snapshots| - 1])), id))
    ensures var readings := Readings(ReportsIn(Resume.AllEntries(snapshots[|snapshots| - 1])), id);
            var c := Resume.RunAll(config, snapshots).core;
            var s := Get(c.nodes, id);
            && MeterKnows(s, readings)
            && UsageSum(c.usages, id) + (s.realCounter - s.hourCounter) == s.realCounter - s.firstCount
  {
    var files := snapshots[|snapshots| - 1];
    var es := Resume.AllEntries(files);
    Resume.ManyRunsEqualOne(config, snapshots);
    Resume.AfterFilesIs(config, NEW_HISTORY, Resume.FROM_START, files);
    FoldIsOnReports(config, es);
    RealCounterIsTotal(config, ReportsIn(es), id);
    UsageConserved(config, ReportsIn(es), id);
    Resume.PrintedAlike(config, OnReports(config, ReportsIn(es)));
  }

  // ---------- Reliability ----------

  /** The last report of a node. */
  function LastOf(rs: seq<Report>, id: int): Option<Report>
  {
    if rs == [] then None
    else if rs[|rs| - 1].nodeId == id then Some(rs[|rs| - 1])
    else LastOf(rs[..|rs| - 1], id)
  }

  lemma {:induction false} LastIsKept(config: Config, rs: seq<Report>, id: int)
    ensures var s := Get(OnReports(config, rs).nodes, id);
            match LastOf(rs, id)
            case None => s.lastTs == 0.0 && s.lastPing == 0
            case Some(r) => s.lastTs == r.ts && s.lastPing == r.pingId
  {
    if rs != [] {
      LastIsKept(config, rs[..|rs| - 1], id);
      NodeAfter(config, OnReports(config, rs[..|rs| - 1]), rs[|rs| - 1], id);
    }
  }

  /** How far the ping number jumped at the last report of rs, if it jumped. */
  function Jump(rs: seq<Report>): int
    requires rs != []
  {
    var r := rs[|rs| - 1];
    match LastOf(rs[..|rs| - 1], r.nodeId)
    case None => 0
    case Some(last) => if last.ts > 0.0 && r.pingId > last.pingId + 1 then r.pingId - last.pingId else 0
  }

  /** The reports of a node since its statistics were last started over. */
  function ReceivedSince(config: Config, rs: seq<Report>, id: int): nat
  {
    if rs == [] then 0
    else
      (if HourTurns(rs) && id in config.nodes then 0 else ReceivedSince(config, rs[..|rs| - 1], id))
      + if rs[|rs| - 1].nodeId == id then 1 else 0
  }

  /** The jumps of its ping number since then. */
  function JumpsSince(config: Config, rs: seq<Report>, id: int): int
  {
    if rs == [] then 0
    else
      (if HourTurns(rs) && id in config.nodes then 0 else JumpsSince(config, rs[..|rs| - 1], id))
      + if rs[|rs| - 1].nodeId == id then Jump(rs) else 0
  }

  /** Of the reports expected, those not received are the jumps. */
  lemma {:induction false} ReliabilityAccounts(config: Config, rs: seq<Report>, id: int)
    ensures var s := Get(OnReports(config, rs).nodes, id);
            && s.received == ReceivedSince(config, rs, id)
            && s.numReports - s.received == JumpsSince(config, rs, id) >= 0
  {
    if rs != [] {
      var n := |rs| - 1;
      var c := OnReports(config, rs[..n]);
      ReliabilityAccounts(config, rs[..n], id);
      LastIsKept(config, rs[..n], rs[n].nodeId);
      HourIsLast(config, rs[..n]);
      CountsAfter(config, c, rs[n], id);
      assert n > 0 ==> rs[..n][n - 1] == rs[|rs| - 2];
    }
  }

  /** What one report does to the two counts of a node. */
  lemma CountsAfter(config: Config, c: Core, r: Report, id: int)
    requires Sound(c)
    ensures var turned := c.hour.Some? && HourOf(r.ts) != c.hour.value && id in config.nodes;
            var s := Get(c.nodes, id);
            var t := Get(OnReport(config, c, r).nodes, id);
            var jump := if s.lastTs > 0.0 && r.pingId > s.lastPing + 1 then r.pingId - s.lastPing else 0;
            && t.received == (if turned then 0 else s.received) + (if r.nodeId == id then 1 else 0)
            && t.numReports == (if turned then 0 else s.numReports) + (if r.nodeId == id then 1 + jump else 0)
  {
    NodeAfter(config, c, r, id);
  }

  // ---------- Gaps ----------

  function Sum(xs: seq<real>): real
  {
    if xs == [] then 0.0 else Sum(xs[..|xs| - 1]) + xs[|xs| - 1]
  }

  lemma SumSnoc(xs: seq<real>, x: real)
    ensures Sum(xs + [x]) == Sum(xs) + x
  {
    assert (xs + [x])[..|xs|] == xs;
  }

  ghost predicate TimeSorted(rs: seq<Report>)
  {
    && (forall i :: 0 <= i < |rs| ==> rs[i].ts > 0.0)
    && (forall i, j :: 0 <= i <= j < |rs| ==> rs[i].ts <= rs[j].ts)
  }

  /** The time of the first report of a node in the current hour. */
  function FirstThisHour(rs: seq<Report>, id: int): Option<real>
  {
    if rs == [] then None
    else
      var before := if HourTurns(rs) then None else FirstThisHour(rs[..|rs| - 1], id);
      if before == None && rs[|rs| - 1].nodeId == id then Some(rs[|rs| - 1].ts) else before
  }

  /** The two ways the program takes the hour of a time agree. */
  lemma HoursAgree(ts: real)
    requires ts >= 0.0
    ensures Trunc(ts / 3600.0) == HourOf(ts)
    ensures 3600.0 * HourOf(ts) as real <= ts < 3600.0 * (HourOf(ts) + 1) as real
  {
    var q := (ts / 3600.0).Floor;
    assert q as real <= ts / 3600.0 < q as real + 1.0;
    assert 3600.0 * q as real <= ts < 3600.0 * (q + 1) as real;
    assert (3600 * q) as real <= ts < (3600 * (q + 1)) as real;
    assert 3600 * q <= ts.Floor < 3600 * (q + 1);
  }

  ghost predicate GapsTelescope(s: NodeState, first: Option<real>, hour: int)
  {
    match first
    case None => s.gaps == [] && (s.lastTs > 0.0 ==> HourOf(s.lastTs) < hour)
    case Some(t) =>
      && 0.0 < t <= s.lastTs && HourOf(t) == HourOf(s.lastTs) == hour
      && Sum(s.gaps) == s.lastTs - t
  }

  lemma HourOrder(a: real, b: real)
    requires 0.0 <= a <= b
    ensures HourOf(a) <= HourOf(b)
  {
  }

  /** One report, seen by one configured node. */
  lemma GapStep(s: NodeState, first: Option<real>, hour: int, r: Report)
    requires s.lastTs >= 0.0 && r.ts > 0.0 && s.lastTs <= r.ts && HourOf(r.ts) == hour
    requires GapsTelescope(s, first, hour)
    ensures GapsTelescope(NodeReported(s, r), if first == None then Some(r.ts) else first, hour)
  {
    HoursAgree(r.ts);
    HoursAgree(s.lastTs);
    if first.Some? {
      SumSnoc(s.gaps, r.ts - s.lastTs);
    }
  }

  /** For logs sorted by time, the gaps of a configured node telescope: they add up to the time from its first to
      its last report of the hour, which is less than an hour. */
  lemma {:induction false} GapsAccount(config: Config, rs: seq<Report>, id: int)
    requires id in config.nodes && rs != [] && TimeSorted(rs)
    ensures var s := Get(OnReports(config, rs).nodes, id);
            GapsTelescope(s, FirstThisHour(rs, id), HourOf(rs[|rs| - 1].ts)) && Sum(s.gaps) < 3600.0
  {
    var n := |rs| - 1;
    var r := rs[n];
    var s := Get(OnReports(config, rs[..n]).nodes, id);
    var p := if HourTurns(rs) then NodeReset(s) else s;
    var first := if n == 0 || HourTurns(rs) then None else FirstThisHour(rs[..n], id);
    GapsBefore(config, rs, id);
    if n > 0 {
      GapsAccount(config, rs[..n], id);
      assert rs[..n][n - 1] == rs[n - 1];
      HourOrder(rs[n - 1].ts, r.ts);
    }
    assert GapsTelescope(p, first, HourOf(r.ts));
    if r.nodeId == id {
      GapStep(p, first, HourOf(r.ts), r);
    }
    GapsShort(Get(OnReports(config, rs).nodes, id), FirstThisHour(rs, id), HourOf(r.ts));
  }

  /** The last report leaves of a node's gaps what one report leaves of them, after the reset if the hour turned. */
  lemma GapsBefore(config: Config, rs: seq<Report>, id: int)
    requires id in config.nodes && rs != [] && TimeSorted(rs)
    ensures var r := rs[|rs| - 1];
            var s := Get(OnReports(config, rs[..|rs| - 1]).nodes, id);
            var p := if HourTurns(rs) then NodeReset(s) else s;
            var t := Get(OnReports(config, rs).nodes, id);
            var q := if r.nodeId == id then NodeReported(p, r) else p;
            && t.gaps == q.gaps && t.lastTs == q.lastTs
            && 0.0 <= s.lastTs <= r.ts
            && (|rs| == 1 ==> s == FRESH)
  {
    var n := |rs| - 1;
    var c := OnReports(config, rs[..n]);
    HourIsLast(config, rs[..n]);
    assert n > 0 ==> rs[..n][n - 1] == rs[n - 1];
    GapsAfter(config, c, rs[n], id);
    LastIsKept(config, rs[..n], id);
    LastIsEarlier(rs[..n], id, rs[n].ts);
  }

  lemma GapsAfter(config: Config, c: Core, r: Report, id: int)
    requires Sound(c) && id in config.nodes
    ensures var turned := c.hour.Some? && HourOf(r.ts) != c.hour.value;
            var p := if turned then NodeReset(Get(c.nodes, id)) else Get(c.nodes, id);
            var t := Get(OnReport(config, c, r).nodes, id);
            var q := if r.nodeId == id then NodeReported(p, r) else p;
            t.gaps == q.gaps && t.lastTs == q.lastTs
  {
    NodeAfter(config, c, r, id);
  }

  lemma GapsShort(s: NodeState, first: Option<real>, hour: int)
    requires GapsTelescope(s, first, hour)
    ensures Sum(s.gaps) < 3600.0
  {
    if first.Some? {
      HoursAgree(first.value);
      HoursAgree(s.lastTs);
    }
  }

  lemma {:induction false} LastIsEarlier(rs: seq<Report>, id: int, t: real)
    requires forall i :: 0 <= i < |rs| ==> 0.0 < rs[i].ts <= t
    ensures LastOf(rs, id).Some? ==> 0.0 < LastOf(rs, id).value.ts <= t
  {
    if rs != [] {
      LastIsEarlier(rs[..|rs| - 1], id, t);
    }
  }
}
