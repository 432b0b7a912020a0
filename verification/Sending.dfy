/** What nodes send, as it comes out of the log processor of common/common.py: the messages are decoded into what
    was sent, and everything reported of a node is a function of its messages. */
module Sending {
  import opened Text
  import opened Reports
  import opened Updater
  import opened Accounting
  import Resume

  // ---------- Messages ----------

  /** A battery level, and a counter in one field or in four bytes, or the four bytes of a temperature; more
      fields may follow. */
  datatype Payload =
    | ShortMeter(bat: int, counter: int)
    | LongMeter(bat: int, counter: int, rest: seq<Option<int>>)
    | Sensor(bat: int, b0: int, b1: int, b2: int, b3: int, rest: seq<Option<int>>)

  /** `kind` is the field before the payload, which the processor does not read. */
  datatype Message = Message(ts: real, node: int, ping: int, kind: Option<int>, payload: Payload)

  function Fields(p: Payload): seq<Option<int>>
  {
    match p
    case ShortMeter(bat, counter) => [Some(bat), Some(counter)]
    case LongMeter(bat, counter, rest) => [Some(bat)] + (if counter >= 0 then Bytes(counter) else []) + rest
    case Sensor(bat, b0, b1, b2, b3, rest) => [Some(bat)] + [Some(b0), Some(b1), Some(b2), Some(b3)] + rest
  }

  function LineOf(m: Message): Line
  {
    Line(Some(m.ts), "OK",
         [Some(m.node)] + (if m.ping >= 0 then Bytes(m.ping) else []) + ([m.kind] + Fields(m.payload)))
  }

  predicate Is32(n: int)
  {
    0 <= n < 0x1_0000_0000
  }

  predicate IsByte(n: int)
  {
    0 <= n < 0x100
  }

  /** Decoding inverts sending: stamp, node, ping number and payload of the report are those of the message. */
  lemma ParseLineOf(m: Message)
    requires Is32(m.ping)
    ensures Parse(LineOf(m)) == Some(Report(m.ts, m.node, m.ping, Fields(m.payload)))
  {
    var ints := LineOf(m).ints;
    LongOfBytes([Some(m.node)], m.ping, [m.kind] + Fields(m.payload));
    assert ints[6..] == Fields(m.payload);
    assert |ints| == 6 + |Fields(m.payload)|;
  }

  /** So are counter and battery of a meter ... */
  lemma ParseMeter(p: Payload)
    requires p.ShortMeter? || (p.LongMeter? && Is32(p.counter))
    ensures ParseMeterLine(Fields(p)) == Some((p.counter, p.bat))
  {
    if p.LongMeter? {
      LongOfBytes([Some(p.bat)], p.counter, p.rest);
    }
  }

  /** ... and temperature and battery of a sensor, unless the temperature is beyond belief. */
  lemma ParseSensor(config: Config, p: Payload)
    requires p.Sensor? && IsByte(p.b0) && IsByte(p.b1) && IsByte(p.b2) && IsByte(p.b3)
    ensures var temp := config.unpack(p.b0, p.b1, p.b2, p.b3);
            ParseTempSensorLine(config, Fields(p)) == if temp > 40.0 then None else Some((temp, p.bat))
  {
    var parts := Fields(p);
    assert parts[0] == Some(p.bat) && parts[1] == Some(p.b0) && parts[2] == Some(p.b1);
    assert parts[3] == Some(p.b2) && parts[4] == Some(p.b3);
  }

  // ---------- What is in a log ----------

  /** A line that is no report, or a message. */
  datatype Item = Noise(line: Line) | Sent(m: Message)

  /** Messages are as the configuration says their nodes send them. */
  ghost predicate Proper(config: Config, item: Item)
  {
    match item
    case Noise(line) => Parse(line) == None
    case Sent(m) =>
      && Is32(m.ping)
      && (m.node in config.nodes ==>
            match config.nodes[m.node]
            case MeterReader =>
              (m.payload.ShortMeter? && m.payload.counter >= 0) || (m.payload.LongMeter? && Is32(m.payload.counter))
            case TempSensor =>
              && m.payload.Sensor?
              && IsByte(m.payload.b0) && IsByte(m.payload.b1) && IsByte(m.payload.b2) && IsByte(m.payload.b3))
  }

  ghost predicate AllProper(config: Config, items: seq<Item>)
  {
    forall i :: 0 <= i < |items| ==> Proper(config, items[i])
  }

  function ReportsSent(items: seq<Item>): seq<Report>
  {
    if items == [] then []
    else
      match items[|items| - 1]
      case Noise(_) => ReportsSent(items[..|items| - 1])
      case Sent(m) => ReportsSent(items[..|items| - 1]) + [Report(m.ts, m.node, m.ping, Fields(m.payload))]
  }

  /** The log holds these items, line by line. */
  ghost predicate Carries(es: seq<Resume.Entry>, items: seq<Item>)
  {
    && |es| == |items|
    && forall i :: 0 <= i < |es| ==> es[i].line == TextOf(items[i])
  }

  function TextOf(item: Item): Line
  {
    match item
    case Noise(line) => line
    case Sent(m) => LineOf(m)
  }

  lemma ItemIsRead(config: Config, item: Item)
    requires Proper(config, item)
    ensures Parse(TextOf(item)) ==
            match item
            case Noise(_) => None
            case Sent(m) => Some(Report(m.ts, m.node, m.ping, Fields(m.payload)))
  {
    if item.Sent? {
      ParseLineOf(item.m);
    }
  }

  lemma {:induction false} ReportsAreSent(config: Config, es: seq<Resume.Entry>, items: seq<Item>)
    requires Carries(es, items) && AllProper(config, items)
    ensures ReportsIn(es) == ReportsSent(items)
  {
    if items != [] {
      var n := |items| - 1;
      ReportsAreSent(config, es[..n], items[..n]);
      assert Proper(config, items[n]);
      ItemIsRead(config, items[n]);
      assert ReportsSent(items[..n]) + [] == ReportsSent(items[..n]);
    }
  }

  // ---------- What is reported of a node ----------

  predicate IsMeter(config: Config, id: int)
  {
    id in config.nodes && config.nodes[id].MeterReader?
  }

  predicate IsSensor(config: Config, id: int)
  {
    id in config.nodes && config.nodes[id].TempSensor?
  }

  /** The counters a meter has sent. */
  function CountersSent(items: seq<Item>, id: int): seq<Reading>
  {
    if items == [] then []
    else
      var before := CountersSent(items[..|items| - 1], id);
      match items[|items| - 1]
      case Sent(Message(ts, node, ping, _, ShortMeter(_, counter))) =>
        if node == id then before + [Reading(ts, ping, counter)] else before
      case Sent(Message(ts, node, ping, _, LongMeter(_, counter, _))) =>
        if node == id then before + [Reading(ts, ping, counter)] else before
      case _ => before
  }

  lemma {:induction false} ReadingsAreSent(config: Config, items: seq<Item>, id: int)
    requires AllProper(config, items) && IsMeter(config, id)
    ensures Readings(ReportsSent(items), id) == CountersSent(items, id)
    ensures CountersOnly(CountersSent(items, id))
  {
    if items != [] {
      var n := |items| - 1;
      ReadingsAreSent(config, items[..n], id);
      assert Proper(config, items[n]);
      if items[n].Sent? {
        var m, rs := items[n].m, ReportsSent(items[..n]);
        assert (rs + [Report(m.ts, m.node, m.ping, Fields(m.payload))])[..|rs|] == rs;
        assert Readings(rs, id) + [] == Readings(rs, id);
        if m.node == id {
          ParseMeter(m.payload);
        }
      }
    }
  }

  /** The real counter of a meter is the total of the counters it has sent. */
  lemma CounterIsTold(config: Config, items: seq<Item>, id: int)
    requires AllProper(config, items) && IsMeter(config, id)
    ensures MeterKnows(Get(OnReports(config, ReportsSent(items)).nodes, id), CountersSent(items, id))
  {
    ReadingsAreSent(config, items, id);
    RealCounterIsTotal(config, ReportsSent(items), id);
  }

  function NodeMetrics(metrics: seq<Metric>, id: int): seq<Metric>
  {
    if metrics == [] then []
    else
      var before := NodeMetrics(metrics[..|metrics| - 1], id);
      if metrics[|metrics| - 1].nodeId == id then before + [metrics[|metrics| - 1]] else before
  }

  lemma NodeMetricsPair(metrics: seq<Metric>, m: Metric, n: Metric, id: int)
    requires m.nodeId == n.nodeId
    ensures NodeMetrics(metrics + [m, n], id) == NodeMetrics(metrics, id) + if m.nodeId == id then [m, n] else []
  {
    var one := metrics + [m];
    assert metrics + [m, n] == one + [n];
    assert one[..|metrics|] == metrics && (one + [n])[..|one|] == one;
    assert NodeMetrics(metrics, id) + [m] + [n] == NodeMetrics(metrics, id) + [m, n];
  }

  /** What is to be reported on the last item: of a meter its running total and battery, of a sensor its
      temperature, if it is believed, and battery, and nothing of other nodes. */
  function ReportedOf(config: Config, items: seq<Item>, id: int): seq<Metric>
    requires items != []
  {
    match items[|items| - 1]
    case Noise(_) => []
    case Sent(m) =>
      if m.node != id then []
      else if IsMeter(config, id) then
        [Metric(id, Revs, m.ts, Count(Total(CountersSent(items, id)))), Metric(id, Battery, m.ts, Count(m.payload.bat))]
      else if IsSensor(config, id) && m.payload.Sensor? then
        var temp := config.unpack(m.payload.b0, m.payload.b1, m.payload.b2, m.payload.b3);
        if temp > 40.0 then []
        else [Metric(id, Temperature, m.ts, Degrees(temp)), Metric(id, Battery, m.ts, Count(m.payload.bat))]
      else []
  }

  function MetricsSent(config: Config, items: seq<Item>, id: int): seq<Metric>
  {
    if items == [] then []
    else MetricsSent(config, items[..|items| - 1], id) + ReportedOf(config, items, id)
  }

  /** One report adds its pair of metrics for its own node. */
  lemma MetricsAfter(config: Config, c: Core, r: Report, id: int)
    requires Sound(c)
    ensures var after := OnReport(config, c, r);
            NodeMetrics(after.metrics, id) == NodeMetrics(c.metrics, id) +
            if r.nodeId != id then []
            else if IsMeter(config, id) && ParseMeterLine(r.parts).Some? then
              [Metric(id, Revs, r.ts, Count(Get(after.nodes, id).realCounter)),
               Metric(id, Battery, r.ts, Count(ParseMeterLine(r.parts).value.1))]
            else if IsSensor(config, id) && ParseTempSensorLine(config, r.parts).Some? then
              [Metric(id, Temperature, r.ts, Degrees(ParseTempSensorLine(config, r.parts).value.0)),
               Metric(id, Battery, r.ts, Count(ParseTempSensorLine(config, r.parts).value.1))]
            else []
  {
    var h := HourChanged(config, c, r);
    assert NodeMetrics(c.metrics, id) + [] == NodeMetrics(c.metrics, id);
    if IsMeter(config, r.nodeId) && ParseMeterLine(r.parts).Some? {
      var s := MeterState(Get(h.nodes, r.nodeId), r);
      NodeMetricsPair(h.metrics, Metric(r.nodeId, Revs, r.ts, Count(s.realCounter)),
                      Metric(r.nodeId, Battery, r.ts, Count(ParseMeterLine(r.parts).value.1)), id);
    } else if IsSensor(config, r.nodeId) && ParseTempSensorLine(config, r.parts).Some? {
      var parsed := ParseTempSensorLine(config, r.parts).value;
      NodeMetricsPair(h.metrics, Metric(r.nodeId, Temperature, r.ts, Degrees(parsed.0)),
                      Metric(r.nodeId, Battery, r.ts, Count(parsed.1)), id);
    }
  }

  /** All that is ever reported of a node is what it has sent, in order, whatever else is in the log. */
  lemma {:induction false} MetricsAreSent(config: Config, items: seq<Item>, id: int)
    requires AllProper(config, items)
    ensures NodeMetrics(OnReports(config, ReportsSent(items)).metrics, id) == MetricsSent(config, items, id)
  {
    if items != [] {
      var n := |items| - 1;
      var before := MetricsSent(config, items[..n], id);
      MetricsAreSent(config, items[..n], id);
      assert Proper(config, items[n]);
      assert before + [] == before;
      if items[n].Sent? {
        LastMessageTold(config, items, id);
      }
    }
  }

  lemma LastMessageTold(config: Config, items: seq<Item>, id: int)
    requires AllProper(config, items) && items != [] && items[|items| - 1].Sent?
    ensures var n := |items| - 1;
            NodeMetrics(OnReports(config, ReportsSent(items)).metrics, id) ==
            NodeMetrics(OnReports(config, ReportsSent(items[..n])).metrics, id) + ReportedOf(config, items, id)
  {
    var n := |items| - 1;
    var m, rs := items[n].m, ReportsSent(items[..n]);
    var r := Report(m.ts, m.node, m.ping, Fields(m.payload));
    assert Proper(config, items[n]);
    assert (rs + [r])[..|rs|] == rs;
    MetricsAfter(config, OnReports(config, rs), r, id);
    if m.node == id && IsMeter(config, id) {
      ParseMeter(m.payload);
      CounterIsTold(config, items, id);
      assert CountersSent(items, id) != [];
    } else if m.node == id && IsSensor(config, id) {
      ParseSensor(config, m.payload);
    }
  }

  /** The temperatures a sensor has sent since the hour last turned, those beyond belief left out. */
  function TempsSent(config: Config, items: seq<Item>, id: int): seq<real>
  {
    if items == [] then []
    else
      var before := TempsSent(config, items[..|items| - 1], id);
      match items[|items| - 1]
      case Noise(_) => before
      case Sent(m) =>
        var kept := if HourTurns(ReportsSent(items)) then [] else before;
        if m.node != id || !m.payload.Sensor? then kept
        else
          var temp := config.unpack(m.payload.b0, m.payload.b1, m.payload.b2, m.payload.b3);
          if temp > 40.0 then kept else kept + [temp]
  }

  lemma TempsAfter(config: Config, c: Core, r: Report, id: int)
    requires Sound(c) && IsSensor(config, id)
    ensures var turned := c.hour.Some? && HourOf(r.ts) != c.hour.value;
            var kept := if turned then [] else Get(c.nodes, id).temps;
            var parsed := ParseTempSensorLine(config, r.parts);
            Get(OnReport(config, c, r).nodes, id).temps ==
            if r.nodeId == id && parsed.Some? then kept + [parsed.value.0] else kept
  {
    var h := HourChanged(config, c, r);
    assert Get(h.nodes, id).temps ==
           if c.hour.Some? && HourOf(r.ts) != c.hour.value then [] else Get(c.nodes, id).temps;
  }

  /** The temperatures behind the hourly average are those. */
  lemma {:induction false} TempsAreSent(config: Config, items: seq<Item>, id: int)
    requires AllProper(config, items) && IsSensor(config, id)
    ensures Get(OnReports(config, ReportsSent(items)).nodes, id).temps == TempsSent(config, items, id)
  {
    if items != [] {
      var n := |items| - 1;
      TempsAreSent(config, items[..n], id);
      assert Proper(config, items[n]);
      if items[n].Sent? {
        var m := items[n].m;
        TempsSnoc(config, ReportsSent(items[..n]), Report(m.ts, m.node, m.ping, Fields(m.payload)), id);
        if m.node == id {
          ParseSensor(config, m.payload);
        }
      }
    }
  }

  lemma TempsSnoc(config: Config, rs: seq<Report>, r: Report, id: int)
    requires IsSensor(config, id)
    ensures var kept := if HourTurns(rs + [r]) then [] else Get(OnReports(config, rs).nodes, id).temps;
            var parsed := ParseTempSensorLine(config, r.parts);
            Get(OnReports(config, rs + [r]).nodes, id).temps ==
            if r.nodeId == id && parsed.Some? then kept + [parsed.value.0] else kept
  {
    assert (rs + [r])[..|rs|] == rs;
    HourIsLast(config, rs);
    TempsAfter(config, OnReports(config, rs), r, id);
    assert HourTurns(rs + [r]) <==> rs != [] && HourOf(r.ts) != HourOf(rs[|rs| - 1].ts);
    assert rs == [] ==> Get(OnReports(config, rs).nodes, id).temps == [];
  }

  // ---------- Over files and resumed runs ----------

  /** However often the processor was stopped and resumed while the logs grew: what has been reported of a node is
      what it has sent, and a meter's state is that of its counters. */
  lemma SentOverRuns(config: Config, snapshots: seq<seq<LogFile>>, items: seq<Item>, id: int)
    requires snapshots != []
    requires forall i :: 0 < i < |snapshots| ==> Resume.Extends(snapshots[i - 1], snapshots[i])
    requires forall i :: 0 <= i < |snapshots| ==>
               snapshots[i] != [] && snapshots[i][|snapshots[i]| - 1].lines != []
    requires AllProper(config, items) && Carries(Resume.AllEntries(snapshots[|snapshots| - 1]), items)
    ensures var c := Resume.RunAll(config, snapshots).core;
            && NodeMetrics(c.metrics, id) == MetricsSent(config, items, id)
            && (IsMeter(config, id) ==> MeterKnows(Get(c.nodes, id), CountersSent(items, id)))
            && (IsSensor(config, id) ==> Get(c.nodes, id).temps == TempsSent(config, items, id))
  {
    var files := snapshots[|snapshots| - 1];
    var es := Resume.AllEntries(files);
    Resume.ManyRunsEqualOne(config, snapshots);
    Resume.AfterFilesIs(config, NEW_HISTORY, Resume.FROM_START, files);
    FoldIsOnReports(config, es);
    ReportsAreSent(config, es, items);
    MetricsAreSent(config, items, id);
    Resume.PrintedAlike(config, OnReports(config, ReportsIn(es)));
    if IsMeter(config, id) {
      CounterIsTold(config, items, id);
    }
    if IsSensor(config, id) {
      TempsAreSent(config, items, id);
    }
  }
}
