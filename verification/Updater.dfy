/** The resumable log processor of common/common.py.  Log files are named by numbers in the order of their
    basenames; ReportMetric, which subclasses override, is a log of its calls. */
module Updater {
  import opened Text
  import opened Sets
  import opened Reports

  datatype NodeType = MeterReader | TempSensor

  /** The configured nodes, and how struct.unpack reads four bytes as a float. */
  datatype Config = Config(nodes: map<int, NodeType>, unpack: (int, int, int, int) -> real)

  datatype NodeState = NodeState(
    lastTs: real, lastPing: int, numReports: int, received: int, gaps: seq<real>,
    firstCount: int, firstTs: real, hourCounter: int, realCounter: int, lastLine: seq<Option<int>>,
    temps: seq<real>)

  const FRESH := NodeState(0.0, 0, 0, 0, [], 0, 0.0, 0, 0, [], [])

  datatype MetricName = Temperature | Battery | Revs

  datatype Value = Count(n: int) | Degrees(t: real)

  datatype Metric = Metric(nodeId: int, name: MetricName, ts: real, value: Value)

  type Nodes = map<int, NodeState>

  /** The node states, the hour, the metrics reported, and the usage of each meter at each hourly reset. */
  datatype Core = Core(nodes: Nodes, hour: Option<int>, metrics: seq<Metric>, usages: seq<map<int, int>>)

  /** The pickled history, with what has been reported so far. */
  datatype History = History(core: Core, file: Option<int>, lineno: Option<nat>)

  const NEW_CORE := Core(map[], None, [], [])
  const NEW_HISTORY := History(NEW_CORE, None, None)

  datatype LogFile = LogFile(name: int, lines: seq<Line>)

  // ---------- Times ----------

  /** The UTC hour a timestamp formats to. */
  function HourOf(ts: real): int
  {
    Trunc(ts) / 3600
  }

  /** Whether int(a/3600) and int(b/3600) agree. */
  predicate SameHour(a: real, b: real)
  {
    Trunc(a / 3600.0) == Trunc(b / 3600.0)
  }

  // ---------- One node ----------

  function Get(nodes: Nodes, id: int): NodeState
  {
    if id in nodes then nodes[id] else FRESH
  }

  function NodeReported(s: NodeState, r: Report): NodeState
  {
    var known := s.lastTs > 0.0;
    var gaps := if known && SameHour(s.lastTs, r.ts) then s.gaps + [r.ts - s.lastTs] else s.gaps;
    var missed := if known && r.pingId > s.lastPing + 1 then r.pingId - s.lastPing else 0;
    s.(gaps := gaps, numReports := s.numReports + missed + 1, received := s.received + 1,
       lastPing := r.pingId, lastTs := r.ts)
  }

  function NodeReset(s: NodeState): NodeState
  {
    s.(hourCounter := s.realCounter, temps := [], numReports := 0, received := 0, gaps := [])
  }

  function MeterState(s: NodeState, r: Report): NodeState
    requires ParseMeterLine(r.parts).Some?
    requires s.lastLine != [] ==> ParseMeterLine(s.lastLine).Some?
  {
    var counter := ParseMeterLine(r.parts).value.0;
    if s.lastLine != [] then
      var last := ParseMeterLine(s.lastLine).value.0;
      s.(realCounter := s.realCounter + CalculateStep(r.pingId, counter, last, s.lastPing, |r.parts|),
         lastLine := r.parts)
    else
      s.(realCounter := counter, firstCount := counter, firstTs := r.ts, hourCounter := counter,
         lastLine := r.parts)
  }

  /** Temperature and battery; `None` is any exception, the one for an unbelievable value included. */
  function ParseTempSensorLine(config: Config, parts: seq<Option<int>>): Option<(real, int)>
  {
    if |parts| < 5 || exists i :: 0 <= i < 5 && parts[i] == None then None
    else if exists i :: 1 <= i < 5 && !(0 <= parts[i].value < 0x100) then None
    else
      var temp := config.unpack(parts[1].value, parts[2].value, parts[3].value, parts[4].value);
      if temp > 40.0 then None else Some((temp, parts[0].value))
  }

  // ---------- One report ----------

  /** The last line kept for a meter is one that parsed. */
  ghost predicate Sound(c: Core)
  {
    forall id :: id in c.nodes && c.nodes[id].lastLine != [] ==> ParseMeterLine(c.nodes[id].lastLine).Some?
  }

  /** The node states once the hourly report has visited the nodes `done`: those are known, and with `reset`
      their statistics start over. */
  function Visited(nodes: Nodes, done: set<int>, reset: bool): Nodes
  {
    map id | id in nodes.Keys + done :: if reset && id in done then NodeReset(Get(nodes, id)) else Get(nodes, id)
  }

  /** The usage of each meter among `done` since the last reset. */
  function UsageOf(config: Config, nodes: Nodes, done: set<int>): map<int, int>
  {
    map id | id in done && id in config.nodes && config.nodes[id].MeterReader? ::
      Get(nodes, id).realCounter - Get(nodes, id).hourCounter
  }

  function Printed(config: Config, c: Core, reset: bool): Core
  {
    c.(nodes := Visited(c.nodes, config.nodes.Keys, reset),
       usages := c.usages + if reset then [UsageOf(config, c.nodes, config.nodes.Keys)] else [])
  }

  lemma VisitedOneMore(config: Config, nodes: Nodes, done: set<int>, id: int, reset: bool)
    requires id in config.nodes && id !in done
    ensures Get(Visited(nodes, done, reset), id) == Get(nodes, id)
    ensures Visited(nodes, done + {id}, reset) ==
            Visited(nodes, done, reset)[id := if reset then NodeReset(Get(nodes, id)) else Get(nodes, id)]
    ensures UsageOf(config, nodes, done + {id}) ==
            if config.nodes[id].MeterReader?
            then UsageOf(config, nodes, done)[id := Get(nodes, id).realCounter - Get(nodes, id).hourCounter]
            else UsageOf(config, nodes, done)
  {
  }

  function HourChanged(config: Config, c: Core, r: Report): Core
  {
    var h := HourOf(r.ts);
    (if c.hour.Some? && h != c.hour.value then Printed(config, c, true) else c).(hour := Some(h))
  }

  function MeterHandled(c: Core, r: Report): Core
    requires Sound(c)
  {
    var parsed := ParseMeterLine(r.parts);
    if parsed == None then c
    else
      var s := MeterState(Get(c.nodes, r.nodeId), r);
      c.(nodes := c.nodes[r.nodeId := s],
         metrics := c.metrics + [Metric(r.nodeId, Revs, r.ts, Count(s.realCounter)),
                                 Metric(r.nodeId, Battery, r.ts, Count(parsed.value.1))])
  }

  function TempHandled(config: Config, c: Core, r: Report): Core
  {
    var parsed := ParseTempSensorLine(config, r.parts);
    if parsed == None then c
    else
      var s := Get(c.nodes, r.nodeId);
      c.(nodes := c.nodes[r.nodeId := s.(temps := s.temps + [parsed.value.0])],
         metrics := c.metrics + [Metric(r.nodeId, Temperature, r.ts, Degrees(parsed.value.0)),
                                 Metric(r.nodeId, Battery, r.ts, Count(parsed.value.1))])
  }

  function Handled(config: Config, c: Core, r: Report): Core
    requires Sound(c)
  {
    if r.nodeId !in config.nodes then c
    else
      match config.nodes[r.nodeId]
      case MeterReader => MeterHandled(c, r)
      case TempSensor => TempHandled(config, c, r)
  }

  function Counted(c: Core, r: Report): Core
  {
    c.(nodes := c.nodes[r.nodeId := NodeReported(Get(c.nodes, r.nodeId), r)])
  }

  function OnReport(config: Config, c: Core, r: Report): Core
    requires Sound(c)
    ensures Sound(OnReport(config, c, r))
  {
    Counted(Handled(config, HourChanged(config, c, r), r), r)
  }

  function OnLine(config: Config, c: Core, line: Line): (after: Core)
    requires Sound(c)
    ensures Sound(after)
  {
    match Parse(line)
    case None => c
    case Some(r) => OnReport(config, c, r)
  }

  // ---------- One run over the files ----------

  /** Where a run picks up: the file and line number of the history it starts from. */
  datatype Mark = Mark(file: Option<int>, lineno: Option<nat>)

  predicate SkipsFile(mark: Mark, name: int)
  {
    mark.file.Some? && name < mark.file.value
  }

  predicate SkipsLine(mark: Mark, name: int, i: nat)
  {
    mark.file == Some(name) && mark.lineno.Some? && i <= mark.lineno.value
  }

  function AfterLines(config: Config, h: History, mark: Mark, f: LogFile, n: nat): (after: History)
    requires Sound(h.core) && n <= |f.lines|
    ensures Sound(after.core) && after.file == h.file
  {
    if n == 0 then h
    else
      var before := AfterLines(config, h, mark, f, n - 1);
      if SkipsLine(mark, f.name, n - 1) then before
      else before.(core := OnLine(config, before.core, f.lines[n - 1]), lineno := Some(n - 1))
  }

  function AfterFile(config: Config, h: History, mark: Mark, f: LogFile): (after: History)
    requires Sound(h.core)
    ensures Sound(after.core)
  {
    if SkipsFile(mark, f.name) then h
    else AfterLines(config, h.(file := Some(f.name)), mark, f, |f.lines|)
  }

  function AfterFiles(config: Config, h: History, mark: Mark, files: seq<LogFile>): (after: History)
    requires Sound(h.core)
    ensures Sound(after.core)
  {
    if files == [] then h
    else AfterFile(config, AfterFiles(config, h, mark, files[..|files| - 1]), mark, files[|files| - 1])
  }

  function MarkOf(h: History): Mark
  {
    Mark(h.file, h.lineno)
  }

  function Finished(config: Config, h: History): History
  {
    h.(core := Printed(config, h.core, false))
  }

  /** ProcessFiles from a history to the history it saves. */
  function RunFiles(config: Config, h: History, files: seq<LogFile>): (after: History)
    requires Sound(h.core)
    ensures Sound(after.core)
  {
    Finished(config, AfterFiles(config, h, MarkOf(h), files))
  }

  // ---------- The program ----------

  class LogUpdater {
    const config: Config
    var nodeState: Nodes
    var currentHour: Option<int>
    var currentFile: Option<int>
    var currentFileLineno: Option<nat>
    var metrics: seq<Metric>
    var usages: seq<map<int, int>>

    function State(): Core
      reads this
    {
      Core(nodeState, currentHour, metrics, usages)
    }

    function Saved(): History
      reads this
    {
      History(State(), currentFile, currentFileLineno)
    }

    /** Starts from a saved history. */
    constructor (config: Config, h: History)
      ensures Saved() == h && this.config == config
    {
      this.config := config;
      nodeState, currentHour, metrics, usages := h.core.nodes, h.core.hour, h.core.metrics, h.core.usages;
      currentFile, currentFileLineno := h.file, h.lineno;
    }

    method GetOrCreateNodeState(id: int) returns (s: NodeState)
      modifies `nodeState
      ensures s == Get(old(nodeState), id)
      ensures nodeState == old(nodeState)[id := s]
    {
      if id !in nodeState {
        nodeState := nodeState[id := FRESH];
      }
      s := nodeState[id];
    }

    method ReportMetric(m: Metric)
      modifies `metrics
      ensures metrics == old(metrics) + [m]
    {
      metrics := metrics + [m];
    }

    method UpdateNodeReport(r: Report)
      modifies `nodeState
      ensures State() == Counted(old(State()), r)
    {
      var s := GetOrCreateNodeState(r.nodeId);
      if s.lastTs > 0.0 {
        if SameHour(s.lastTs, r.ts) {
          s := s.(gaps := s.gaps + [r.ts - s.lastTs]);
        }
        if r.pingId > s.lastPing + 1 {
          s := s.(numReports := s.numReports + (r.pingId - s.lastPing));
        }
      }
      s := s.(numReports := s.numReports + 1);
      s := s.(received := s.received + 1);
      s := s.(lastPing := r.pingId);
      s := s.(lastTs := r.ts);
      nodeState := nodeState[r.nodeId := s];
    }

    /** The effect of the hourly report on the state; what it formats is left out. */
    method PrintHourlyReport(reset: bool)
      modifies `nodeState, `usages
      ensures State() == Printed(config, old(State()), reset)
    {
      var usage := VisitAll(reset);
      if reset {
        usages := usages + [usage];
      }
      assert old(usages) + [] == old(usages);
    }

    /** The loop over the configured nodes. */
    method VisitAll(reset: bool) returns (usage: map<int, int>)
      modifies `nodeState
      ensures nodeState == Visited(old(nodeState), config.nodes.Keys, reset)
      ensures usage == UsageOf(config, old(nodeState), config.nodes.Keys)
    {
      var todo := config.nodes.Keys;
      usage := map[];
      ghost var done: set<int> := {};
      assert nodeState == Visited(old(nodeState), done, reset);
      while todo != {}
        invariant todo <= config.nodes.Keys && done == config.nodes.Keys - todo
        invariant nodeState == Visited(old(nodeState), done, reset)
        invariant usage == UsageOf(config, old(nodeState), done)
        decreases todo
      {
        var id := AnyOf(todo);
        VisitedOneMore(config, old(nodeState), done, id, reset);
        var s := GetOrCreateNodeState(id);
        if config.nodes[id].MeterReader? {
          usage := usage[id := s.realCounter - s.hourCounter];
        }
        if reset {
          nodeState := nodeState[id := NodeReset(s)];
        }
        todo := todo - {id};
        done := done + {id};
      }
      assert done == config.nodes.Keys;
    }

    method ProcessMeterReader(r: Report)
      requires Sound(State())
      modifies `nodeState, `metrics
      ensures State() == MeterHandled(old(State()), r)
    {
      var parsed := ParseMeterLine(r.parts);
      if parsed == None {
        return;
      }
      var (counter, bat) := parsed.value;
      var s := GetOrCreateNodeState(r.nodeId);
      if s.lastLine != [] {
        var (lastCounter, lastBat) := ParseMeterLine(s.lastLine).value;
        s := s.(realCounter := s.realCounter
                  + CalculateStep(r.pingId, counter, lastCounter, s.lastPing, |r.parts|));
      } else {
        s := s.(realCounter := counter);
        s := s.(firstCount := counter);
        s := s.(firstTs := r.ts);
        s := s.(hourCounter := counter);
      }
      s := s.(lastLine := r.parts);
      nodeState := nodeState[r.nodeId := s];
      ReportMetric(Metric(r.nodeId, Revs, r.ts, Count(s.realCounter)));
      ReportMetric(Metric(r.nodeId, Battery, r.ts, Count(bat)));
    }

    method ProcessTempSensor(r: Report)
      modifies `nodeState, `metrics
      ensures State() == TempHandled(config, old(State()), r)
    {
      var parsed := ParseTempSensorLine(config, r.parts);
      if parsed == None {
        return;
      }
      var (temp, bat) := parsed.value;
      var s := GetOrCreateNodeState(r.nodeId);
      nodeState := nodeState[r.nodeId := s.(temps := s.temps + [temp])];
      ReportMetric(Metric(r.nodeId, Temperature, r.ts, Degrees(temp)));
      ReportMetric(Metric(r.nodeId, Battery, r.ts, Count(bat)));
    }

    method ProcessLine(line: Line)
      requires Sound(State())
      modifies this
      ensures State() == OnLine(config, old(State()), line)
      ensures currentFile == old(currentFile) && currentFileLineno == old(currentFileLineno)
    {
      var report := Parse(line);
      if report == None {
        return;
      }
      var r := report.value;
      if currentHour.Some? && HourOf(r.ts) != currentHour.value {
        PrintHourlyReport(true);
      }
      currentHour := Some(HourOf(r.ts));
      assert State() == HourChanged(config, old(State()), r);
      if r.nodeId in config.nodes {
        match config.nodes[r.nodeId] {
          case MeterReader => ProcessMeterReader(r);
          case TempSensor => ProcessTempSensor(r);
        }
      }
      UpdateNodeReport(r);
    }

    method ProcessFile(f: LogFile, histFile: Option<int>, histLineno: Option<nat>)
      requires Sound(State())
      modifies this
      ensures Saved() == AfterFile(config, old(Saved()), Mark(histFile, histLineno), f)
    {
      if histFile.Some? && f.name < histFile.value {
        return;
      }
      currentFile := Some(f.name);
      ghost var start := Saved();
      ghost var mark := Mark(histFile, histLineno);
      for lineno := 0 to |f.lines|
        invariant Sound(State())
        invariant Saved() == AfterLines(config, start, mark, f, lineno)
      {
        if histFile == currentFile {
          if histLineno.Some? && lineno <= histLineno.value {
            continue;
          }
        }
        currentFileLineno := Some(lineno);
        ProcessLine(f.lines[lineno]);
      }
    }

    method ProcessFiles(files: seq<LogFile>)
      requires Sound(State())
      modifies this
      ensures Saved() == RunFiles(config, old(Saved()), files)
    {
      var histFile := currentFile;
      var histLineno := currentFileLineno;
      for i := 0 to |files|
        invariant Sound(State())
        invariant Saved() == AfterFiles(config, old(Saved()), Mark(histFile, histLineno), files[..i])
      {
        assert files[..i + 1][..i] == files[..i];
        ProcessFile(files[i], histFile, histLineno);
      }
      assert files[..|files|] == files;
      FinishedProcessing();
    }

    method FinishedProcessing()
      modifies this
      ensures Saved() == Finished(config, old(Saved()))
    {
      PrintHourlyReport(false);
    }
  }
}
