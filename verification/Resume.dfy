/** Stopping and resuming the log processor: a run that picks up from a saved history does exactly the lines
    the earlier runs did not, and ends where a single run over everything would have ended. */
module Resume {
  import opened Text
  import opened Reports
  import opened Updater

  /** A line and where it stands. */
  datatype Entry = Entry(name: int, idx: nat, line: Line)

  // ---------- Which lines a run processes ----------

  function ProcessedLines(mark: Mark, f: LogFile, n: nat): seq<Entry>
    requires n <= |f.lines|
  {
    if n == 0 then []
    else
      ProcessedLines(mark, f, n - 1) +
      if SkipsLine(mark, f.name, n - 1) then [] else [Entry(f.name, n - 1, f.lines[n - 1])]
  }

  function Processed(mark: Mark, files: seq<LogFile>): seq<Entry>
  {
    if files == [] then []
    else
      Processed(mark, files[..|files| - 1]) + ProcessedOf(mark, files[|files| - 1])
  }

  function ProcessedOf(mark: Mark, f: LogFile): seq<Entry>
  {
    if SkipsFile(mark, f.name) then [] else ProcessedLines(mark, f, |f.lines|)
  }

  const FROM_START := Mark(None, None)

  /** Every line of every file, in order. */
  function AllEntries(files: seq<LogFile>): seq<Entry>
  {
    Processed(FROM_START, files)
  }

  function Fold(config: Config, c: Core, es: seq<Entry>): (after: Core)
    requires Sound(c)
    ensures Sound(after)
  {
    if es == [] then c else OnLine(config, Fold(config, c, es[..|es| - 1]), es[|es| - 1].line)
  }

  function LastIdx(lineno: Option<nat>, es: seq<Entry>): Option<nat>
  {
    if es == [] then lineno else Some(es[|es| - 1].idx)
  }

  function LastName(file: Option<int>, mark: Mark, files: seq<LogFile>): Option<int>
  {
    if files == [] then file
    else if SkipsFile(mark, files[|files| - 1].name) then LastName(file, mark, files[..|files| - 1])
    else Some(files[|files| - 1].name)
  }

  lemma {:induction false} FoldAppend(config: Config, c: Core, a: seq<Entry>, b: seq<Entry>)
    requires Sound(c)
    ensures Fold(config, c, a + b) == Fold(config, Fold(config, c, a), b)
  {
    if b == [] {
      assert a + b == a;
    } else {
      FoldAppend(config, c, a, b[..|b| - 1]);
      assert (a + b)[..|a + b| - 1] == a + b[..|b| - 1];
    }
  }

  lemma {:induction false} AfterLinesIs(config: Config, h: History, mark: Mark, f: LogFile, n: nat)
    requires Sound(h.core) && n <= |f.lines|
    ensures var es := ProcessedLines(mark, f, n);
            AfterLines(config, h, mark, f, n) == History(Fold(config, h.core, es), h.file, LastIdx(h.lineno, es))
  {
    if n > 0 {
      AfterLinesIs(config, h, mark, f, n - 1);
      var es := ProcessedLines(mark, f, n - 1);
      if SkipsLine(mark, f.name, n - 1) {
        assert es + [] == es;
      } else {
        var e := Entry(f.name, n - 1, f.lines[n - 1]);
        assert (es + [e])[..|es|] == es;
      }
    }
  }

  /** A run is the fold over the lines it processes, and keeps the place of the last of them. */
  lemma {:induction false} AfterFilesIs(config: Config, h: History, mark: Mark, files: seq<LogFile>)
    requires Sound(h.core)
    ensures var es := Processed(mark, files);
            AfterFiles(config, h, mark, files) ==
            History(Fold(config, h.core, es), LastName(h.file, mark, files), LastIdx(h.lineno, es))
  {
    if files != [] {
      var f := files[|files| - 1];
      var es := Processed(mark, files[..|files| - 1]);
      AfterFilesIs(config, h, mark, files[..|files| - 1]);
      if SkipsFile(mark, f.name) {
        assert es + [] == es;
      } else {
        var before := AfterFiles(config, h, mark, files[..|files| - 1]);
        AfterLinesIs(config, before.(file := Some(f.name)), mark, f, |f.lines|);
        FoldAppend(config, h.core, es, ProcessedLines(mark, f, |f.lines|));
      }
    }
  }

  lemma {:induction false} ProcessedAppend(mark: Mark, a: seq<LogFile>, b: seq<LogFile>)
    ensures Processed(mark, a + b) == Processed(mark, a) + Processed(mark, b)
  {
    if b == [] {
      assert a + b == a;
    } else {
      var b0, f := b[..|b| - 1], b[|b| - 1];
      ProcessedAppend(mark, a, b0);
      assert (a + b)[..|a + b| - 1] == a + b0 && (a + b)[|a + b| - 1] == f;
      AppendEntries(Processed(mark, a), Processed(mark, b0), ProcessedOf(mark, f));
    }
  }

  lemma AppendEntries(a: seq<Entry>, b: seq<Entry>, c: seq<Entry>)
    ensures (a + b) + c == a + (b + c)
  {
  }

  /** Files before the mark contribute nothing ... */
  lemma {:induction false} EarlierFilesSkipped(mark: Mark, files: seq<LogFile>)
    requires forall i :: 0 <= i < |files| ==> SkipsFile(mark, files[i].name)
    ensures Processed(mark, files) == []
  {
    if files != [] {
      EarlierFilesSkipped(mark, files[..|files| - 1]);
    }
  }

  /** ... and files after it all their lines. */
  lemma {:induction false} LaterFilesWhole(mark: Mark, files: seq<LogFile>)
    requires mark.file.Some?
    requires forall i :: 0 <= i < |files| ==> mark.file.value < files[i].name
    ensures Processed(mark, files) == AllEntries(files)
  {
    if files != [] {
      var f := files[|files| - 1];
      LaterFilesWhole(mark, files[..|files| - 1]);
      LaterLinesWhole(mark, f, |f.lines|);
    }
  }

  lemma {:induction false} LaterLinesWhole(mark: Mark, f: LogFile, n: nat)
    requires mark.file != Some(f.name) && n <= |f.lines|
    ensures ProcessedLines(mark, f, n) == ProcessedLines(FROM_START, f, n)
  {
    if n > 0 {
      LaterLinesWhole(mark, f, n - 1);
    }
  }

  /** How many lines of the marked file are passed over. */
  function Passed(mark: Mark, n: nat): nat
  {
    if mark.lineno == None then 0 else if mark.lineno.value + 1 <= n then mark.lineno.value + 1 else n
  }

  lemma {:induction false} MarkedFileRest(mark: Mark, f: LogFile, n: nat)
    requires mark.file == Some(f.name) && n <= |f.lines|
    ensures |ProcessedLines(FROM_START, f, n)| == n
    ensures ProcessedLines(mark, f, n) == ProcessedLines(FROM_START, f, n)[Passed(mark, n)..]
  {
    if n > 0 {
      MarkedFileRest(mark, f, n - 1);
      var all := ProcessedLines(FROM_START, f, n - 1);
      var e := Entry(f.name, n - 1, f.lines[n - 1]);
      var k := Passed(mark, n - 1);
      if SkipsLine(mark, f.name, n - 1) {
        assert Passed(mark, n) == n && k == n - 1;
        assert (all + [e])[n..] == [] && all[k..] == [];
      } else {
        assert Passed(mark, n) == k;
        assert (all + [e])[k..] == all[k..] + [e];
      }
    }
  }

  lemma {:induction false} LinesGrow(f: LogFile, g: LogFile, n: nat)
    requires f.name == g.name && f.lines <= g.lines && n <= |f.lines|
    ensures ProcessedLines(FROM_START, f, n) == ProcessedLines(FROM_START, g, n)
  {
    if n > 0 {
      LinesGrow(f, g, n - 1);
    }
  }

  lemma {:induction false} LinesPrefix(g: LogFile, m: nat, n: nat)
    requires m <= n <= |g.lines|
    ensures |ProcessedLines(FROM_START, g, n)| == n
    ensures ProcessedLines(FROM_START, g, m) == ProcessedLines(FROM_START, g, n)[..m]
    decreases n
  {
    if n > 0 {
      if m < n {
        LinesPrefix(g, m, n - 1);
      } else {
        LinesPrefix(g, m - 1, n - 1);
      }
    }
  }

  // ---------- Logs that grow ----------

  ghost predicate Sorted(files: seq<LogFile>)
  {
    forall i, j :: 0 <= i < j < |files| ==> files[i].name < files[j].name
  }

  /** `more` is `files` some time later: the last file may have got more lines, and later files may have come. */
  ghost predicate Extends(files: seq<LogFile>, more: seq<LogFile>)
  {
    && files != [] && |files| <= |more|
    && Sorted(more)
    && files[..|files| - 1] == more[..|files| - 1]
    && files[|files| - 1].name == more[|files| - 1].name
    && files[|files| - 1].lines <= more[|files| - 1].lines
  }

  /** The mark a first run over `files` leaves. */
  function MarkAfter(files: seq<LogFile>): Mark
    requires files != []
  {
    Mark(Some(files[|files| - 1].name), LastIdx(None, AllEntries(files)))
  }

  lemma FirstRunMark(config: Config, files: seq<LogFile>)
    requires files != []
    ensures MarkOf(RunFiles(config, NEW_HISTORY, files)) == MarkAfter(files)
  {
    AfterFilesIs(config, NEW_HISTORY, FROM_START, files);
  }

  /** All lines of the file that was the last one in the first run, as they are by the second. */
  function Marked(files: seq<LogFile>, more: seq<LogFile>): seq<Entry>
    requires files != [] && |files| <= |more|
  {
    var f := more[|files| - 1];
    ProcessedLines(FROM_START, f, |f.lines|)
  }

  lemma MarkedHas(files: seq<LogFile>, more: seq<LogFile>)
    requires Extends(files, more)
    ensures var k := |files| - 1;
            && |Marked(files, more)| == |more[k].lines| >= |files[k].lines|
            && AllEntries(files) == AllEntries(files[..k]) + Marked(files, more)[..|files[k].lines|]
  {
    var k := |files| - 1;
    LinesGrow(files[k], more[k], |files[k].lines|);
    LinesPrefix(more[k], |files[k].lines|, |more[k].lines|);
  }

  lemma WholeLines(files: seq<LogFile>, more: seq<LogFile>)
    requires Extends(files, more)
    ensures var k := |files| - 1;
            AllEntries(more) == AllEntries(files[..k]) + Marked(files, more) + AllEntries(more[k + 1..])
  {
    SplitAround(FROM_START, more, |files| - 1);
  }

  /** The lines of a second run: what is not passed over of the marked file, and all later files. */
  lemma SecondRunLines(files: seq<LogFile>, more: seq<LogFile>)
    requires Extends(files, more)
    ensures var k := |files| - 1;
            var mark := MarkAfter(files);
            && Passed(mark, |more[k].lines|) <= |Marked(files, more)|
            && Processed(mark, more) == Marked(files, more)[Passed(mark, |more[k].lines|)..] + AllEntries(more[k + 1..])
  {
    var k := |files| - 1;
    var mark := MarkAfter(files);
    MarkedHas(files, more);
    MarkedFileRest(mark, more[k], |more[k].lines|);
    SplitAround(mark, more, k);
    FilesAround(mark, more, k);
    EarlierFilesSkipped(mark, more[..k]);
    LaterFilesWhole(mark, more[k + 1..]);
    assert [] + Marked(files, more)[Passed(mark, |more[k].lines|)..]
        == Marked(files, more)[Passed(mark, |more[k].lines|)..];
  }

  lemma FilesAround(mark: Mark, more: seq<LogFile>, k: nat)
    requires Sorted(more) && k < |more| && mark.file == Some(more[k].name)
    ensures forall i :: 0 <= i < |more[..k]| ==> SkipsFile(mark, more[..k][i].name)
    ensures var late := more[k + 1..];
            forall i :: 0 <= i < |late| ==> mark.file.value < late[i].name
    ensures !SkipsFile(mark, more[k].name)
  {
    forall i | 0 <= i < |more[..k]|
      ensures SkipsFile(mark, more[..k][i].name)
    {
      assert more[i].name < more[k].name;
    }
    var late := more[k + 1..];
    forall i | 0 <= i < |late|
      ensures mark.file.value < late[i].name
    {
      assert late[i] == more[k + 1 + i];
    }
  }

  lemma SplitAround(mark: Mark, files: seq<LogFile>, k: nat)
    requires k < |files|
    ensures var f := files[k];
            Processed(mark, files) ==
            Processed(mark, files[..k])
            + ProcessedOf(mark, f)
            + Processed(mark, files[k + 1..])
  {
    assert files == files[..k + 1] + files[k + 1..];
    ProcessedAppend(mark, files[..k + 1], files[k + 1..]);
    assert files[..k + 1][..k] == files[..k];
  }

  /** What can go wrong: the last file of the first run was still empty, so that its name was saved with the
      line number of an earlier file, and it has lines the second time. */
  predicate StaleLineNumber(files: seq<LogFile>, more: seq<LogFile>)
    requires files != [] && |files| <= |more|
  {
    var k := |files| - 1;
    files[k].lines == [] && AllEntries(files) != [] && more[k].lines != []
  }

  /** Two runs process every line exactly once, in order, if and only if the line number is not stale. */
  lemma ExactlyOnceIff(files: seq<LogFile>, more: seq<LogFile>)
    requires Extends(files, more)
    ensures AllEntries(files) + Processed(MarkAfter(files), more) == AllEntries(more)
       <==> !StaleLineNumber(files, more)
  {
    var k := |files| - 1;
    var p := Passed(MarkAfter(files), |more[k].lines|);
    MarkedHas(files, more);
    WholeLines(files, more);
    SecondRunLines(files, more);
    LastOfMarked(files, more);
    PiecesIff(AllEntries(files[..k]), Marked(files, more), AllEntries(more[k + 1..]), |files[k].lines|, p);
  }

  /** For instance, with an empty second file at the time of the first run: the line it gets later is the first
      in its file, as the last line of the first file was, and is never processed. */
  lemma LineIsLost(a: Line, b: Line)
    ensures var files, more := [LogFile(1, [a]), LogFile(2, [])], [LogFile(1, [a]), LogFile(2, [b])];
            Extends(files, more) && StaleLineNumber(files, more) && Processed(MarkAfter(files), more) == []
  {
    var files, more := [LogFile(1, [a]), LogFile(2, [])], [LogFile(1, [a]), LogFile(2, [b])];
    assert files[..1] == [files[0]] && more[..1] == [more[0]] && files[..1][..0] == [] && more[..1][..0] == [];
    OneLineFile(LogFile(1, [a]));
    OneLineFile(LogFile(2, [b]));
    assert ProcessedOf(FROM_START, LogFile(2, [])) == [];
    assert AllEntries([files[0]][..0]) == [];
    assert AllEntries([files[0]]) == [] + [Entry(1, 0, a)];
    assert AllEntries(files) == [Entry(1, 0, a)] + [];
    assert MarkAfter(files) == Mark(Some(2), Some(0));
    var mark := MarkAfter(files);
    assert Processed(mark, [more[0]][..0]) == [];
    assert Processed(mark, [more[0]]) == [] + ProcessedOf(mark, more[0]);
    assert Processed(mark, more) == Processed(mark, more[..1]) + ProcessedOf(mark, more[1]);
  }

  lemma OneLineFile(f: LogFile)
    requires |f.lines| == 1
    ensures ProcessedOf(FROM_START, f) == [Entry(f.name, 0, f.lines[0])]
    ensures ProcessedOf(Mark(Some(2), Some(0)), f) == if f.name <= 2 then [] else [Entry(f.name, 0, f.lines[0])]
  {
    assert ProcessedLines(FROM_START, f, 0) == [] && ProcessedLines(Mark(Some(2), Some(0)), f, 0) == [];
  }

  lemma PiecesIff(early: seq<Entry>, marked: seq<Entry>, late: seq<Entry>, m: nat, p: nat)
    requires m <= |marked| && p <= |marked|
    ensures (early + marked[..m]) + (marked[p..] + late) == early + marked + late <==> p == m
  {
    if p == m {
      assert marked[..m] + marked[m..] == marked;
      assert (early + marked[..m]) + (marked[m..] + late) == early + (marked[..m] + marked[m..]) + late;
    } else {
      assert |(early + marked[..m]) + (marked[p..] + late)| != |early + marked + late|;
    }
  }

  lemma LastOfMarked(files: seq<LogFile>, more: seq<LogFile>)
    requires Extends(files, more)
    ensures var k := |files| - 1;
            Passed(MarkAfter(files), |more[k].lines|) == |files[k].lines| <==> !StaleLineNumber(files, more)
  {
    var k := |files| - 1;
    var m := |files[k].lines|;
    MarkedHas(files, more);
    var all := AllEntries(files);
    if m > 0 {
      EntryIdx(more[k], |more[k].lines|, m - 1);
      assert all[|all| - 1] == Marked(files, more)[..m][m - 1];
      assert LastIdx(None, all) == Some(m - 1);
    }
  }

  lemma {:induction false} EntryIdx(f: LogFile, n: nat, i: nat)
    requires i < n <= |f.lines|
    ensures |ProcessedLines(FROM_START, f, n)| == n
    ensures ProcessedLines(FROM_START, f, n)[i] == Entry(f.name, i, f.lines[i])
  {
    if i < n - 1 {
      EntryIdx(f, n - 1, i);
    } else {
      LinesPrefix(f, n - 1, n);
    }
  }

  // ---------- The report at the end of a run changes nothing that matters ----------

  /** The same but for configured nodes that have not been heard of. */
  ghost predicate Alike(config: Config, c: Core, d: Core)
  {
    && c.hour == d.hour && c.metrics == d.metrics && c.usages == d.usages
    && c.nodes.Keys + config.nodes.Keys == d.nodes.Keys + config.nodes.Keys
    && forall id :: Get(c.nodes, id) == Get(d.nodes, id)
  }

  lemma PrintedAlike(config: Config, c: Core)
    ensures Alike(config, c, Printed(config, c, false))
  {
  }

  lemma AlikePrinted(config: Config, c: Core, d: Core)
    requires Alike(config, c, d)
    ensures Printed(config, c, false) == Printed(config, d, false)
  {
    VisitedAlike(config, c, d, false);
  }

  lemma VisitedAlike(config: Config, c: Core, d: Core, reset: bool)
    requires Alike(config, c, d)
    ensures Visited(c.nodes, config.nodes.Keys, reset) == Visited(d.nodes, config.nodes.Keys, reset)
    ensures UsageOf(config, c.nodes, config.nodes.Keys) == UsageOf(config, d.nodes, config.nodes.Keys)
  {
    var v, w := Visited(c.nodes, config.nodes.Keys, reset), Visited(d.nodes, config.nodes.Keys, reset);
    assert v.Keys == w.Keys;
    assert forall id :: id in v ==> v[id] == w[id];
  }

  lemma HourAlike(config: Config, c: Core, d: Core, r: Report)
    requires Alike(config, c, d)
    ensures Alike(config, HourChanged(config, c, r), HourChanged(config, d, r))
  {
    VisitedAlike(config, c, d, true);
  }

  lemma UpdateAlike(config: Config, c: Core, d: Core, id: int, s: NodeState, more: seq<Metric>)
    requires Alike(config, c, d)
    ensures Alike(config, c.(nodes := c.nodes[id := s], metrics := c.metrics + more),
                          d.(nodes := d.nodes[id := s], metrics := d.metrics + more))
  {
    var c', d' := c.nodes[id := s], d.nodes[id := s];
    assert c'.Keys + config.nodes.Keys == (c.nodes.Keys + config.nodes.Keys) + {id};
    assert d'.Keys + config.nodes.Keys == (d.nodes.Keys + config.nodes.Keys) + {id};
    forall k
      ensures Get(c', k) == Get(d', k)
    {
      assert Get(c.nodes, k) == Get(d.nodes, k);
    }
  }

  lemma HandledAlike(config: Config, c: Core, d: Core, r: Report)
    requires Sound(c) && Sound(d) && Alike(config, c, d)
    ensures Alike(config, Handled(config, c, r), Handled(config, d, r))
  {
    assert Get(c.nodes, r.nodeId) == Get(d.nodes, r.nodeId);
    var s := Get(c.nodes, r.nodeId);
    if r.nodeId in config.nodes {
      match config.nodes[r.nodeId]
      case MeterReader =>
        var parsed := ParseMeterLine(r.parts);
        if parsed.Some? {
          var t := MeterState(s, r);
          UpdateAlike(config, c, d, r.nodeId, t,
                      [Metric(r.nodeId, Revs, r.ts, Count(t.realCounter)),
                       Metric(r.nodeId, Battery, r.ts, Count(parsed.value.1))]);
        }
      case TempSensor =>
        var parsed := ParseTempSensorLine(config, r.parts);
        if parsed.Some? {
          UpdateAlike(config, c, d, r.nodeId, s.(temps := s.temps + [parsed.value.0]),
                      [Metric(r.nodeId, Temperature, r.ts, Degrees(parsed.value.0)),
                       Metric(r.nodeId, Battery, r.ts, Count(parsed.value.1))]);
        }
    }
  }

  lemma CountedAlike(config: Config, c: Core, d: Core, r: Report)
    requires Alike(config, c, d)
    ensures Alike(config, Counted(c, r), Counted(d, r))
  {
    assert Get(c.nodes, r.nodeId) == Get(d.nodes, r.nodeId);
    UpdateAlike(config, c, d, r.nodeId, NodeReported(Get(c.nodes, r.nodeId), r), []);
    assert c.metrics + [] == c.metrics && d.metrics + [] == d.metrics;
  }

  lemma LineAlike(config: Config, c: Core, d: Core, line: Line)
    requires Sound(c) && Sound(d) && Alike(config, c, d)
    ensures Alike(config, OnLine(config, c, line), OnLine(config, d, line))
  {
    match Parse(line)
    case None =>
    case Some(r) =>
      var c1, d1 := HourChanged(config, c, r), HourChanged(config, d, r);
      HourAlike(config, c, d, r);
      HandledAlike(config, c1, d1, r);
      CountedAlike(config, Handled(config, c1, r), Handled(config, d1, r), r);
  }

  lemma {:induction false} FoldAlike(config: Config, c: Core, d: Core, es: seq<Entry>)
    requires Sound(c) && Sound(d) && Alike(config, c, d)
    ensures Alike(config, Fold(config, c, es), Fold(config, d, es))
  {
    if es != [] {
      FoldAlike(config, c, d, es[..|es| - 1]);
      LineAlike(config, Fold(config, c, es[..|es| - 1]), Fold(config, d, es[..|es| - 1]), es[|es| - 1].line);
    }
  }

  // ---------- Resume equals rerun ----------

  lemma {:induction false} LastNameIs(file: Option<int>, mark: Mark, files: seq<LogFile>)
    requires files != [] && !SkipsFile(mark, files[|files| - 1].name)
    ensures LastName(file, mark, files) == Some(files[|files| - 1].name)
  {
  }

  /** Running over the logs, and later over the grown logs, leaves the same history, and has reported the same
      metrics and usages, as one run over the grown logs. */
  lemma ResumeEqualsRerun(config: Config, files: seq<LogFile>, more: seq<LogFile>)
    requires Extends(files, more) && !StaleLineNumber(files, more)
    ensures RunFiles(config, RunFiles(config, NEW_HISTORY, files), more) == RunFiles(config, NEW_HISTORY, more)
  {
    var a, mark := AllEntries(files), MarkAfter(files);
    var b := Processed(mark, more);
    var h := RunFiles(config, NEW_HISTORY, files);
    FirstRunMark(config, files);
    AfterFilesIs(config, NEW_HISTORY, FROM_START, files);
    AfterFilesIs(config, NEW_HISTORY, FROM_START, more);
    AfterFilesIs(config, h, mark, more);
    ExactlyOnceIff(files, more);
    var c := Fold(config, NEW_CORE, a);
    FoldAppend(config, NEW_CORE, a, b);
    PrintedAlike(config, c);
    FoldAlike(config, c, Printed(config, c, false), b);
    AlikePrinted(config, Fold(config, c, b), Fold(config, Printed(config, c, false), b));
    LastNameIs(None, FROM_START, more);
    MarkBeforeLast(files, more);
    LastNameIs(h.file, mark, more);
    assert h.lineno == LastIdx(None, a);
    assert LastIdx(LastIdx(None, a), b) == LastIdx(None, a + b);
  }

  lemma MarkBeforeLast(files: seq<LogFile>, more: seq<LogFile>)
    requires Extends(files, more)
    ensures !SkipsFile(MarkAfter(files), more[|more| - 1].name)
  {
    var k := |files| - 1;
    if k < |more| - 1 {
      assert more[k].name < more[|more| - 1].name;
    }
  }

  /** The histories after one run on each of a series of snapshots of the logs. */
  function RunAll(config: Config, snapshots: seq<seq<LogFile>>): (h: History)
    ensures Sound(h.core)
  {
    if snapshots == [] then NEW_HISTORY
    else RunFiles(config, RunAll(config, snapshots[..|snapshots| - 1]), snapshots[|snapshots| - 1])
  }

  /** However often the processor runs while the logs grow, each time with lines in the last file: the outcome
      is that of a single run over the final logs. */
  lemma {:induction false} ManyRunsEqualOne(config: Config, snapshots: seq<seq<LogFile>>)
    requires snapshots != []
    requires forall i :: 0 < i < |snapshots| ==> Extends(snapshots[i - 1], snapshots[i])
    requires forall i :: 0 <= i < |snapshots| ==>
               snapshots[i] != [] && snapshots[i][|snapshots[i]| - 1].lines != []
    ensures RunAll(config, snapshots) == RunFiles(config, NEW_HISTORY, snapshots[|snapshots| - 1])
  {
    var n := |snapshots| - 1;
    if n > 0 {
      ManyRunsEqualOne(config, snapshots[..n]);
      assert Extends(snapshots[n - 1], snapshots[n]);
      ResumeEqualsRerun(config, snapshots[n - 1], snapshots[n]);
    }
  }

  /** Files older than the current one may be gone by the next run. */
  lemma OldFilesNotNeeded(config: Config, h: History, files: seq<LogFile>, j: nat)
    requires Sound(h.core) && j <= |files|
    requires forall i :: 0 <= i < j ==> SkipsFile(MarkOf(h), files[i].name)
    ensures RunFiles(config, h, files) == RunFiles(config, h, files[j..])
  {
    var mark := MarkOf(h);
    assert files == files[..j] + files[j..];
    EarlierFilesSkipped(mark, files[..j]);
    ProcessedAppend(mark, files[..j], files[j..]);
    AfterFilesIs(config, h, mark, files);
    AfterFilesIs(config, h, mark, files[j..]);
    LastNameAppend(h.file, mark, files[..j], files[j..]);
    assert [] + Processed(mark, files[j..]) == Processed(mark, files[j..]);
  }

  lemma {:induction false} LastNameAppend(file: Option<int>, mark: Mark, a: seq<LogFile>, b: seq<LogFile>)
    requires forall i :: 0 <= i < |a| ==> SkipsFile(mark, a[i].name)
    ensures LastName(file, mark, a + b) == LastName(file, mark, b)
    decreases |b|, |a|
  {
    if b != [] {
      LastNameAppend(file, mark, a, b[..|b| - 1]);
      assert (a + b)[..|a + b| - 1] == a + b[..|b| - 1];
    } else if a != [] {
      assert a + b == a;
      assert a[..|a| - 1] + b == a[..|a| - 1];
      LastNameAppend(file, mark, a[..|a| - 1], b);
    }
  }
}
