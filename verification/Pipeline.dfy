/** mlogger and powerdb side by side: processes of mlogger, one after another, log lines into hourly files while
    powerdb runs, at any time in between, count them into half hours. */
module Pipeline {
  import opened Text
  import opened LogFiles
  import opened PowerDb

  // ---------- How the two counters read a line ----------

  /** Whether powerdb counts a logged line, whatever its timestamp. */
  predicate DbCounts(line: string)
  {
    var fields := SplitOn(DropEol(line), ' ');
    fields[if |fields| >= 3 then 1 else 0] == "PULSE"
  }

  /** powerdb reads back the stamp mlogger wrote, and finds the tag in the line itself. */
  lemma PulseTimeOfStamped(now: nat, line: string)
    requires IsLine(line) && now < INT64_LIMIT
    ensures PulseTime(DropEol(Stamped(now, line))) == if DbCounts(line) then Some(now) else None
  {
    ItoaDigits(now);
    ParseItoa(now);
    var text := DropEol(line);
    DropEolStamped(now, line);
    assert Itoa(now) + " " + text == Itoa(now) + [' '] + text;
    SplitOnFirst(Itoa(now), ' ', text);
    var fields := SplitOn(text, ' ');
    var parts := [Itoa(now)] + fields;
    assert SplitOn(Itoa(now) + " " + text, ' ') == parts;
    assert forall i :: 0 < i < |parts| ==> parts[i] == fields[i - 1];
  }

  lemma DropEolStamped(now: nat, line: string)
    requires IsLine(line)
    ensures DropEol(Stamped(now, line)) == Itoa(now) + " " + DropEol(line)
  {
    DropEolAppend(Itoa(now) + " ", line);
  }

  lemma DropEolAppend(head: string, line: string)
    requires IsLine(line) && head != "" && head[|head| - 1] != '\r'
    ensures DropEol(head + line) == head + DropEol(line)
  {
    var s := line[..|line| - 1];
    assert (head + line)[..|head + line| - 1] == head + s;
    if s == "" {
      AppendEmpty(head);
    } else {
      assert (head + s)[|head + s| - 1] == s[|s| - 1];
      assert (head + s)[..|head + s| - 1] == head + s[..|s| - 1];
    }
  }

  lemma StampedIsLine(now: nat, line: string)
    requires IsLine(line)
    ensures IsLine(Stamped(now, line))
  {
    ItoaDigits(now);
    var head := Itoa(now) + " ";
    assert '\n' !in head;
    assert (head + line)[..|head + line| - 1] == head + line[..|line| - 1];
  }

  // ---------- What a file says about a stretch of time ----------

  /** A line that process_line has written, and the time it was stamped with. */
  datatype Record = Record(now: nat, line: string)

  /** The records of one hour, as they stand in its file. */
  function WrittenOf(records: seq<Record>, h: int): string
  {
    if records == [] then ""
    else
      var r, before := records[|records| - 1], WrittenOf(records[..|records| - 1], h);
      if HourOf(r.now) == h then before + Stamped(r.now, r.line) else before
  }

  /** The records stamped within [start, end) that powerdb counts. */
  function CountRecords(records: seq<Record>, start: int, end: int): nat
  {
    if records == [] then 0
    else
      var r := records[|records| - 1];
      CountRecords(records[..|records| - 1], start, end) + if DbCounts(r.line) && start <= r.now < end then 1 else 0
  }

  lemma RecordsSnoc(records: seq<Record>, r: Record, h: int, start: int, end: int)
    ensures WrittenOf(records + [r], h) ==
            WrittenOf(records, h) + if HourOf(r.now) == h then Stamped(r.now, r.line) else ""
    ensures CountRecords(records + [r], start, end) ==
            CountRecords(records, start, end) + if DbCounts(r.line) && start <= r.now < end then 1 else 0
  {
    assert (records + [r])[..|records|] == records;
    AppendEmpty(WrittenOf(records, h));
  }

  /** Whole lines, stamped within 64 bits. */
  ghost predicate Proper(records: seq<Record>)
  {
    forall i :: 0 <= i < |records| ==> IsLine(records[i].line) && records[i].now < INT64_LIMIT
  }

  /** One more record in a file is one more line for the scanner. */
  lemma ScanOneMore(content: string, record: string)
    requires SplitLines(content).tail == "" && IsLine(record)
    ensures SplitLines(content + record).tail == ""
    ensures Scanned(content + record) == Scanned(content) + [DropEol(record)]
  {
    SplitCompletes(content, record);
    AppendEmpty(record);
    var ls := SplitLines(content).lines;
    assert (ls + [record])[..|ls|] == ls;
  }

  lemma {:induction false} FileCounts(records: seq<Record>, h: int, start: int, end: int)
    requires Proper(records) && 3600 * h <= start && end <= 3600 * (h + 1)
    ensures SplitLines(WrittenOf(records, h)).tail == ""
    ensures CountIn(Scanned(WrittenOf(records, h)), start, end) == CountRecords(records, start, end)
  {
    if records != [] {
      var n := |records| - 1;
      FileCounts(records[..n], h, start, end);
      if HourOf(records[n].now) == h {
        OneMoreCounts(WrittenOf(records[..n], h), records[n].now, records[n].line, start, end);
      }
    }
  }

  lemma OneMoreCounts(before: string, now: nat, line: string, start: int, end: int)
    requires SplitLines(before).tail == "" && IsLine(line) && now < INT64_LIMIT
    ensures SplitLines(before + Stamped(now, line)).tail == ""
    ensures CountIn(Scanned(before + Stamped(now, line)), start, end) ==
            CountIn(Scanned(before), start, end) + if DbCounts(line) && start <= now < end then 1 else 0
  {
    StampedIsLine(now, line);
    ScanOneMore(before, Stamped(now, line));
    PulseTimeOfStamped(now, line);
    var texts := Scanned(before) + [DropEol(Stamped(now, line))];
    assert texts[..|texts| - 1] == Scanned(before);
  }

  /** A directory of hourly files that holds exactly these records, each in the file of its hour. */
  ghost predicate Holds(files: map<int, string>, records: seq<Record>)
  {
    forall h :: ContentOf(files, h) == WrittenOf(records, h)
  }

  /** What powerdb counts for a period is the records of that period, all of them. */
  lemma PeriodCounts(files: map<int, string>, records: seq<Record>, i: nat, off: int)
    requires off % HALF_HOUR == 0 && Proper(records) && Holds(files, records)
    ensures PeriodWh(files, PeriodAt(i, off), off)
         == CountRecords(records, PeriodAt(i, off) - HALF_HOUR, PeriodAt(i, off))
  {
    var p := PeriodAt(i, off);
    PeriodAtAligned(i, off);
    AlignedWindow(p, off);
    PeriodWhOf(files, p, off);
    FileCounts(records, GetPeriodFile(p), p - HALF_HOUR, p);
  }

  /** A missing file counts as an empty one. */
  lemma PeriodWhOf(files: map<int, string>, p: int, off: int)
    requires Aligned(p, off)
    ensures PeriodWh(files, p, off) == CountIn(Scanned(ContentOf(files, GetPeriodFile(p))), p - HALF_HOUR, p)
  {
    AlignedFixed(p, off);
  }

  // ---------- The programs side by side ----------

  /** `Logged`: process_line is called on this line; the k-th of all calls meets the k-th tick.  `Restarted`:
      the process of mlogger, whether it has failed or not, is replaced by a new one over the same files.
      `Started`: a powerdb process reads the latest period and the clock.  `Inserts`: the i-th powerdb process
      does its next InsertPeriodToDB; processes can overlap, and one need not ever finish. */
  datatype Event = Logged(line: string) | Restarted | Started(now: nat) | Inserts(i: nat)

  function LinesOf(evs: seq<Event>): seq<string>
  {
    if evs == [] then []
    else
      match evs[|evs| - 1]
      case Logged(line) => LinesOf(evs[..|evs| - 1]) + [line]
      case _ => LinesOf(evs[..|evs| - 1])
  }

  function LogAfter(env: Env, evs: seq<Event>): (log: Log)
    ensures WellFormed(log)
  {
    if evs == [] then InitLog(map[])
    else
      var before := evs[..|evs| - 1];
      match evs[|evs| - 1]
      case Logged(line) => LogStep(LogAfter(env, before), env(|LinesOf(before)|), line)
      case Restarted => InitLog(LogAfter(env, before).files)
      case _ => LogAfter(env, before)
  }

  /** The call writes its line: the process is running and has a file open for it, or can open one.  (Overlong
      lines are written before the assertion fails.) */
  predicate Writes(log: Log, tick: Tick)
  {
    log.status == Running && (tick.openOk || (log.expiresAt != -1 && tick.now <= log.expiresAt))
  }

  function Records(env: Env, evs: seq<Event>): seq<Record>
  {
    if evs == [] then []
    else
      var before := evs[..|evs| - 1];
      match evs[|evs| - 1]
      case Logged(line) =>
        var tick := env(|LinesOf(before)|);
        if Writes(LogAfter(env, before), tick) then Records(env, before) + [Record(tick.now, line)]
        else Records(env, before)
      case _ => Records(env, before)
  }

  /** What is left to do for a powerdb process: the period to insert next, and where to stop. */
  datatype PowerRun = PowerRun(next: int, stop: int)

  /** The table, and the powerdb processes started so far; `None` is one that has failed. */
  datatype Power = Power(rows: seq<Row>, runs: seq<Option<PowerRun>>)

  function RunStarted(p: Power, now: nat, off: int): Power
  {
    var run := PowerRun(GetNextPeriod(LastUpdate(p.rows, off), off), GetLastFullPeriod(now, off));
    p.(runs := p.runs + [Some(run)])
  }

  predicate Busy(p: Power, i: nat)
  {
    i < |p.runs| && p.runs[i].Some? && p.runs[i].value.next < p.runs[i].value.stop
  }

  /** One period more, unless it has got into the table in the meantime: then the process fails. */
  function RunInserts(p: Power, i: nat, files: map<int, string>, off: int): Power
  {
    if !Busy(p, i) then p
    else
      var run := p.runs[i].value;
      if HasPeriod(p.rows, run.next) then p.(runs := p.runs[i := None])
      else Power(p.rows + [Row(run.next, PeriodWh(files, run.next, off))],
                 p.runs[i := Some(run.(next := GetNextPeriod(run.next, off)))])
  }

  function PowerAfter(env: Env, evs: seq<Event>, off: int): Power
  {
    if evs == [] then Power([], [])
    else
      var before := evs[..|evs| - 1];
      match evs[|evs| - 1]
      case Started(now) => RunStarted(PowerAfter(env, before, off), now, off)
      case Inserts(i) => RunInserts(PowerAfter(env, before, off), i, LogAfter(env, before).files, off)
      case _ => PowerAfter(env, before, off)
  }

  function RowsAfter(env: Env, evs: seq<Event>, off: int): seq<Row>
  {
    PowerAfter(env, evs, off).rows
  }

  /** The clock reading of the latest event. */
  function Clock(env: Env, evs: seq<Event>): nat
  {
    if evs == [] then 0
    else
      match evs[|evs| - 1]
      case Logged(_) => env(|LinesOf(evs[..|evs| - 1])|).now
      case Started(now) => now
      case _ => Clock(env, evs[..|evs| - 1])
  }

  /** One clock, read by both programs, that never goes back. */
  predicate InOrder(env: Env, evs: seq<Event>)
  {
    evs == [] || (InOrder(env, evs[..|evs| - 1]) && Clock(env, evs[..|evs| - 1]) <= Clock(env, evs))
  }

  /** Both programs on one clock, whole lines, and stamps within 64 bits. */
  ghost predicate Healthy(env: Env, evs: seq<Event>, off: int)
  {
    && off % HALF_HOUR == 0
    && InOrder(env, evs)
    && AllLines(LinesOf(evs))
    && forall i :: 0 <= i < |LinesOf(evs)| ==> env(i).now < INT64_LIMIT
  }

  lemma HealthyBefore(env: Env, evs: seq<Event>, off: int)
    requires Healthy(env, evs, off) && evs != []
    ensures Healthy(env, evs[..|evs| - 1], off)
  {
    assert LinesOf(evs[..|evs| - 1]) <= LinesOf(evs);
  }

  // ---------- The files hold the records ----------

  /** The open file is not that of an hour still to come. */
  ghost predicate Current(log: Log, clock: nat)
  {
    WellFormed(log) && (log.status == Running && log.fd.Some? ==> log.fd.value <= HourOf(clock))
  }

  lemma StepWrites(log: Log, clock: nat, tick: Tick, line: string, h: int)
    requires Current(log, clock) && clock <= tick.now
    ensures Current(LogStep(log, tick, line), tick.now)
    ensures ContentOf(LogStep(log, tick, line).files, h) ==
            ContentOf(log.files, h) + if Writes(log, tick) && HourOf(tick.now) == h then Stamped(tick.now, line) else ""
  {
    AppendEmpty(ContentOf(log.files, h));
    LaterHour(tick.now, clock);
    if Writes(log, tick) {
      WritesToOwnHour(log, clock, tick, line);
    }
  }

  lemma WritesToOwnHour(log: Log, clock: nat, tick: Tick, line: string)
    requires Current(log, clock) && clock <= tick.now && Writes(log, tick)
    ensures LogStep(log, tick, line).fd == Some(HourOf(tick.now))
    ensures LogStep(log, tick, line).files == Appended(Rotated(log, tick), Stamped(tick.now, line)).files
    ensures Rotated(log, tick).fd == Some(HourOf(tick.now))
    ensures forall h :: ContentOf(Rotated(log, tick).files, h) == ContentOf(log.files, h)
  {
    LaterHour(tick.now, clock);
    if log.expiresAt != -1 && tick.now <= log.expiresAt {
      LaterHour(tick.now, 3600 * log.fd.value);
    }
  }

  /** Whatever processes there were, each hourly file holds exactly the records of its hour, in order. */
  lemma {:induction false} FilesHoldRecords(env: Env, evs: seq<Event>)
    requires InOrder(env, evs)
    ensures Current(LogAfter(env, evs), Clock(env, evs))
    ensures Holds(LogAfter(env, evs).files, Records(env, evs))
  {
    if evs != [] {
      var before := evs[..|evs| - 1];
      FilesHoldRecords(env, before);
      if evs[|evs| - 1].Logged? {
        var tick := env(|LinesOf(before)|);
        forall h
          ensures ContentOf(LogAfter(env, evs).files, h) == WrittenOf(Records(env, evs), h)
        {
          StepWrites(LogAfter(env, before), Clock(env, before), tick, evs[|evs| - 1].line, h);
          RecordsSnoc(Records(env, before), Record(tick.now, evs[|evs| - 1].line), h, 0, 0);
          AppendEmpty(WrittenOf(Records(env, before), h));
          AppendEmpty(ContentOf(LogAfter(env, before).files, h));
        }
        StepWrites(LogAfter(env, before), Clock(env, before), tick, evs[|evs| - 1].line, 0);
      }
    }
  }

  lemma {:induction false} RecordsAreProper(env: Env, evs: seq<Event>, off: int)
    requires Healthy(env, evs, off)
    ensures Proper(Records(env, evs))
  {
    if evs != [] {
      HealthyBefore(env, evs, off);
      RecordsAreProper(env, evs[..|evs| - 1], off);
      if evs[|evs| - 1].Logged? {
        var n := |LinesOf(evs)| - 1;
        assert IsLine(LinesOf(evs)[n]) && env(n).now < INT64_LIMIT;
      }
    }
  }

  // ---------- The table is right ----------

  /** Every row tells the truth about its half hour for good: as many as the records stamped in it. */
  ghost predicate RowsTrue(records: seq<Record>, rows: seq<Row>, off: int)
  {
    forall k :: 0 <= k < |rows| ==>
      rows[k].whIn == CountRecords(records, PeriodAt(k, off) - HALF_HOUR, PeriodAt(k, off))
  }

  ghost predicate Past(rows: seq<Row>, off: int, clock: nat)
  {
    rows != [] ==> PeriodAt(|rows| - 1, off) <= clock
  }

  /** What a process inserts next is at most the first period missing in the table, and it stops in time. */
  ghost predicate RunGood(run: PowerRun, rows: seq<Row>, off: int, clock: nat)
  {
    && Aligned(run.next, off) && PeriodAt(0, off) <= run.next <= PeriodAt(|rows|, off)
    && Aligned(run.stop, off) && run.stop <= clock
  }

  ghost predicate RunsGood(p: Power, off: int, clock: nat)
  {
    forall i :: 0 <= i < |p.runs| && p.runs[i].Some? ==> RunGood(p.runs[i].value, p.rows, off, clock)
  }

  /** The table tiles the time since the sentinel, no row's half hour is still to come, and every row holds
      exactly the pulses recorded in it. */
  ghost predicate TableRight(records: seq<Record>, p: Power, off: int, clock: nat)
  {
    && Tiled(p.rows, off)
    && Past(p.rows, off, clock)
    && RowsTrue(records, p.rows, off)
    && RunsGood(p, off, clock)
  }

  /** Whoever runs when, however often mlogger fails and is restarted and however powerdb processes overlap, the
      table is right after every event. */
  lemma {:induction false} RowsStayTrue(env: Env, evs: seq<Event>, off: int)
    requires Healthy(env, evs, off)
    ensures TableRight(Records(env, evs), PowerAfter(env, evs, off), off, Clock(env, evs))
  {
    if evs != [] {
      var before := evs[..|evs| - 1];
      var p, clock := PowerAfter(env, before, off), Clock(env, before);
      HealthyBefore(env, evs, off);
      RowsStayTrue(env, before, off);
      match evs[|evs| - 1]
      case Logged(line) =>
        LaterClock(Records(env, before), p, off, clock, Clock(env, evs));
        LaterRecordLeavesRows(Records(env, before), p.rows, off, clock, Record(Clock(env, evs), line));
      case Restarted =>
      case Started(now) =>
        LaterClock(Records(env, before), p, off, clock, now);
        StartIsGood(Records(env, before), p, now, off);
      case Inserts(i) =>
        FilesHoldRecords(env, before);
        RecordsAreProper(env, before, off);
        InsertIsTrue(LogAfter(env, before).files, Records(env, before), p, i, off, clock);
    }
  }

  lemma LaterClock(records: seq<Record>, p: Power, off: int, clock: nat, later: nat)
    requires TableRight(records, p, off, clock) && clock <= later
    ensures TableRight(records, p, off, later)
  {
    forall i | 0 <= i < |p.runs| && p.runs[i].Some?
      ensures RunGood(p.runs[i].value, p.rows, off, later)
    {
      assert RunGood(p.runs[i].value, p.rows, off, clock);
    }
  }

  lemma LaterRecordLeavesRows(records: seq<Record>, rows: seq<Row>, off: int, clock: nat, r: Record)
    requires RowsTrue(records, rows, off) && Past(rows, off, clock) && clock <= r.now
    ensures RowsTrue(records + [r], rows, off)
  {
    forall k | 0 <= k < |rows|
      ensures rows[k].whIn == CountRecords(records + [r], PeriodAt(k, off) - HALF_HOUR, PeriodAt(k, off))
    {
      RecordsSnoc(records, r, 0, PeriodAt(k, off) - HALF_HOUR, PeriodAt(k, off));
      assert PeriodAt(k, off) <= r.now;
    }
  }

  lemma StartIsGood(records: seq<Record>, p: Power, now: nat, off: int)
    requires TableRight(records, p, off, now)
    ensures TableRight(records, RunStarted(p, now, off), off, now)
  {
    NextContinues(p.rows, off);
    PeriodAtAligned(|p.rows|, off);
    LastFullPeriodIs(now, off);
    var q := RunStarted(p, now, off);
    forall i | 0 <= i < |q.runs| && q.runs[i].Some?
      ensures RunGood(q.runs[i].value, q.rows, off, now)
    {
      assert i < |p.runs| ==> q.runs[i] == p.runs[i];
    }
  }

  /** A process that comes late finds its period in the table; otherwise it inserts the first one missing. */
  lemma InTableIff(rows: seq<Row>, d: int, off: int)
    requires Tiled(rows, off) && Aligned(d, off) && PeriodAt(0, off) <= d <= PeriodAt(|rows|, off)
    ensures HasPeriod(rows, d) <==> d != PeriodAt(|rows|, off)
  {
    var k := (d - PeriodAt(0, off)) / HALF_HOUR;
    AlignedSteps(d, off);
    assert d == PeriodAt(k, off);
    if k < |rows| {
      assert rows[k].halfHourEnding == d;
    }
  }

  lemma AlignedSteps(d: int, off: int)
    requires Aligned(d, off)
    ensures d - PeriodAt(0, off) == HALF_HOUR * ((d - PeriodAt(0, off)) / HALF_HOUR)
  {
    PeriodAtAligned(0, off);
    var a, b := (d + off) / HALF_HOUR, (PeriodAt(0, off) + off) / HALF_HOUR;
    assert d - PeriodAt(0, off) == HALF_HOUR * (a - b);
  }

  lemma InsertIsTrue(files: map<int, string>, records: seq<Record>, p: Power, i: nat, off: int, clock: nat)
    requires off % HALF_HOUR == 0 && TableRight(records, p, off, clock)
    requires Proper(records) && Holds(files, records)
    ensures TableRight(records, RunInserts(p, i, files, off), off, clock)
  {
    if Busy(p, i) {
      var run, n := p.runs[i].value, |p.rows|;
      assert RunGood(run, p.rows, off, clock);
      InTableIff(p.rows, run.next, off);
      if run.next == PeriodAt(n, off) {
        NextStaysGood(run, p.rows, PeriodWh(files, run.next, off), off, clock);
        PeriodCounts(files, records, n, off);
        RowsTrueSnoc(records, p.rows, PeriodWh(files, run.next, off), off);
      }
      RunsStayGood(p, i, RunInserts(p, i, files, off), off, clock);
    }
  }

  lemma NextStaysGood(run: PowerRun, rows: seq<Row>, wh: nat, off: int, clock: nat)
    requires RunGood(run, rows, off, clock) && run.next == PeriodAt(|rows|, off) && run.next < run.stop
    ensures var after := rows + [Row(run.next, wh)];
            Past(after, off, clock) && RunGood(run.(next := GetNextPeriod(run.next, off)), after, off, clock)
  {
    NextBoundary(run.next, run.stop, off);
    PeriodAtAligned(|rows|, off);
    PeriodAtAligned(|rows| + 1, off);
  }

  lemma RowsTrueSnoc(records: seq<Record>, rows: seq<Row>, wh: nat, off: int)
    requires Tiled(rows, off) && RowsTrue(records, rows, off)
    requires var d := PeriodAt(|rows|, off);
             wh == CountRecords(records, d - HALF_HOUR, d)
    ensures var after := rows + [Row(PeriodAt(|rows|, off), wh)];
            Tiled(after, off) && RowsTrue(records, after, off)
  {
  }

  lemma RunsStayGood(p: Power, i: nat, q: Power, off: int, clock: nat)
    requires RunsGood(p, off, clock) && i < |p.runs| == |q.runs| && |p.rows| <= |q.rows|
    requires q.runs == p.runs[i := q.runs[i]]
    requires q.runs[i].Some? ==> RunGood(q.runs[i].value, q.rows, off, clock)
    ensures RunsGood(q, off, clock)
  {
    forall j | 0 <= j < |q.runs| && q.runs[j].Some?
      ensures RunGood(q.runs[j].value, q.rows, off, clock)
    {
      if j != i {
        assert q.runs[j] == p.runs[j];
        assert RunGood(p.runs[j].value, p.rows, off, clock);
      }
    }
  }

  // ---------- A process that is not disturbed ----------

  /** n inserts of the last process started. */
  function InsertedAlone(p: Power, files: map<int, string>, n: nat, off: int): Power
    requires p.runs != []
    ensures |InsertedAlone(p, files, n, off).runs| == |p.runs|
  {
    if n == 0 then p
    else
      RunInserts(InsertedAlone(p, files, n - 1, off), |p.runs| - 1, files, off)
  }

  /** The first k rows of a run are in the table, and the last process started is about to insert the next. */
  function Advanced(all: seq<Row>, k: nat, runs: seq<Option<PowerRun>>, stop: int, off: int): Power
    requires k <= |all|
  {
    Power(all[..k], runs + [Some(PowerRun(PeriodAt(k, off), stop))])
  }

  /** Left alone, a process adds the rows of a whole run to the table, one by one, and never fails. */
  lemma {:induction false} AloneIsRunOnce(rows: seq<Row>, runs: seq<Option<PowerRun>>, files: map<int, string>,
                                         now: nat, n: nat, off: int)
    requires Tiled(rows, off)
    requires n <= |RunOnce(rows, files, now, off)| - |rows|
    ensures InsertedAlone(RunStarted(Power(rows, runs), now, off), files, n, off)
         == Advanced(RunOnce(rows, files, now, off), |rows| + n, runs, GetLastFullPeriod(now, off), off)
  {
    var all, stop := RunOnce(rows, files, now, off), GetLastFullPeriod(now, off);
    AloneStarts(rows, runs, files, now, off);
    forall k | |rows| <= k < |all|
      ensures IsNext(all, k, files, stop, off)
    {
      RunRow(rows, files, now, k, off);
    }
    AloneAdvances(all, |rows|, n, runs, files, stop, off);
  }

  /** The k-th row is the next one to be inserted after those before it. */
  ghost predicate IsNext(all: seq<Row>, k: nat, files: map<int, string>, stop: int, off: int)
  {
    k < |all| && all[k] == Row(PeriodAt(k, off), PeriodWh(files, PeriodAt(k, off), off)) && PeriodAt(k, off) < stop
  }

  lemma AloneStarts(rows: seq<Row>, runs: seq<Option<PowerRun>>, files: map<int, string>, now: nat, off: int)
    requires Tiled(rows, off)
    ensures var all := RunOnce(rows, files, now, off);
            && Tiled(all, off) && |rows| <= |all|
            && RunStarted(Power(rows, runs), now, off)
            == Advanced(all, |rows|, runs, GetLastFullPeriod(now, off), off)
  {
    NextContinues(rows, off);
    RunTiles(rows, files, now, off);
  }

  lemma {:induction false} AloneAdvances(all: seq<Row>, from: nat, n: nat, runs: seq<Option<PowerRun>>,
                                        files: map<int, string>, stop: int, off: int)
    requires Tiled(all, off) && from + n <= |all|
    requires forall k :: from <= k < |all| ==> IsNext(all, k, files, stop, off)
    ensures InsertedAlone(Advanced(all, from, runs, stop, off), files, n, off)
         == Advanced(all, from + n, runs, stop, off)
  {
    if n > 0 {
      AloneAdvances(all, from, n - 1, runs, files, stop, off);
      assert IsNext(all, from + n - 1, files, stop, off);
      AloneStep(all, from + n - 1, runs, files, stop, off);
    }
  }

  lemma RunRow(rows: seq<Row>, files: map<int, string>, now: nat, k: nat, off: int)
    requires Tiled(rows, off) && |rows| <= k < |RunOnce(rows, files, now, off)|
    ensures var all := RunOnce(rows, files, now, off);
            && Tiled(all, off) && all[k] == Row(PeriodAt(k, off), PeriodWh(files, PeriodAt(k, off), off))
            && PeriodAt(k, off) < GetLastFullPeriod(now, off)
  {
    RunTiles(rows, files, now, off);
    BeforeStop(rows, files, now, k, off);
  }

  lemma AloneStep(all: seq<Row>, k: nat, runs: seq<Option<PowerRun>>, files: map<int, string>, stop: int, off: int)
    requires k < |all| && Tiled(all, off) && PeriodAt(k, off) < stop
    requires all[k] == Row(PeriodAt(k, off), PeriodWh(files, PeriodAt(k, off), off))
    ensures RunInserts(Advanced(all, k, runs, stop, off), |runs|, files, off) == Advanced(all, k + 1, runs, stop, off)
  {
    PeriodAtAligned(k, off);
    InTableIff(all[..k], PeriodAt(k, off), off);
    assert all[..k + 1] == all[..k] + [all[k]];
  }

  /** After the last of these rows it is done. */
  lemma AloneFinishes(rows: seq<Row>, runs: seq<Option<PowerRun>>, files: map<int, string>, now: nat, off: int)
    requires Tiled(rows, off)
    ensures |RunOnce(rows, files, now, off)| >= |rows|
    ensures var n := |RunOnce(rows, files, now, off)| - |rows|;
            var p := InsertedAlone(RunStarted(Power(rows, runs), now, off), files, n, off);
            p.rows == RunOnce(rows, files, now, off) && !Busy(p, |runs|)
  {
    var all := RunOnce(rows, files, now, off);
    RunTiles(rows, files, now, off);
    AloneIsRunOnce(rows, runs, files, now, |all| - |rows|, off);
    StopIsReached(rows, files, now, off);
    assert all[..|all|] == all;
  }

  lemma StopIsReached(rows: seq<Row>, files: map<int, string>, now: nat, off: int)
    requires Tiled(rows, off)
    ensures PeriodAt(|RunOnce(rows, files, now, off)|, off) >= GetLastFullPeriod(now, off)
  {
    LastFullPeriodIs(now, off);
    NextContinues(rows, off);
    InsertedTiles(files, |rows|, GetLastFullPeriod(now, off), off);
  }

  /** Each row of a run is one of a period before its stop. */
  lemma BeforeStop(rows: seq<Row>, files: map<int, string>, now: nat, k: nat, off: int)
    requires Tiled(rows, off) && |rows| <= k < |RunOnce(rows, files, now, off)|
    ensures PeriodAt(k, off) < GetLastFullPeriod(now, off)
  {
    var stop := GetLastFullPeriod(now, off);
    LastFullPeriodIs(now, off);
    NextContinues(rows, off);
    InsertedTiles(files, |rows|, stop, off);
    var added := Inserted(files, PeriodAt(|rows|, off), stop, off);
    assert RunOnce(rows, files, now, off)[k] == added[k - |rows|];
    assert PeriodAt(|rows| + (k - |rows|), off) + HALF_HOUR <= stop;
  }

  // ---------- Conservation ----------

  function TotalWh(rows: seq<Row>): nat
  {
    if rows == [] then 0 else TotalWh(rows[..|rows| - 1]) + rows[|rows| - 1].whIn
  }

  lemma {:induction false} CountRecordsSplits(records: seq<Record>, a: int, b: int, c: int)
    requires a <= b <= c
    ensures CountRecords(records, a, c) == CountRecords(records, a, b) + CountRecords(records, b, c)
  {
    if records != [] {
      CountRecordsSplits(records[..|records| - 1], a, b, c);
    }
  }

  lemma {:induction false} CountRecordsNowhere(records: seq<Record>, a: int)
    ensures CountRecords(records, a, a) == 0
  {
    if records != [] {
      CountRecordsNowhere(records[..|records| - 1], a);
    }
  }

  /** The end of the time the table covers; it starts at the sentinel. */
  function CoveredUntil(rows: seq<Row>, off: int): int
  {
    Sentinel(off) + HALF_HOUR * |rows|
  }

  lemma {:induction false} TotalIsCovered(records: seq<Record>, rows: seq<Row>, off: int)
    requires RowsTrue(records, rows, off)
    ensures TotalWh(rows) == CountRecords(records, Sentinel(off), CoveredUntil(rows, off))
  {
    if rows == [] {
      CountRecordsNowhere(records, Sentinel(off));
    } else {
      var n := |rows| - 1;
      TotalIsCovered(records, rows[..n], off);
      assert PeriodAt(n, off) == CoveredUntil(rows, off);
      CountRecordsSplits(records, Sentinel(off), CoveredUntil(rows[..n], off), CoveredUntil(rows, off));
    }
  }

  /** The table's total is the number of counted records in the time it covers: none lost at a file rotation, a
      restart or a period boundary, none counted twice, whatever the interleaving of the programs. */
  lemma PulsesConserved(env: Env, evs: seq<Event>, off: int)
    requires Healthy(env, evs, off)
    ensures var rows := RowsAfter(env, evs, off);
            TotalWh(rows) == CountRecords(Records(env, evs), Sentinel(off), CoveredUntil(rows, off))
  {
    RowsStayTrue(env, evs, off);
    TotalIsCovered(Records(env, evs), RowsAfter(env, evs, off), off);
  }

  // ---------- What the processes counted ----------

  /** The pulses counted by all processes of mlogger that have ended, and by the present one. */
  function CountedBefore(env: Env, evs: seq<Event>): nat
  {
    if evs == [] then 0
    else
      var before := evs[..|evs| - 1];
      CountedBefore(env, before) + if evs[|evs| - 1].Restarted? then LogAfter(env, before).counter else 0
  }

  function TotalCounted(env: Env, evs: seq<Event>): nat
  {
    CountedBefore(env, evs) + LogAfter(env, evs).counter
  }

  /** The records mlogger counts as pulses. */
  function Seen(records: seq<Record>): nat
  {
    if records == [] then 0
    else
      var line := records[|records| - 1].line;
      Seen(records[..|records| - 1]) + if CountsPulse(line) && |line| <= MAX_LOGGED then 1 else 0
  }

  lemma StepSees(log: Log, tick: Tick, line: string)
    requires WellFormed(log)
    ensures LogStep(log, tick, line).counter ==
            log.counter + if Writes(log, tick) && CountsPulse(line) && |line| <= MAX_LOGGED then 1 else 0
  {
  }

  lemma SeenSnoc(records: seq<Record>, r: Record)
    ensures Seen(records + [r]) == Seen(records) + if CountsPulse(r.line) && |r.line| <= MAX_LOGGED then 1 else 0
  {
    assert (records + [r])[..|records|] == records;
  }

  /** Over all processes, mlogger's counters add up to the pulses it recorded. */
  lemma {:induction false} CountersSeeRecords(env: Env, evs: seq<Event>)
    ensures TotalCounted(env, evs) == Seen(Records(env, evs))
  {
    if evs != [] {
      var before := evs[..|evs| - 1];
      CountersSeeRecords(env, before);
      if evs[|evs| - 1].Logged? {
        var tick := env(|LinesOf(before)|);
        StepSees(LogAfter(env, before), tick, evs[|evs| - 1].line);
        SeenSnoc(Records(env, before), Record(tick.now, evs[|evs| - 1].line));
      }
    }
  }

  // ---------- The present process ----------

  function LifeLines(evs: seq<Event>): seq<string>
  {
    if evs == [] then []
    else
      match evs[|evs| - 1]
      case Logged(line) => LifeLines(evs[..|evs| - 1]) + [line]
      case Restarted => []
      case _ => LifeLines(evs[..|evs| - 1])
  }

  function FilesAtStart(env: Env, evs: seq<Event>): map<int, string>
  {
    if evs == [] then map[]
    else if evs[|evs| - 1].Restarted? then LogAfter(env, evs[..|evs| - 1]).files
    else FilesAtStart(env, evs[..|evs| - 1])
  }

  function LaterEnv(env: Env, n: nat): Env
  {
    (k: nat) => env(n + k)
  }

  /** Its lines are the latest. */
  lemma {:induction false} LifeIsSuffix(evs: seq<Event>)
    ensures |LifeLines(evs)| <= |LinesOf(evs)|
    ensures LinesOf(evs)[|LinesOf(evs)| - |LifeLines(evs)|..] == LifeLines(evs)
  {
    if evs != [] && !evs[|evs| - 1].Restarted? {
      var before := evs[..|evs| - 1];
      LifeIsSuffix(before);
      if evs[|evs| - 1].Logged? {
        SuffixSnoc(LinesOf(before), LifeLines(before), evs[|evs| - 1].line);
      }
    }
  }

  lemma SuffixSnoc(all: seq<string>, some: seq<string>, line: string)
    requires |some| <= |all| && all[|all| - |some|..] == some
    ensures (all + [line])[|all| - |some|..] == some + [line]
  {
  }

  /** How many calls the processes before it made. */
  function CallsBefore(evs: seq<Event>): nat
  {
    LifeIsSuffix(evs);
    |LinesOf(evs)| - |LifeLines(evs)|
  }

  /** The present process is a run of its own over the files it found. */
  lemma {:induction false} LifeIsRun(env: Env, evs: seq<Event>)
    ensures LogAfter(env, evs) == LogRun(LaterEnv(env, CallsBefore(evs)), FilesAtStart(env, evs), LifeLines(evs))
  {
    if evs != [] && !evs[|evs| - 1].Restarted? {
      var before := evs[..|evs| - 1];
      LifeIsRun(env, before);
      assert CallsBefore(evs) == CallsBefore(before) && FilesAtStart(env, evs) == FilesAtStart(env, before);
      if evs[|evs| - 1].Logged? {
        var later, line := LaterEnv(env, CallsBefore(before)), evs[|evs| - 1].line;
        assert later(|LifeLines(before)|) == env(|LinesOf(before)|);
        LogRunSnoc(later, FilesAtStart(env, before), LifeLines(before), line);
      }
    }
  }
}
