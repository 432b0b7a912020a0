/** The whole way of a pulse: accepted by the firmware, printed on the serial line, framed out of reads of any
    size, logged by mlogger into hourly files, and counted into half hours by powerdb. */
module EndToEnd {
  import opened Text
  import opened LogFiles
  import opened PowerDb
  import opened Pipeline
  import Framer
  import MeterReader
  import MeterTruth
  import MeterLines
  import WaterCommands

  /** The serial output of the firmware: its lines, and what there is of one not yet finished. */
  function SerialStream(prints: seq<MeterReader.Print>, partial: string): string
  {
    Concat(MeterReader.RenderAll(prints)) + partial
  }

  lemma {:induction false} RenderedAre(prints: seq<MeterReader.Print>)
    ensures |MeterReader.RenderAll(prints)| == |prints|
    ensures forall i :: 0 <= i < |prints| ==>
              MeterReader.RenderAll(prints)[i] == MeterReader.Render(prints[i])
  {
    if prints != [] {
      RenderedAre(prints[..|prints| - 1]);
    }
  }

  lemma RenderedLines(prints: seq<MeterReader.Print>)
    requires MeterReader.AllPrintable(prints)
    ensures var ls := MeterReader.RenderAll(prints);
            AllLines(ls) && |ls| == |prints| && forall i :: 0 <= i < |ls| ==> |ls[i]| <= 50
  {
    var ls := MeterReader.RenderAll(prints);
    RenderedAre(prints);
    forall i | 0 <= i < |ls|
      ensures IsLine(ls[i]) && |ls[i]| <= 50
    {
      MeterLines.LinesMean(prints[i]);
      MeterLines.LinesShort(prints[i]);
    }
  }

  /** Framing gives the firmware's lines back, one for one. */
  lemma FramingGivesBack(prints: seq<MeterReader.Print>, partial: string)
    requires MeterReader.AllPrintable(prints) && '\n' !in partial
    ensures Framer.Delivered(SerialStream(prints, partial)) == MeterReader.RenderAll(prints)
  {
    var ls := MeterReader.RenderAll(prints);
    RenderedLines(prints);
    Framer.DeliveredOf(ls, partial);
    Framer.KeptAll(ls);
  }

  /** The pulses printed on the lines stamped within [start, end). */
  function PulsesStamped(env: Env, prints: seq<MeterReader.Print>, start: int, end: int): nat
  {
    if prints == [] then 0
    else
      var n := |prints| - 1;
      PulsesStamped(env, prints[..n], start, end) +
      if prints[n].Pulse? && start <= env(n).now < end then 1 else 0
  }

  function FalsePulses(prints: seq<MeterReader.Print>): nat
  {
    if prints == [] then 0
    else FalsePulses(prints[..|prints| - 1]) + if prints[|prints| - 1].FalsePulse? then 1 else 0
  }

  // ---------- Every line is recorded ----------

  ghost predicate OpensSucceed(env: Env, n: nat)
  {
    forall i :: 0 <= i < n ==> env(i).openOk
  }

  ghost predicate AllShort(lines: seq<string>)
  {
    forall i :: 0 <= i < |lines| ==> |lines[i]| <= MAX_LOGGED
  }

  /** The records are these lines, each with its stamp. */
  ghost predicate RecordsOf(env: Env, records: seq<Record>, lines: seq<string>)
  {
    |records| == |lines| && forall i :: 0 <= i < |lines| ==> records[i] == Record(env(i).now, lines[i])
  }

  lemma {:induction false} AllRecorded(env: Env, evs: seq<Event>)
    requires OpensSucceed(env, |LinesOf(evs)|) && AllShort(LinesOf(evs))
    ensures LogAfter(env, evs).status == Running
    ensures RecordsOf(env, Records(env, evs), LinesOf(evs))
  {
    if evs != [] {
      var before := evs[..|evs| - 1];
      assert LinesOf(before) <= LinesOf(evs);
      AllRecorded(env, before);
      if evs[|evs| - 1].Logged? {
        var k := |LinesOf(before)|;
        assert LinesOf(evs)[k] == evs[|evs| - 1].line;
        StepOutcome(LogAfter(env, before), env(k), LinesOf(evs)[k]);
        OneMoreRecord(env, Records(env, before), LinesOf(before), LinesOf(evs)[k]);
      }
    }
  }

  lemma OneMoreRecord(env: Env, records: seq<Record>, lines: seq<string>, line: string)
    requires RecordsOf(env, records, lines)
    ensures RecordsOf(env, records + [Record(env(|lines|).now, line)], lines + [line])
  {
  }

  /** What powerdb counts of the records is what was printed and stamped in time. */
  lemma {:induction false} RecordedArePrinted(env: Env, records: seq<Record>, prints: seq<MeterReader.Print>,
                                              start: int, end: int)
    requires MeterReader.AllPrintable(prints) && RecordsOf(env, records, MeterReader.RenderAll(prints))
    ensures CountRecords(records, start, end) == PulsesStamped(env, prints, start, end)
  {
    RenderedAre(prints);
    if prints != [] {
      var n := |prints| - 1;
      RenderedAre(prints[..n]);
      RecordedArePrinted(env, records[..n], prints[..n], start, end);
      MeterLines.LinesMean(prints[n]);
    }
  }

  /** What mlogger counts of the records is what was printed. */
  lemma {:induction false} SeenArePrinted(env: Env, records: seq<Record>, prints: seq<MeterReader.Print>)
    requires MeterReader.AllPrintable(prints) && RecordsOf(env, records, MeterReader.RenderAll(prints))
    ensures Seen(records) == |MeterReader.PulseTimes(prints)|
  {
    RenderedAre(prints);
    if prints != [] {
      var n := |prints| - 1;
      RenderedAre(prints[..n]);
      SeenArePrinted(env, records[..n], prints[..n]);
      LineIsSeen(prints[n]);
    }
  }

  lemma LineIsSeen(p: MeterReader.Print)
    requires MeterReader.Printable(p)
    ensures CountsPulse(MeterReader.Render(p)) && |MeterReader.Render(p)| <= MAX_LOGGED <==> p.Pulse?
  {
    MeterLines.LinesMean(p);
    MeterLines.LinesShort(p);
  }

  /** mlogger's three metrics are what the firmware has printed. */
  lemma {:induction false} CountersArePrinted(env: Env, prints: seq<MeterReader.Print>)
    ensures var ls := MeterReader.RenderAll(prints);
            && CountLines(ls, CountsPulse) == |MeterReader.PulseTimes(prints)|
            && CountLines(ls, CountsFalsePulse) == FalsePulses(prints)
            && LastWatts(env, ls) == MeterTruth.LastShown(prints)
  {
    if prints != [] {
      RenderedAre(prints);
      CountersArePrinted(env, prints[..|prints| - 1]);
      MeterLines.LinesMean(prints[|prints| - 1]);
    }
  }

  lemma {:induction false} AllStamped(env: Env, prints: seq<MeterReader.Print>, start: int, end: int)
    requires forall i :: 0 <= i < |prints| && prints[i].Pulse? ==> start <= env(i).now < end
    ensures PulsesStamped(env, prints, start, end) == |MeterReader.PulseTimes(prints)|
  {
    if prints != [] {
      AllStamped(env, prints[..|prints| - 1], start, end);
    }
  }

  lemma {:induction false} RenderedTail(prints: seq<MeterReader.Print>, k: nat)
    requires k <= |prints|
    ensures |MeterReader.RenderAll(prints)| == |prints|
    ensures MeterReader.RenderAll(prints)[k..] == MeterReader.RenderAll(prints[k..])
  {
    RenderedAre(prints);
    RenderedAre(prints[k..]);
  }

  // ---------- From the firmware to the table ----------

  /** A run of the firmware whose output mlogger's processes read, one after another and each from the beginning
      of a line, while powerdb runs at any time: the framed lines are those handed over; one clock, offsets of
      whole half hours, stamps within 64 bits, and files that can be opened. */
  ghost predicate Connected(start: nat, run: seq<MeterReader.Event>, partial: string,
                            env: Env, evs: seq<Event>, off: int)
  {
    && MeterReader.Forward(start, run) && '\n' !in partial
    && LinesOf(evs) == Framer.Delivered(SerialStream(MeterReader.Execute(start, run).prints, partial))
    && off % HALF_HOUR == 0 && InOrder(env, evs)
    && OpensSucceed(env, |LinesOf(evs)|)
    && forall i :: 0 <= i < |LinesOf(evs)| ==> env(i).now < INT64_LIMIT
  }

  /** Then the lines are the firmware's, and every one is recorded. */
  lemma ConnectedRecords(start: nat, run: seq<MeterReader.Event>, partial: string,
                         env: Env, evs: seq<Event>, off: int)
    requires Connected(start, run, partial, env, evs, off)
    ensures var prints := MeterReader.Execute(start, run).prints;
            && Healthy(env, evs, off)
            && MeterReader.AllPrintable(prints) && LinesOf(evs) == MeterReader.RenderAll(prints)
            && LogAfter(env, evs).status == Running
            && RecordsOf(env, Records(env, evs), MeterReader.RenderAll(prints))
  {
    var prints := MeterReader.Execute(start, run).prints;
    MeterReader.RunPrintable(start, run);
    FramingGivesBack(prints, partial);
    RenderedLines(prints);
    assert AllShort(LinesOf(evs));
    AllRecorded(env, evs);
  }

  /** What mlogger's metrics say. */
  ghost predicate Shows(log: Log, prints: seq<MeterReader.Print>)
  {
    && log.counter == |MeterReader.PulseTimes(prints)|
    && log.fpCounter == FalsePulses(prints)
    && log.watts == MeterTruth.LastShown(prints)
  }

  /** What was printed since the present process started. */
  function SinceStart(evs: seq<Event>, prints: seq<MeterReader.Print>): seq<MeterReader.Print>
  {
    if CallsBefore(evs) <= |prints| then prints[CallsBefore(evs)..] else []
  }

  lemma RunShows(env: Env, files: map<int, string>, prints: seq<MeterReader.Print>)
    requires LogRun(env, files, MeterReader.RenderAll(prints)).status == Running
    ensures Shows(LogRun(env, files, MeterReader.RenderAll(prints)), prints)
  {
    CountersCount(env, files, MeterReader.RenderAll(prints));
    CountersArePrinted(env, prints);
  }

  lemma LifeLinesPrinted(evs: seq<Event>, prints: seq<MeterReader.Print>)
    requires LinesOf(evs) == MeterReader.RenderAll(prints)
    ensures LifeLines(evs) == MeterReader.RenderAll(SinceStart(evs, prints))
  {
    LifeIsSuffix(evs);
    RenderedAre(prints);
    RenderedTail(prints, CallsBefore(evs));
  }

  lemma MetricsArePrinted(env: Env, evs: seq<Event>, prints: seq<MeterReader.Print>)
    requires LinesOf(evs) == MeterReader.RenderAll(prints) && LogAfter(env, evs).status == Running
    ensures Shows(LogAfter(env, evs), SinceStart(evs, prints))
  {
    LifeLinesPrinted(evs, prints);
    LifeIsRun(env, evs);
    RunShows(LaterEnv(env, CallsBefore(evs)), FilesAtStart(env, evs), SinceStart(evs, prints));
  }

  /** For every run of the firmware, however long, and every interleaving of mlogger's processes and powerdb on
      its output: mlogger's counters add up to the pulses accepted by the firmware, the metrics of its present
      process are of what was printed since it started, and the table's total is the number of the pulses whose
      lines were stamped in the time the table covers. */
  lemma PulsesReachTheTable(start: nat, run: seq<MeterReader.Event>, partial: string,
                            env: Env, evs: seq<Event>, off: int)
    requires Connected(start, run, partial, env, evs, off)
    ensures LogAfter(env, evs).status == Running && Tiled(RowsAfter(env, evs, off), off)
    ensures TotalCounted(env, evs) == |MeterReader.Execute(start, run).pulses|
    ensures var rows := RowsAfter(env, evs, off);
            TotalWh(rows) == PulsesStamped(env, MeterReader.Execute(start, run).prints,
                                           Sentinel(off), CoveredUntil(rows, off))
  {
    var prints := MeterReader.Execute(start, run).prints;
    var rows := RowsAfter(env, evs, off);
    ConnectedRecords(start, run, partial, env, evs, off);
    MeterReader.WindowIsLastPulses(start, run);
    CountersSeeRecords(env, evs);
    SeenArePrinted(env, Records(env, evs), prints);
    RowsStayTrue(env, evs, off);
    PulsesConserved(env, evs, off);
    RecordedArePrinted(env, Records(env, evs), prints, Sentinel(off), CoveredUntil(rows, off));
  }

  /** Once the table covers the stamps of all pulses, its total is the number of pulses accepted. */
  lemma AllPulsesReachTheTable(start: nat, run: seq<MeterReader.Event>, partial: string,
                               env: Env, evs: seq<Event>, off: int)
    requires Connected(start, run, partial, env, evs, off)
    requires var prints := MeterReader.Execute(start, run).prints;
             forall i :: 0 <= i < |prints| && prints[i].Pulse? ==>
               Sentinel(off) <= env(i).now < CoveredUntil(RowsAfter(env, evs, off), off)
    ensures TotalWh(RowsAfter(env, evs, off)) == |MeterReader.Execute(start, run).pulses|
  {
    PulsesReachTheTable(start, run, partial, env, evs, off);
    MeterReader.WindowIsLastPulses(start, run);
    AllStamped(env, MeterReader.Execute(start, run).prints, Sentinel(off), CoveredUntil(RowsAfter(env, evs, off), off));
  }

  /** The metrics of mlogger's present process are of what the firmware printed since that process started. */
  lemma MetricsAreOfFirmware(start: nat, run: seq<MeterReader.Event>, partial: string,
                             env: Env, evs: seq<Event>, off: int)
    requires Connected(start, run, partial, env, evs, off)
    ensures Shows(LogAfter(env, evs), SinceStart(evs, MeterReader.Execute(start, run).prints))
  {
    ConnectedRecords(start, run, partial, env, evs, off);
    MetricsArePrinted(env, evs, MeterReader.Execute(start, run).prints);
  }

  /** Once the present process has seen an LDR line, its watts are what the firmware had to say last: the average
      power over the latest window, or what becomes of it (MeterTruth). */
  lemma WattsAreTold(start: nat, run: seq<MeterReader.Event>, partial: string,
                     env: Env, evs: seq<Event>, off: int)
    requires Connected(start, run, partial, env, evs, off)
    requires var prints := MeterReader.Execute(start, run).prints;
             exists i :: CallsBefore(evs) <= i < |prints| && prints[i].Ldr?
    ensures LogAfter(env, evs).watts == MeterTruth.LastShown(MeterTruth.Lines(start, run))
  {
    var prints := MeterReader.Execute(start, run).prints;
    MetricsAreOfFirmware(start, run, partial, env, evs, off);
    MeterTruth.LastShownSuffix(prints, CallsBefore(evs));
    MeterTruth.LastShownMetered(prints);
    MeterTruth.FirmwareTells(start, run);
  }

  // ---------- From the signals to the relay ----------

  ghost predicate OnlyCommands(sent: string)
  {
    forall c :: c in sent ==> c == 'w' || c == 'W'
  }

  lemma {:induction false} CommandsAreSent(evs: seq<WaterCommands.Event>)
    ensures OnlyCommands(WaterCommands.Run(evs).sent)
  {
    if evs != [] {
      CommandsAreSent(evs[..|evs| - 1]);
    }
  }

  /** What mlogger has written last is what the firmware obeys. */
  lemma LastCommandCounts(water: bool, evs: seq<WaterCommands.Event>)
    ensures var s := WaterCommands.Run(evs);
            MeterReader.Commanded(water, s.sent) ==
            if WaterCommands.InForce(s) == None then water else WaterCommands.InForce(s) == Some('W')
  {
    CommandsAreSent(evs);
    LastIsObeyed(water, WaterCommands.Run(evs).sent);
  }

  lemma LastIsObeyed(water: bool, sent: string)
    requires OnlyCommands(sent)
    ensures MeterReader.Commanded(water, sent) == if sent == "" then water else sent[|sent| - 1] == 'W'
  {
    assert sent != "" ==> sent[|sent| - 1] in sent;
  }

  /** If the last signal was SIGUSR2, mlogger has drained its flags, and the firmware has read, in whatever
      pieces, what mlogger has written, then the relay is off. */
  lemma RelayEndsOff(evs: seq<WaterCommands.Event>, start: nat, run: seq<MeterReader.Event>)
    requires WaterCommands.LastSignal(evs) == Some(WaterCommands.Usr2)
    requires WaterCommands.Drained(WaterCommands.Run(evs))
    requires MeterReader.CommandsOf(run) == WaterCommands.Run(evs).sent
    ensures !MeterReader.Execute(start, run).m.water
  {
    WaterCommands.OffNeverLost(evs);
    LastCommandCounts(false, evs);
    MeterReader.RelayFollows(start, run);
  }

  /** A SIGUSR1 with no signal after it ends with the relay on exactly if it did not come while an off was
      pending or being carried out, and with the relay off otherwise. */
  lemma RelayEndsOnIff(evs: seq<WaterCommands.Event>, start: nat, run: seq<MeterReader.Event>)
    requires var s := WaterCommands.Run(evs + [WaterCommands.Arrives(WaterCommands.Usr1)]);
             MeterReader.CommandsOf(run) == WaterCommands.Undisturbed(s, WaterCommands.Remaining(s)).sent
    ensures MeterReader.Execute(start, run).m.water <==>
            !WaterCommands.Run(evs).off && WaterCommands.Run(evs).pc != WaterCommands.ClearOnToo
  {
    var signalled := evs + [WaterCommands.Arrives(WaterCommands.Usr1)];
    var s := WaterCommands.Run(signalled);
    var n := WaterCommands.Remaining(s);
    WaterCommands.OnPrevailsIff(evs);
    MeterReader.RelayFollows(start, run);
    UndisturbedIsRun(signalled, n);
    LastCommandCounts(false, signalled + Steps(n));
  }

  function Steps(n: nat): seq<WaterCommands.Event>
  {
    if n == 0 then [] else [WaterCommands.Advances] + Steps(n - 1)
  }

  lemma {:induction false} UndisturbedIsRun(evs: seq<WaterCommands.Event>, n: nat)
    ensures WaterCommands.Run(evs + Steps(n)) == WaterCommands.Undisturbed(WaterCommands.Run(evs), n)
    decreases n
  {
    if n == 0 {
      assert evs + [] == evs;
    } else {
      WaterCommands.RunSnoc(evs, WaterCommands.Advances);
      UndisturbedIsRun(evs + [WaterCommands.Advances], n - 1);
      assert evs + Steps(n) == evs + [WaterCommands.Advances] + Steps(n - 1);
    }
  }
}
