/** The firmware of MeterReader/MeterReader.ino: pulse debouncing, the power estimate and the lines it prints.
    `unsigned int` is 16 bits wide and `unsigned long` 32; the quotient is real and then truncated. */
module MeterReader {
  import opened Text

  const U16: nat := 0x1_0000
  const U32: nat := 0x1_0000_0000
  const MS_PER_HOUR := 3600000
  const DEBOUNCE_MS := 241
  const MAX_WATTS := 14937

  // ---------- What is printed ----------

  datatype Print =
    | Hi
    | Water(level: bool)
    | Ldr(now: nat, watts: nat)
    | FalsePulse(now: nat, delta: nat, last: nat)
    | Pulse(now: nat, first: nat)

  function Render(p: Print): string
  {
    match p
    case Hi => "Hi\r\n"
    case Water(level) => "WATER " + (if level then "1" else "0") + "\r\n"
    case Ldr(now, watts) => Itoa(now) + " LDR " + Itoa(watts) + "\r\n"
    case FalsePulse(now, delta, last) => Itoa(now) + " FP_PULSE " + Itoa(delta) + " " + Itoa(last) + "\r\n"
    case Pulse(now, first) => Itoa(now) + " PULSE " + Itoa(first) + "\r\n"
  }

  function RenderAll(ps: seq<Print>): seq<string>
  {
    if ps == [] then [] else RenderAll(ps[..|ps| - 1]) + [Render(ps[|ps| - 1])]
  }

  /** The times of the pulses reported. */
  function PulseTimes(ps: seq<Print>): seq<nat>
  {
    if ps == [] then []
    else PulseTimes(ps[..|ps| - 1]) + if ps[|ps| - 1].Pulse? then [ps[|ps| - 1].now] else []
  }

  lemma {:induction false} PulseTimesAppend(a: seq<Print>, b: seq<Print>)
    ensures PulseTimes(a + b) == PulseTimes(a) + PulseTimes(b)
  {
    if b == [] {
      assert a + b == a;
    } else {
      PulseTimesAppend(a, b[..|b| - 1]);
      assert (a + b)[..|a + b| - 1] == a + b[..|b| - 1];
    }
  }

  // ---------- State ----------

  datatype Meter = Meter(count: nat, reportTime: nat, first: nat, last: nat, pulse: bool,
                         delta: nat, watts: nat, water: bool)

  /** a - b on unsigned long. */
  function Since(a: nat, b: nat): nat
  {
    (a as int - b as int) % U32
  }

  function Setup(now: nat): Meter
  {
    Meter(0, now, 0, 0, false, 0, 0, false)
  }

  function Isr(m: Meter): Meter
  {
    m.(pulse := true)
  }

  // ---------- One pass of loop(), in its three parts ----------

  function Stale(m: Meter, now: nat): Meter
  {
    if Since(now, m.last) > 60000 then m.(watts := 0) else m
  }

  /** Watts from n pulses of one watt-hour in d milliseconds. */
  function Estimate(n: nat, d: nat): nat
    requires d > 0
  {
    n * MS_PER_HOUR / d
  }

  /** w is the average power of n watt-hours in d milliseconds, rounded down to whole watts. */
  ghost predicate IsPower(w: nat, n: nat, d: nat)
  {
    var hours := d as real / 3600000.0;
    w as real * hours <= n as real < (w + 1) as real * hours
  }

  lemma EstimateIsPower(n: nat, d: nat)
    requires d > 0
    ensures IsPower(Estimate(n, d), n, d)
  {
    var q := Estimate(n, d);
    assert q * d <= n * MS_PER_HOUR < (q + 1) * d;
    assert (q * d) as real / 3600000.0 <= n as real < ((q + 1) * d) as real / 3600000.0;
  }

  function ReportDue(m: Meter, now: nat): bool
  {
    Since(now, m.reportTime) > 5000
  }

  function Reported(m: Meter, now: nat): Meter
  {
    if !ReportDue(m, now) then m
    else
      var d := Since(m.last, m.first);
      if d != 0 && m.count != 0 then
        m.(delta := d, watts := Estimate(m.count - 1, d) % U16, count := 0, reportTime := now)
      else m.(delta := d, reportTime := now)
  }

  /** A pulse is flagged and not refused as a false one. */
  predicate Accepts(m: Meter, now: nat)
  {
    m.pulse && Since(now, m.last) > 240
  }

  function Pulsed(m: Meter, now: nat): Meter
  {
    if !m.pulse then m
    else if Since(now, m.last) <= 240 then m.(pulse := false)
    else
      var c := (m.count + 1) % U16;
      m.(count := c, last := now, first := if c == 1 then now else m.first, pulse := false)
  }

  function PulsePrint(m: Meter, now: nat): seq<Print>
  {
    if !m.pulse then []
    else if Since(now, m.last) <= 240 then [FalsePulse(now, m.delta, m.last)]
    else [Pulse(now, Pulsed(m, now).first)]
  }

  function Commanded(water: bool, cmds: string): bool
  {
    if cmds == "" then water
    else
      var c := cmds[|cmds| - 1];
      if c == 'W' then true else if c == 'w' then false else Commanded(water, cmds[..|cmds| - 1])
  }

  /** One WATER line per 'S', and one more at the end if the relay was switched. */
  function StatusPrints(water: bool, cmds: string): seq<Print>
  {
    if cmds == "" then []
    else
      StatusPrints(water, cmds[..|cmds| - 1]) +
      if cmds[|cmds| - 1] == 'S' then [Water(Commanded(water, cmds))] else []
  }

  predicate Switches(cmds: string)
  {
    'w' in cmds || 'W' in cmds
  }

  function AfterLoop(m: Meter, now: nat, cmds: string): Meter
  {
    Pulsed(Reported(Stale(m, now), now), now).(water := Commanded(m.water, cmds))
  }

  function ReportPrint(m: Meter, now: nat): seq<Print>
  {
    if ReportDue(m, now) then [Ldr(now, Reported(m, now).watts)] else []
  }

  function SwitchPrint(water: bool, cmds: string): seq<Print>
  {
    if Switches(cmds) then [Water(Commanded(water, cmds))] else []
  }

  function LoopPrints(m: Meter, now: nat, cmds: string): seq<Print>
  {
    var s := Stale(m, now);
    ReportPrint(s, now) + PulsePrint(Reported(s, now), now) + StatusPrints(m.water, cmds) + SwitchPrint(m.water, cmds)
  }

  lemma AppendParts(serial: seq<Print>, a: seq<Print>, b: seq<Print>, c: seq<Print>, d: seq<Print>)
    ensures serial + (a + b + c + d) == serial + a + b + c + d
  {
  }

  class Firmware {
    var ldrCount: nat
    var reportTime: nat
    var ldrFirstPulse: nat
    var ldrLastPulse: nat
    var ldrPulse: bool
    var ldrDelta: nat
    var ldrWatts: nat
    var waterPin: bool
    var serial: seq<Print>

    function State(): Meter
      reads this
    {
      Meter(ldrCount, reportTime, ldrFirstPulse, ldrLastPulse, ldrPulse, ldrDelta, ldrWatts, waterPin)
    }

    constructor (now: nat)
      ensures State() == Setup(now) && serial == [Hi]
    {
      ldrCount, reportTime, ldrFirstPulse, ldrLastPulse := 0, now, 0, 0;
      ldrPulse, ldrDelta, ldrWatts, waterPin := false, 0, 0, false;
      serial := [Hi];
    }

    method LdrIsr()
      modifies `ldrPulse
      ensures State() == Isr(old(State()))
    {
      ldrPulse := true;
    }

    method Status()
      modifies `serial
      ensures serial == old(serial) + [Water(waterPin)]
    {
      serial := serial + [Water(waterPin)];
    }

    method Report(now: nat)
      modifies this
      ensures State() == Reported(old(State()), now)
      ensures serial == old(serial) + ReportPrint(old(State()), now)
    {
      if Since(now, reportTime) > 5000 {
        ldrDelta := Since(ldrLastPulse, ldrFirstPulse);
        if ldrDelta != 0 && ldrCount != 0 {
          ldrWatts := Estimate(ldrCount - 1, ldrDelta) % U16;
          ldrCount := 0;
        }
        serial := serial + [Ldr(now, ldrWatts)];
        reportTime := now;
      }
    }

    method Debounce(now: nat)
      modifies this
      ensures State() == Pulsed(old(State()), now)
      ensures serial == old(serial) + PulsePrint(old(State()), now)
    {
      if ldrPulse {
        if Since(now, ldrLastPulse) <= 240 {
          serial := serial + [FalsePulse(now, ldrDelta, ldrLastPulse)];
        } else {
          ldrCount := (ldrCount + 1) % U16;
          ldrLastPulse := now;
          if ldrCount == 1 {
            ldrFirstPulse := ldrLastPulse;
          }
          serial := serial + [Pulse(now, ldrFirstPulse)];
        }
        ldrPulse := false;
      }
    }

    method Commands(cmds: string)
      modifies `waterPin, `serial
      ensures waterPin == Commanded(old(waterPin), cmds)
      ensures serial == old(serial) + StatusPrints(old(waterPin), cmds)
                        + SwitchPrint(old(waterPin), cmds)
    {
      var didWater := false;
      for i := 0 to |cmds|
        invariant waterPin == Commanded(old(waterPin), cmds[..i])
        invariant serial == old(serial) + StatusPrints(old(waterPin), cmds[..i])
        invariant didWater == Switches(cmds[..i])
      {
        assert cmds[..i + 1][..i] == cmds[..i];
        assert cmds[..i + 1] == cmds[..i] + [cmds[i]];
        match cmds[i] {
          case 'S' =>
            Status();
          case 'w' =>
            waterPin := false;
            didWater := true;
          case 'W' =>
            waterPin := true;
            didWater := true;
          case _ =>
        }
      }
      assert cmds[..|cmds|] == cmds;
      if didWater {
        Status();
      }
    }

    method Loop(now: nat, cmds: string)
      modifies this
      ensures State() == AfterLoop(old(State()), now, cmds)
      ensures serial == old(serial) + LoopPrints(old(State()), now, cmds)
    {
      if Since(now, ldrLastPulse) > 60000 {
        ldrWatts := 0;
      }
      Report(now);
      Debounce(now);
      Commands(cmds);
      ghost var s := Stale(old(State()), now);
      AppendParts(old(serial), ReportPrint(s, now), PulsePrint(Reported(s, now), now),
                  StatusPrints(s.water, cmds), SwitchPrint(s.water, cmds));
    }
  }

  // ---------- Runs ----------

  datatype Event = Edge | Pass(time: nat, cmds: string)

  /** `time`, `reported` (when the last report was made) and `pulses` (when the pulses so far were accepted)
      are true times since power-on; all that the firmware sees of them is millis(). */
  datatype Run = Run(m: Meter, prints: seq<Print>, time: nat, reported: nat, pulses: seq<nat>)

  /** The 32-bit millisecond clock, which wraps after 49.7 days. */
  function Millis(time: nat): nat
  {
    time % U32
  }

  function AfterPass(r: Run, time: nat, cmds: string): Run
  {
    var now := Millis(time);
    Run(AfterLoop(r.m, now, cmds),
        r.prints + LoopPrints(r.m, now, cmds),
        time,
        if ReportDue(r.m, now) then time else r.reported,
        if Accepts(r.m, now) then r.pulses + [time] else r.pulses)
  }

  function After(r: Run, e: Event): Run
  {
    match e
    case Edge => r.(m := Isr(r.m))
    case Pass(time, cmds) => AfterPass(r, time, cmds)
  }

  function Execute(start: nat, evs: seq<Event>): Run
  {
    if evs == [] then Run(Setup(Millis(start)), [Hi], start, start, [])
    else
      var r := Execute(start, evs[..|evs| - 1]);
      After(r, evs[|evs| - 1])
  }

  /** Time goes on. */
  predicate Forward(start: nat, evs: seq<Event>)
  {
    if evs == [] then true
    else
      var e := evs[|evs| - 1];
      && Forward(start, evs[..|evs| - 1])
      && (e.Pass? ==> Execute(start, evs[..|evs| - 1]).time <= e.time)
  }

  // ---------- The relay over a run ----------

  /** The bytes read from the serial port. */
  function CommandsOf(evs: seq<Event>): string
  {
    if evs == [] then ""
    else
      match evs[|evs| - 1]
      case Edge => CommandsOf(evs[..|evs| - 1])
      case Pass(_, cmds) => CommandsOf(evs[..|evs| - 1]) + cmds
  }

  lemma {:induction false} CommandedAppend(water: bool, a: string, b: string)
    ensures Commanded(water, a + b) == Commanded(Commanded(water, a), b)
  {
    if b == "" {
      assert a + b == a;
    } else {
      CommandedAppend(water, a, b[..|b| - 1]);
      assert (a + b)[..|a + b| - 1] == a + b[..|b| - 1];
    }
  }

  /** The relay is where the bytes have put it, in however many pieces they have come. */
  lemma {:induction false} RelayFollows(start: nat, evs: seq<Event>)
    ensures Execute(start, evs).m.water == Commanded(false, CommandsOf(evs))
  {
    if evs != [] {
      RelayFollows(start, evs[..|evs| - 1]);
      match evs[|evs| - 1]
      case Edge =>
      case Pass(_, cmds) => CommandedAppend(false, CommandsOf(evs[..|evs| - 1]), cmds);
    }
  }

  // ---------- What is printed over a run ----------

  /** The numbers fit their types. */
  ghost predicate Fits(m: Meter)
  {
    && m.first < U32 && m.last < U32 && m.reportTime < U32 && m.delta < U32
    && m.watts < U16 && m.count < U16
  }

  predicate Printable(p: Print)
  {
    match p
    case Hi => true
    case Water(_) => true
    case Ldr(now, watts) => now < U32 && watts < U16
    case FalsePulse(now, delta, last) => now < U32 && delta < U32 && last < U32
    case Pulse(now, first) => now < U32 && first < U32
  }

  ghost predicate AllPrintable(ps: seq<Print>)
  {
    forall i :: 0 <= i < |ps| ==> Printable(ps[i])
  }

  lemma PrintableAppend(a: seq<Print>, b: seq<Print>)
    requires AllPrintable(a) && AllPrintable(b)
    ensures AllPrintable(a + b)
  {
  }

  lemma {:induction false} StatusPrintable(water: bool, cmds: string)
    ensures AllPrintable(StatusPrints(water, cmds)) && PulseTimes(StatusPrints(water, cmds)) == []
  {
    if cmds != "" {
      var a := StatusPrints(water, cmds[..|cmds| - 1]);
      var b := if cmds[|cmds| - 1] == 'S' then [Water(Commanded(water, cmds))] else [];
      StatusPrintable(water, cmds[..|cmds| - 1]);
      PrintableAppend(a, b);
      PulseTimesAppend(a, b);
    }
  }

  lemma PassFits(m: Meter, now: nat, cmds: string)
    requires Fits(m) && now < U32
    ensures Fits(Reported(Stale(m, now), now)) && Fits(AfterLoop(m, now, cmds))
  {
  }

  lemma PassPrintable(m: Meter, now: nat, cmds: string)
    requires Fits(m) && now < U32
    ensures AllPrintable(LoopPrints(m, now, cmds))
  {
    var s := Stale(m, now);
    var a, b, c := ReportPrint(s, now), PulsePrint(Reported(s, now), now), StatusPrints(m.water, cmds);
    PassFits(m, now, cmds);
    StatusPrintable(m.water, cmds);
    PrintableAppend(a, b);
    PrintableAppend(a + b, c);
    PrintableAppend(a + b + c, SwitchPrint(m.water, cmds));
  }

  /** On any run at all, wraps and jumps of the clock included, every number printed fits its type. */
  lemma {:induction false} RunPrintable(start: nat, evs: seq<Event>)
    ensures AllPrintable(Execute(start, evs).prints) && Fits(Execute(start, evs).m)
  {
    if evs != [] {
      var r := Execute(start, evs[..|evs| - 1]);
      RunPrintable(start, evs[..|evs| - 1]);
      match evs[|evs| - 1]
      case Edge =>
      case Pass(time, cmds) =>
        PassFits(r.m, Millis(time), cmds);
        PassPrintable(r.m, Millis(time), cmds);
        PrintableAppend(r.prints, LoopPrints(r.m, Millis(time), cmds));
    }
  }

  /** What one pass reports of the pulses. */
  lemma PassPulses(m: Meter, now: nat, cmds: string)
    ensures PulseTimes(LoopPrints(m, now, cmds)) == if Accepts(m, now) then [now] else []
  {
    var s := Stale(m, now);
    StatusPrintable(m.water, cmds);
    PulseTimesOfParts(ReportPrint(s, now), PulsePrint(Reported(s, now), now),
                      StatusPrints(m.water, cmds), SwitchPrint(m.water, cmds));
    NoPulses(ReportPrint(s, now));
    NoPulses(SwitchPrint(m.water, cmds));
    DebouncedPulse(Reported(s, now), now);
    ReportKeepsPulse(m, now);
  }

  lemma ReportKeepsPulse(m: Meter, now: nat)
    ensures Accepts(Reported(Stale(m, now), now), now) <==> Accepts(m, now)
  {
  }

  lemma DebouncedPulse(m: Meter, now: nat)
    ensures PulseTimes(PulsePrint(m, now)) == if Accepts(m, now) then [now] else []
  {
    OnePulse(PulsePrint(m, now));
  }

  lemma PulseTimesOfParts(a: seq<Print>, b: seq<Print>, c: seq<Print>, d: seq<Print>)
    ensures PulseTimes(a + b + c + d) == PulseTimes(a) + PulseTimes(b) + PulseTimes(c) + PulseTimes(d)
  {
    PulseTimesAppend(a, b);
    PulseTimesAppend(a + b, c);
    PulseTimesAppend(a + b + c, d);
  }

  lemma NoPulses(ps: seq<Print>)
    requires |ps| <= 1 && (ps != [] ==> !ps[0].Pulse?)
    ensures PulseTimes(ps) == []
  {
    assert ps != [] ==> ps[..0] == [];
  }

  lemma OnePulse(ps: seq<Print>)
    requires |ps| <= 1
    ensures PulseTimes(ps) == if ps != [] && ps[0].Pulse? then [ps[0].now] else []
  {
    assert ps != [] ==> ps[..0] == [];
  }

  // ---------- The window of pulses ----------

  function LastPulse(pulses: seq<nat>): nat
  {
    if pulses == [] then 0 else pulses[|pulses| - 1]
  }

  /** Accepted pulses are at least 241 ms apart. */
  ghost predicate Apart(ts: seq<nat>)
  {
    forall i :: 0 < i < |ts| ==> ts[i - 1] + DEBOUNCE_MS <= ts[i]
  }

  /** The pulses that make up the next estimate. */
  function Window(r: Run): seq<nat>
  {
    if r.m.count <= |r.pulses| then r.pulses[|r.pulses| - r.m.count..] else []
  }

  function Span(window: seq<nat>): int
  {
    if window == [] then 0 else window[|window| - 1] as int - window[0] as int
  }

  /** The firmware's variables describe the pulses accepted last, as far as 32 bits can: the latest one, and
      while a window is open the `count`-th latest. */
  ghost predicate Tracks(r: Run)
  {
    && r.m.count <= |r.pulses| && r.m.count < U16
    && r.m.reportTime == Millis(r.reported) && r.reported <= r.time
    && r.m.last == Millis(LastPulse(r.pulses)) && LastPulse(r.pulses) <= r.time
    && (r.m.count > 0 ==> r.m.first == Millis(r.pulses[|r.pulses| - r.m.count]))
    && Apart(r.pulses)
  }

  /** Subtraction of two clock readings measures the time between them modulo 2^32. */
  lemma SinceMillis(a: nat, b: nat)
    requires b <= a
    ensures Since(Millis(a), Millis(b)) == (a - b) % U32 <= a - b
    ensures a - b < U32 ==> Since(Millis(a), Millis(b)) == a - b
  {
  }

  lemma {:induction false} SpanAtLeast(ts: seq<nat>)
    requires Apart(ts) && ts != []
    ensures Span(ts) >= DEBOUNCE_MS * (|ts| - 1)
  {
    if |ts| > 1 {
      var init := ts[..|ts| - 1];
      SpanAtLeast(init);
      assert ts[|ts| - 2] + DEBOUNCE_MS <= ts[|ts| - 1];
    }
  }

  /** The divisor of an estimate is the true time between first and last pulse of the window, modulo 2^32. */
  lemma WindowMeasured(r: Run)
    requires Tracks(r) && r.m.count > 0
    ensures var w := Window(r);
            && |w| == r.m.count && Apart(w)
            && Span(w) >= DEBOUNCE_MS * (r.m.count - 1)
            && Since(r.m.last, r.m.first) == Span(w) % U32
  {
    var w := Window(r);
    assert forall i :: 0 <= i < |w| ==> w[i] == r.pulses[|r.pulses| - r.m.count + i];
    SpanAtLeast(w);
    SinceMillis(w[|w| - 1], w[0]);
  }

  /** At a report a window of two pulses or more is closed, unless its span is a multiple of 2^32 ms; nothing
      else is.  The estimate is made of the energy and the span modulo 2^32. */
  lemma ReportCloses(r: Run, time: nat)
    requires Tracks(r) && ReportDue(r.m, Millis(time))
    ensures var w, m := Window(r), Reported(r.m, Millis(time));
            if Span(w) % U32 != 0 then
              && r.m.count >= 2 && m.count == 0
              && m.watts == Estimate(r.m.count - 1, Span(w) % U32) % U16
            else
              m.count == r.m.count && m.watts == r.m.watts
  {
    if r.m.count > 0 {
      WindowMeasured(r);
    }
  }

  lemma BriefSpan(window: seq<nat>)
    requires Apart(window) && |window| >= 2 && Span(window) < U32
    ensures DEBOUNCE_MS * (|window| - 1) <= Span(window) == Span(window) % U32
    ensures 0 < Span(window)
  {
    SpanAtLeast(window);
  }

  lemma BriefEstimate(window: seq<nat>)
    requires Apart(window) && |window| >= 2 && 0 < Span(window) < U32
    ensures var e := Estimate(|window| - 1, Span(window));
            e <= MAX_WATTS && IsPower(e, |window| - 1, Span(window))
  {
    BriefSpan(window);
    OverestimateIff(window);
    EstimateIsPower(|window| - 1, Span(window));
  }

  lemma BriefCloses(r: Run, time: nat)
    requires Tracks(r) && ReportDue(r.m, Millis(time)) && Span(Window(r)) < U32
    ensures Reported(r.m, Millis(time)).count <= 1
    ensures r.m.count >= 2 ==> Reported(r.m, Millis(time)).count == 0
  {
    ReportCloses(r, time);
    if r.m.count >= 2 {
      WindowMeasured(r);
      BriefSpan(Window(r));
    }
  }

  /** So below 2^32 ms it always closes, and the estimate is the average power over the window, rounded down to
      whole watts. */
  lemma BriefWindowCloses(r: Run, time: nat)
    requires Tracks(r) && ReportDue(r.m, Millis(time)) && r.m.count >= 2 && Span(Window(r)) < U32
    ensures var d, m := Span(Window(r)), Reported(r.m, Millis(time));
            && d >= DEBOUNCE_MS * (r.m.count - 1)
            && m.count == 0 && m.watts <= MAX_WATTS
            && IsPower(m.watts, r.m.count - 1, d)
  {
    var w := Window(r);
    WindowMeasured(r);
    BriefSpan(w);
    BriefEstimate(w);
    ReportCloses(r, time);
    SmallWatts(Estimate(|w| - 1, Span(w)));
  }

  lemma SmallWatts(w: nat)
    requires w <= MAX_WATTS
    ensures w % U16 == w
  {
  }

  /** A pulse is accepted exactly when the time since the last accepted one is 241 ms or more modulo 2^32;
      what is accepted is 241 ms or more later in any case. */
  lemma PulseAccepted(r: Run, time: nat)
    requires Tracks(r) && r.time <= time
    ensures Accepts(r.m, Millis(time)) <==> r.m.pulse && (time - LastPulse(r.pulses)) % U32 >= DEBOUNCE_MS
    ensures Accepts(r.m, Millis(time)) ==> time - LastPulse(r.pulses) >= DEBOUNCE_MS
    ensures time - LastPulse(r.pulses) < U32 ==>
              (Accepts(r.m, Millis(time)) <==> r.m.pulse && time - LastPulse(r.pulses) >= DEBOUNCE_MS)
  {
    SinceMillis(time, LastPulse(r.pulses));
  }

  lemma SpacedSnoc(ts: seq<nat>, t: nat)
    requires Apart(ts) && (ts != [] ==> LastPulse(ts) + DEBOUNCE_MS <= t)
    ensures Apart(ts + [t])
  {
  }

  lemma ReportTracks(r: Run, time: nat)
    requires Tracks(r) && r.time <= time
    ensures var now := Millis(time);
            var m := Reported(Stale(r.m, now), now);
            && m.pulse == r.m.pulse && m.last == r.m.last
            && Tracks(r.(m := m, time := time, reported := if ReportDue(r.m, now) then time else r.reported))
  {
  }

  lemma PulseTracks(r: Run, now: nat)
    requires Tracks(r) && now == Millis(r.time)
    ensures Tracks(r.(m := Pulsed(r.m, now),
                      pulses := if Accepts(r.m, now) then r.pulses + [r.time] else r.pulses))
  {
    var c, ts := r.m.count, r.pulses + [r.time];
    if Accepts(r.m, now) {
      PulseAccepted(r, r.time);
      SpacedSnoc(r.pulses, r.time);
      assert c > 0 ==> ts[|ts| - (c + 1)] == r.pulses[|r.pulses| - c];
    }
  }

  lemma WaterAside(r: Run, water: bool, prints: seq<Print>)
    requires Tracks(r)
    ensures Tracks(r.(m := r.m.(water := water), prints := prints))
  {
  }

  lemma PassTracks(r: Run, time: nat, cmds: string)
    requires Tracks(r) && r.time <= time
    ensures Tracks(AfterPass(r, time, cmds))
  {
    var now := Millis(time);
    var m := Reported(Stale(r.m, now), now);
    var s := r.(m := m, time := time, reported := if ReportDue(r.m, now) then time else r.reported);
    var p := s.(m := Pulsed(m, now), pulses := if Accepts(m, now) then s.pulses + [time] else s.pulses);
    ReportTracks(r, time);
    PulseTracks(s, now);
    WaterAside(p, Commanded(r.m.water, cmds), AfterPass(r, time, cmds).prints);
    assert AfterPass(r, time, cmds) ==
           p.(m := p.m.(water := Commanded(r.m.water, cmds)), prints := AfterPass(r, time, cmds).prints);
  }

  /** The times on the PULSE lines are those of the pulses, as millis() shows them. */
  ghost predicate Shows(printed: seq<nat>, pulses: seq<nat>)
  {
    |printed| == |pulses| && forall i :: 0 <= i < |pulses| ==> printed[i] == Millis(pulses[i])
  }

  lemma ShowsSnoc(printed: seq<nat>, pulses: seq<nat>, t: nat)
    requires Shows(printed, pulses)
    ensures Shows(printed + [Millis(t)], pulses + [t])
  {
  }

  /** The pulses printed are the pulses accepted, and whatever the uptime the variables track them: an open
      window is the last `count` pulses, pairwise at least 241 ms apart. */
  lemma {:induction false} WindowIsLastPulses(start: nat, evs: seq<Event>)
    requires Forward(start, evs)
    ensures var r := Execute(start, evs);
            Tracks(r) && Shows(PulseTimes(r.prints), r.pulses)
  {
    if evs == [] {
      NothingPrinted();
    } else {
      WindowIsLastPulses(start, evs[..|evs| - 1]);
      StepTracks(Execute(start, evs[..|evs| - 1]), evs[|evs| - 1]);
    }
  }

  lemma NothingPrinted()
    ensures PulseTimes([Hi]) == []
  {
    assert [Hi][..0] == [];
  }

  lemma StepTracks(r: Run, e: Event)
    requires Tracks(r) && Shows(PulseTimes(r.prints), r.pulses) && (e.Pass? ==> r.time <= e.time)
    ensures Tracks(After(r, e)) && Shows(PulseTimes(After(r, e).prints), After(r, e).pulses)
  {
    match e
    case Edge =>
    case Pass(time, cmds) =>
      PassTracks(r, time, cmds);
      PassShows(r, time, cmds);
  }

  lemma PassShows(r: Run, time: nat, cmds: string)
    requires Shows(PulseTimes(r.prints), r.pulses)
    ensures Shows(PulseTimes(AfterPass(r, time, cmds).prints), AfterPass(r, time, cmds).pulses)
  {
    PassPulses(r.m, Millis(time), cmds);
    PulseTimesAppend(r.prints, LoopPrints(r.m, Millis(time), cmds));
    ShowsSnoc(PulseTimes(r.prints), r.pulses, time);
    assert PulseTimes(r.prints) + [] == PulseTimes(r.prints);
  }

  // ---------- The bound on the estimate ----------

  /** The span of a window appears too short by a multiple of 2^32 ms, and so short that the bound is broken. */
  predicate Misleading(window: seq<nat>)
  {
    && Span(window) >= U32
    && 0 < (MAX_WATTS + 1) * (Span(window) % U32) <= MS_PER_HOUR * (|window| - 1)
  }

  lemma MulMono(x: int, y: int, d: int)
    requires d > 0
    ensures x >= y <==> x * d >= y * d
  {
  }

  lemma EstimateAbove(n: nat, d: nat, w: nat)
    requires d > 0
    ensures Estimate(n, d) >= w <==> n * MS_PER_HOUR >= w * d
  {
    var q := Estimate(n, d);
    assert q * d <= n * MS_PER_HOUR < (q + 1) * d;
    MulMono(q, w, d);
    MulMono(w, q + 1, d);
  }

  /** An estimate exceeds 14937 W exactly when its window is misleading. */
  lemma OverestimateIff(window: seq<nat>)
    requires window != [] && Apart(window) && Span(window) % U32 != 0
    ensures Estimate(|window| - 1, Span(window) % U32) > MAX_WATTS <==> Misleading(window)
  {
    var n, d := |window| - 1, Span(window) % U32;
    SpanAtLeast(window);
    EstimateAbove(n, d, MAX_WATTS + 1);
    assert n * MS_PER_HOUR <= n * 3600058 == (MAX_WATTS + 1) * (DEBOUNCE_MS * n);
  }

  /** The pass makes an estimate. */
  predicate Estimates(r: Run, time: nat)
  {
    ReportDue(r.m, Millis(time)) && r.m.count != 0 && Since(r.m.last, r.m.first) != 0
  }

  /** All estimates made over a run are within the bound. */
  ghost predicate EstimatesBounded(start: nat, evs: seq<Event>)
  {
    evs != [] ==>
      var r, e := Execute(start, evs[..|evs| - 1]), evs[|evs| - 1];
      && EstimatesBounded(start, evs[..|evs| - 1])
      && (e.Pass? && Estimates(r, e.time) ==> Estimate(r.m.count - 1, Since(r.m.last, r.m.first)) <= MAX_WATTS)
  }

  /** No report of a run meets a misleading window. */
  ghost predicate NeverMisled(start: nat, evs: seq<Event>)
  {
    evs != [] ==>
      var r, e := Execute(start, evs[..|evs| - 1]), evs[|evs| - 1];
      && NeverMisled(start, evs[..|evs| - 1])
      && (e.Pass? && ReportDue(r.m, Millis(e.time)) ==> !Misleading(Window(r)))
  }

  /** Over every run, wraps of the clock included: the estimates stay within 14937 W if and only if no report
      meets a misleading window. */
  lemma {:induction false} PowerBoundIff(start: nat, evs: seq<Event>)
    requires Forward(start, evs)
    ensures EstimatesBounded(start, evs) <==> NeverMisled(start, evs)
  {
    if evs != [] {
      var r, e := Execute(start, evs[..|evs| - 1]), evs[|evs| - 1];
      PowerBoundIff(start, evs[..|evs| - 1]);
      WindowIsLastPulses(start, evs[..|evs| - 1]);
      if r.m.count > 0 {
        WindowMeasured(r);
        if Span(Window(r)) % U32 != 0 {
          OverestimateIff(Window(r));
        }
      }
    }
  }

  ghost predicate LdrsBounded(ps: seq<Print>)
  {
    forall i :: 0 <= i < |ps| && ps[i].Ldr? ==> ps[i].watts <= MAX_WATTS
  }

  lemma LdrsAppend(a: seq<Print>, b: seq<Print>)
    requires LdrsBounded(a) && LdrsBounded(b)
    ensures LdrsBounded(a + b)
  {
  }

  lemma {:induction false} StatusHasNoLdr(water: bool, cmds: string)
    ensures LdrsBounded(StatusPrints(water, cmds))
  {
    if cmds != "" {
      StatusHasNoLdr(water, cmds[..|cmds| - 1]);
    }
  }

  lemma ReportBounded(m: Meter, now: nat)
    requires m.watts <= MAX_WATTS
    requires ReportDue(m, now) && m.count != 0 && Since(m.last, m.first) != 0 ==>
               Estimate(m.count - 1, Since(m.last, m.first)) <= MAX_WATTS
    ensures Reported(Stale(m, now), now).watts <= MAX_WATTS
  {
  }

  lemma PassBounded(m: Meter, now: nat, cmds: string)
    requires Reported(Stale(m, now), now).watts <= MAX_WATTS
    ensures AfterLoop(m, now, cmds).watts <= MAX_WATTS && LdrsBounded(LoopPrints(m, now, cmds))
  {
    var s := Stale(m, now);
    var a, b, c := ReportPrint(s, now), PulsePrint(Reported(s, now), now), StatusPrints(m.water, cmds);
    StatusHasNoLdr(m.water, cmds);
    LdrsAppend(a, b);
    LdrsAppend(a + b, c);
    LdrsAppend(a + b + c, SwitchPrint(m.water, cmds));
  }

  /** Then neither the variable nor any printed estimate ever exceeds the bound. */
  lemma {:induction false} PowerBound(start: nat, evs: seq<Event>)
    requires Forward(start, evs) && NeverMisled(start, evs)
    ensures Execute(start, evs).m.watts <= MAX_WATTS && LdrsBounded(Execute(start, evs).prints)
  {
    if evs != [] {
      var r := Execute(start, evs[..|evs| - 1]);
      PowerBound(start, evs[..|evs| - 1]);
      PowerBoundIff(start, evs);
      match evs[|evs| - 1]
      case Edge =>
      case Pass(time, cmds) =>
        ReportBounded(r.m, Millis(time));
        PassBounded(r.m, Millis(time), cmds);
        LdrsAppend(r.prints, LoopPrints(r.m, Millis(time), cmds));
    }
  }

  /** No window lasts 2^32 ms, and no two reports are that far apart. */
  ghost predicate Paced(start: nat, evs: seq<Event>)
  {
    evs != [] ==>
      var r, e := Execute(start, evs[..|evs| - 1]), evs[|evs| - 1];
      && Paced(start, evs[..|evs| - 1])
      && (e.Pass? ==> Span(Window(r)) < U32 && r.time <= e.time < r.reported + U32)
  }

  /** Only so many pulses fit between two reports. */
  ghost predicate FewSince(c: nat, last: nat, reported: nat)
  {
    && (last < reported ==> c <= 1)
    && (last >= reported ==> DEBOUNCE_MS * (c - 2) <= last - reported <= 5000)
  }

  ghost predicate OnTime(r: Run)
  {
    FewSince(r.m.count, LastPulse(r.pulses), r.reported)
  }

  lemma OneMoreFits(c: nat, last: nat, reported: nat, t: nat)
    requires FewSince(c, last, reported) && reported <= t <= reported + 5000
    requires c >= 1 ==> last + DEBOUNCE_MS <= t
    ensures FewSince((c + 1) % U16, t, reported)
  {
  }

  lemma CountAfter(m: Meter, now: nat, cmds: string)
    ensures Reported(m, now).count <= m.count
    ensures var c := Reported(m, now).count;
            AfterLoop(m, now, cmds).count == if Accepts(m, now) then (c + 1) % U16 else c
  {
  }

  lemma ReportOnTime(r: Run, time: nat)
    requires Tracks(r) && OnTime(r) && r.time <= time < r.reported + U32 && Span(Window(r)) < U32
    ensures ReportDue(r.m, Millis(time)) ==> Reported(r.m, Millis(time)).count <= 1
    ensures !ReportDue(r.m, Millis(time)) ==>
              time <= r.reported + 5000 && Reported(r.m, Millis(time)).count == r.m.count
  {
    SinceMillis(time, r.reported);
    if ReportDue(r.m, Millis(time)) {
      BriefCloses(r, time);
    }
  }

  lemma PassOnTime(r: Run, time: nat, cmds: string)
    requires Tracks(r) && OnTime(r) && r.time <= time < r.reported + U32 && Span(Window(r)) < U32
    ensures FewSince(AfterLoop(r.m, Millis(time), cmds).count,
                     LastPulse(if Accepts(r.m, Millis(time)) then r.pulses + [time] else r.pulses),
                     if ReportDue(r.m, Millis(time)) then time else r.reported)
  {
    ReportOnTime(r, time);
    CountAfter(r.m, Millis(time), cmds);
    if Accepts(r.m, Millis(time)) {
      PulseAccepted(r, time);
      OneMoreFits(Reported(r.m, Millis(time)).count, LastPulse(r.pulses),
                  if ReportDue(r.m, Millis(time)) then time else r.reported, time);
    }
  }

  /** On a paced run of any length nothing is ever misled, and the 16-bit pulse counter stays below 23. */
  lemma {:induction false} PacedRun(start: nat, evs: seq<Event>)
    requires Paced(start, evs)
    ensures Forward(start, evs) && NeverMisled(start, evs)
    ensures OnTime(Execute(start, evs)) && Execute(start, evs).m.count < 23
  {
    if evs != [] {
      var r := Execute(start, evs[..|evs| - 1]);
      PacedRun(start, evs[..|evs| - 1]);
      WindowIsLastPulses(start, evs[..|evs| - 1]);
      match evs[|evs| - 1]
      case Edge =>
      case Pass(time, cmds) =>
        PassOnTime(r, time, cmds);
    }
  }

  /** The loop keeps running, and pulses keep coming: neither two reports nor the latest pulse and now are
      ever nearly 2^32 ms apart. */
  ghost predicate Lively(start: nat, evs: seq<Event>)
  {
    evs != [] ==>
      var r, e := Execute(start, evs[..|evs| - 1]), evs[|evs| - 1];
      && Lively(start, evs[..|evs| - 1])
      && (e.Pass? ==>
            && r.time <= e.time < r.reported + U32
            && (r.pulses != [] ==> e.time < LastPulse(r.pulses) + U32 - 5000))
  }

  /** Of the last c pulses the second came after the latest report and not too long after the first. */
  ghost predicate FreshSecond(ts: seq<nat>, c: nat, reported: nat)
  {
    2 <= c <= |ts| ==> reported <= ts[|ts| - c + 1] < ts[|ts| - c] + U32 - 5000
  }

  ghost predicate SecondIsFresh(r: Run)
  {
    FreshSecond(r.pulses, r.m.count, r.reported)
  }

  lemma FreshWindowIsBrief(r: Run)
    requires Tracks(r) && OnTime(r) && SecondIsFresh(r)
    ensures Span(Window(r)) < U32
  {
    if r.m.count >= 2 {
      var second := |r.pulses| - r.m.count + 1;
      SpanAtLeast(r.pulses[second..]);
    }
  }

  lemma ReportKeepsFresh(r: Run, time: nat)
    requires Tracks(r) && OnTime(r) && SecondIsFresh(r)
    ensures FreshSecond(r.pulses, Reported(r.m, Millis(time)).count,
                        if ReportDue(r.m, Millis(time)) then time else r.reported)
  {
    if ReportDue(r.m, Millis(time)) {
      FreshWindowIsBrief(r);
      BriefCloses(r, time);
    }
  }

  lemma PulseKeepsFresh(ts: seq<nat>, c: nat, reported: nat, t: nat)
    requires FreshSecond(ts, c, reported) && reported <= t && c <= |ts| && c < U16
    requires ts != [] ==> t < LastPulse(ts) + U32 - 5000
    ensures FreshSecond(ts + [t], (c + 1) % U16, reported)
  {
    var longer := ts + [t];
    assert c >= 1 ==> longer[|longer| - (c + 1)] == ts[|ts| - c];
    assert c >= 2 ==> longer[|longer| - c] == ts[|ts| - c + 1];
  }

  lemma PassKeepsFresh(r: Run, time: nat, cmds: string)
    requires Tracks(r) && OnTime(r) && SecondIsFresh(r) && r.time <= time
    requires r.pulses != [] ==> time < LastPulse(r.pulses) + U32 - 5000
    ensures FreshSecond(if Accepts(r.m, Millis(time)) then r.pulses + [time] else r.pulses,
                        AfterLoop(r.m, Millis(time), cmds).count,
                        if ReportDue(r.m, Millis(time)) then time else r.reported)
  {
    ReportKeepsFresh(r, time);
    CountAfter(r.m, Millis(time), cmds);
    if Accepts(r.m, Millis(time)) {
      PulseKeepsFresh(r.pulses, Reported(r.m, Millis(time)).count,
                      if ReportDue(r.m, Millis(time)) then time else r.reported, time);
    }
  }

  /** So a bound on silence is enough for all the above. */
  lemma {:induction false} LivelyIsPaced(start: nat, evs: seq<Event>)
    requires Lively(start, evs)
    ensures Paced(start, evs) && SecondIsFresh(Execute(start, evs)) && Span(Window(Execute(start, evs))) < U32
  {
    if evs != [] {
      LivelyIsPaced(start, evs[..|evs| - 1]);
      PacedRun(start, evs[..|evs| - 1]);
      WindowIsLastPulses(start, evs[..|evs| - 1]);
      var r := Execute(start, evs[..|evs| - 1]);
      match evs[|evs| - 1]
      case Edge =>
      case Pass(time, cmds) =>
        PassKeepsFresh(r, time, cmds);
    }
    PacedRun(start, evs);
    WindowIsLastPulses(start, evs);
    FreshWindowIsBrief(Execute(start, evs));
  }

  /** A run from power-on has come to this time and this state. */
  ghost predicate Reaches(evs: seq<Event>, time: nat, m: Meter)
  {
    Forward(0, evs) && Execute(0, evs).time == time && Execute(0, evs).m == m
  }

  lemma EdgeReaches(evs: seq<Event>, time: nat, m: Meter, all: seq<Event>)
    requires Reaches(evs, time, m) && all == evs + [Edge]
    ensures Reaches(all, time, Isr(m))
  {
    assert all[..|evs|] == evs;
  }

  lemma PassReaches(evs: seq<Event>, before: nat, m: Meter, time: nat, all: seq<Event>)
    requires Reaches(evs, before, m) && before <= time && all == evs + [Pass(time, "")]
    ensures Reaches(all, time, AfterLoop(m, Millis(time), ""))
  {
    assert all[..|evs|] == evs;
  }

  /** A pulse, then passes without one for nearly 50 days, and then two more pulses. */
  const SILENT := [Edge, Pass(1000, ""), Pass(3000000000, ""), Edge, Pass(U32 + 900, ""), Edge, Pass(U32 + 1200, "")]

  lemma SilentStates()
    ensures AfterLoop(Meter(0, 0, 0, 0, true, 0, 0, false), 1000, "")
         == Meter(1, 0, 1000, 1000, false, 0, 0, false)
    ensures AfterLoop(Meter(1, 0, 1000, 1000, false, 0, 0, false), 3000000000, "")
         == Meter(1, 3000000000, 1000, 1000, false, 0, 0, false)
  {
  }

  lemma MisledStates()
    ensures AfterLoop(Meter(1, 3000000000, 1000, 1000, true, 0, 0, false), 900, "")
         == Meter(2, 900, 1000, 900, false, 0, 0, false)
    ensures AfterLoop(Meter(2, 900, 1000, 900, true, 0, 0, false), 1200, "")
         == Meter(3, 900, 1000, 1200, false, 0, 0, false)
  {
  }

  lemma SilentRun()
    ensures Reaches(SILENT, U32 + 1200, Meter(3, 900, 1000, 1200, false, 0, 0, false))
  {
    SilentStates();
    MisledStates();
    assert Reaches([], 0, Setup(0));
    EdgeReaches([], 0, Setup(0), SILENT[..1]);
    PassReaches(SILENT[..1], 0, Isr(Setup(0)), 1000, SILENT[..2]);
    PassReaches(SILENT[..2], 1000, Meter(1, 0, 1000, 1000, false, 0, 0, false), 3000000000, SILENT[..3]);
    var quiet := Meter(1, 3000000000, 1000, 1000, false, 0, 0, false);
    EdgeReaches(SILENT[..3], 3000000000, quiet, SILENT[..4]);
    PassReaches(SILENT[..4], 3000000000, Isr(quiet), U32 + 900, SILENT[..5]);
    var second := Meter(2, 900, 1000, 900, false, 0, 0, false);
    EdgeReaches(SILENT[..5], U32 + 900, second, SILENT[..6]);
    PassReaches(SILENT[..6], U32 + 900, Isr(second), U32 + 1200, SILENT);
  }

  /** These make the window misleading: the report that follows estimates 36000 W. */
  lemma SilenceMisleads()
    ensures var evs := SILENT + [Pass(U32 + 5901, "")];
            Forward(0, evs) && Execute(0, evs).m.watts == 36000 && !EstimatesBounded(0, evs)
  {
    var evs := SILENT + [Pass(U32 + 5901, "")];
    var m := Meter(3, 900, 1000, 1200, false, 0, 0, false);
    SilentRun();
    PassReaches(SILENT, U32 + 1200, m, U32 + 5901, evs);
    MisledReport();
    assert evs[..|evs| - 1] == SILENT;
  }

  lemma MisledReport()
    ensures var m := Meter(3, 900, 1000, 1200, false, 0, 0, false);
            && AfterLoop(m, 5901, "").watts == 36000
            && ReportDue(m, 5901) && Since(m.last, m.first) == 200 && Estimate(m.count - 1, 200) > MAX_WATTS
  {
    assert Estimate(2, 200) == 36000;
  }
}
