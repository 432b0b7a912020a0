/** What the firmware of MeterReader/MeterReader.ino prints about pulses and power, told in true time: without
    16- and 32-bit counters, with the pulses of the open window at hand, and from the inputs alone. */
module MeterTruth {
  import opened Text
  import opened MeterReader

  /** `window` are the pulses counted since the last estimate, and `began` is when the latest window began;
      `shown` is what a report would say that makes no estimate of its own. */
  datatype Truth = Truth(flagged: bool, pulses: seq<nat>, window: seq<nat>, began: nat,
                         reported: nat, shown: nat, delta: nat)

  // ---------- One pass ----------

  /** The latest pulse is more than a minute old. */
  predicate Quiet(t: Truth, time: nat)
  {
    (time - LastPulse(t.pulses)) % U32 > 60000
  }

  predicate Due(t: Truth, time: nat)
  {
    (time - t.reported) % U32 > 5000
  }

  /** The window has a length, as far as the clock can tell. */
  predicate Measurable(window: seq<nat>)
  {
    Span(window) % U32 != 0
  }

  /** What a report says: the estimate over the window if there is one, else nothing after a quiet minute, else what
      was said last. */
  function Reading(t: Truth, time: nat): nat
  {
    if Measurable(t.window) then Estimate(|t.window| - 1, Span(t.window) % U32) % U16
    else if Quiet(t, time) then 0
    else t.shown
  }

  function Reporting(t: Truth, time: nat): Truth
  {
    if !Due(t, time) then t.(shown := if Quiet(t, time) then 0 else t.shown)
    else t.(reported := time, shown := Reading(t, time),
            window := if Measurable(t.window) then [] else t.window,
            delta := (LastPulse(t.pulses) - t.began) % U32)
  }

  /** A pulse counts if it comes 241 ms or more after the one before. */
  predicate Counts(t: Truth, time: nat)
  {
    t.flagged && (time - LastPulse(t.pulses)) % U32 >= DEBOUNCE_MS
  }

  /** The 2^16-th pulse of a window starts it anew. */
  function Pulsing(t: Truth, time: nat): Truth
  {
    if !Counts(t, time) then t.(flagged := false)
    else t.(flagged := false, pulses := t.pulses + [time],
            window := if |t.window| + 1 == U16 then [] else t.window + [time],
            began := if t.window == [] then time else t.began)
  }

  function Passed(t: Truth, time: nat): Truth
  {
    Pulsing(Reporting(t, time), time)
  }

  function LdrLine(t: Truth, time: nat): seq<Print>
  {
    if Due(t, time) then [Ldr(Millis(time), Reading(t, time))] else []
  }

  function PulseLine(t: Truth, time: nat): seq<Print>
  {
    if !t.flagged then []
    else if Counts(t, time) then [Pulse(Millis(time), Millis(Passed(t, time).began))]
    else [FalsePulse(Millis(time), Reporting(t, time).delta, Millis(LastPulse(t.pulses)))]
  }

  /** An LDR line if a report is due, and a line for the pulse if one was flagged. */
  function PassLines(t: Truth, time: nat): seq<Print>
  {
    LdrLine(t, time) + PulseLine(t, time)
  }

  // ---------- Runs ----------

  function Observe(start: nat, evs: seq<Event>): Truth
  {
    if evs == [] then Truth(false, [], [], 0, start, 0, 0)
    else
      var t := Observe(start, evs[..|evs| - 1]);
      match evs[|evs| - 1]
      case Edge => t.(flagged := true)
      case Pass(time, _) => Passed(t, time)
  }

  function Lines(start: nat, evs: seq<Event>): seq<Print>
  {
    if evs == [] then []
    else
      var before := evs[..|evs| - 1];
      match evs[|evs| - 1]
      case Edge => Lines(start, before)
      case Pass(time, _) => Lines(start, before) + PassLines(Observe(start, before), time)
  }

  /** The lines about pulses and power among some. */
  function Metered(ps: seq<Print>): seq<Print>
  {
    if ps == [] then []
    else
      var p := ps[|ps| - 1];
      if p.Hi? || p.Water? then Metered(ps[..|ps| - 1]) else Metered(ps[..|ps| - 1]) + [p]
  }

  lemma {:induction false} MeteredAppend(a: seq<Print>, b: seq<Print>)
    ensures Metered(a + b) == Metered(a) + Metered(b)
  {
    if b == [] {
      assert a + b == a;
    } else {
      MeteredAppend(a, b[..|b| - 1]);
      assert (a + b)[..|a + b| - 1] == a + b[..|b| - 1];
    }
  }

  lemma MeteredOne(p: Print)
    ensures Metered([p]) == if p.Hi? || p.Water? then [] else [p]
  {
    assert [p][..0] == [];
  }

  lemma {:induction false} NoMeteredStatus(water: bool, cmds: string)
    ensures Metered(StatusPrints(water, cmds)) == []
  {
    if cmds != "" {
      var a := StatusPrints(water, cmds[..|cmds| - 1]);
      NoMeteredStatus(water, cmds[..|cmds| - 1]);
      if cmds[|cmds| - 1] == 'S' {
        MeteredAppend(a, [Water(Commanded(water, cmds))]);
        MeteredOne(Water(Commanded(water, cmds)));
      } else {
        assert a + [] == a;
      }
    }
  }

  // ---------- The firmware tells the truth ----------

  /** The window is the latest pulses, and `began` its first. */
  ghost predicate WindowIsLatest(t: Truth)
  {
    && |t.window| < U16 && |t.window| <= |t.pulses|
    && t.window == t.pulses[|t.pulses| - |t.window|..]
    && (t.window != [] ==> t.began == t.window[0])
    && t.began <= LastPulse(t.pulses)
    && Sorted(t.pulses)
  }

  ghost predicate Sorted(ts: seq<nat>)
  {
    forall i, j :: 0 <= i <= j < |ts| ==> ts[i] <= ts[j]
  }

  ghost predicate Tells(m: Meter, t: Truth)
  {
    && m.pulse == t.flagged && m.count == |t.window|
    && m.first == Millis(t.began) && m.last == Millis(LastPulse(t.pulses))
    && m.reportTime == Millis(t.reported) && m.watts == t.shown && m.delta == t.delta
  }

  ghost predicate UpTo(t: Truth, time: nat)
  {
    WindowIsLatest(t) && LastPulse(t.pulses) <= time && t.reported <= time
  }

  lemma SpanIsMeasured(t: Truth)
    requires WindowIsLatest(t)
    ensures Since(Millis(LastPulse(t.pulses)), Millis(t.began)) == (LastPulse(t.pulses) - t.began) % U32
    ensures t.window != [] ==> LastPulse(t.pulses) - t.began == Span(t.window)
  {
    SinceMillis(LastPulse(t.pulses), t.began);
  }

  lemma BookkeepingTells(m: Meter, t: Truth, time: nat)
    requires Tells(m, t) && UpTo(t, time)
    ensures ReportDue(m, Millis(time)) <==> Due(t, time)
    ensures Accepts(m, Millis(time)) <==> Counts(t, time)
    ensures Since(Millis(time), m.last) > 60000 <==> Quiet(t, time)
  {
    SinceMillis(time, LastPulse(t.pulses));
    SinceMillis(time, t.reported);
  }

  lemma WindowTells(m: Meter, t: Truth)
    requires Tells(m, t) && WindowIsLatest(t)
    ensures Since(m.last, m.first) == (LastPulse(t.pulses) - t.began) % U32
    ensures Since(m.last, m.first) != 0 && m.count != 0 <==> Measurable(t.window)
    ensures Measurable(t.window) ==> Since(m.last, m.first) == Span(t.window) % U32
  {
    SpanIsMeasured(t);
  }

  lemma ReportTells(m: Meter, t: Truth, time: nat)
    requires Tells(m, t) && UpTo(t, time)
    ensures var now := Millis(time);
            && Tells(Reported(Stale(m, now), now), Reporting(t, time))
            && ReportPrint(Stale(m, now), now) == if Due(t, time) then [Ldr(now, Reading(t, time))] else []
  {
    BookkeepingTells(m, t, time);
    WindowTells(m, t);
  }

  lemma ReportUpTo(t: Truth, time: nat)
    requires UpTo(t, time)
    ensures UpTo(Reporting(t, time), time)
  {
  }

  lemma PulseTells(m: Meter, t: Truth, time: nat)
    requires Tells(m, t) && UpTo(t, time)
    ensures Tells(Pulsed(m, Millis(time)), Pulsing(t, time)) && UpTo(Pulsing(t, time), time)
  {
    BookkeepingTells(m, t, time);
    if Counts(t, time) {
      CountTells(m, t, time);
      WindowGrows(t, time);
    }
  }

  lemma CountTells(m: Meter, t: Truth, time: nat)
    requires Tells(m, t) && |t.window| < U16 && Counts(t, time) && Accepts(m, Millis(time))
    ensures Tells(Pulsed(m, Millis(time)), Pulsing(t, time))
  {
    assert (m.count + 1) % U16 == if m.count + 1 == U16 then 0 else m.count + 1;
    assert LastPulse(t.pulses + [time]) == time;
  }

  lemma PulseLineTells(m: Meter, t: Truth, time: nat)
    requires Tells(m, t) && UpTo(t, time)
    ensures PulsePrint(m, Millis(time)) ==
            if !t.flagged then []
            else if Counts(t, time) then [Pulse(Millis(time), Millis(Pulsing(t, time).began))]
            else [FalsePulse(Millis(time), t.delta, Millis(LastPulse(t.pulses)))]
  {
    BookkeepingTells(m, t, time);
    PulseTells(m, t, time);
  }

  lemma WindowGrows(t: Truth, time: nat)
    requires UpTo(t, time) && Counts(t, time)
    ensures UpTo(Pulsing(t, time), time)
  {
    SuffixGrows(t.pulses, |t.window|, time);
    SortedGrows(t.pulses, time);
  }

  lemma SuffixGrows(ts: seq<nat>, n: nat, t: nat)
    requires n <= |ts|
    ensures var longer := ts + [t];
            longer[|longer| - (n + 1)..] == ts[|ts| - n..] + [t] && longer[|longer|..] == []
  {
  }

  lemma SortedGrows(ts: seq<nat>, t: nat)
    requires Sorted(ts) && LastPulse(ts) <= t
    ensures Sorted(ts + [t])
  {
  }

  lemma PassTells(r: Run, t: Truth, time: nat, cmds: string)
    requires Tells(r.m, t) && UpTo(t, time) && r.pulses == t.pulses && r.reported == t.reported
    ensures var after := AfterPass(r, time, cmds);
            && Tells(after.m, Passed(t, time)) && UpTo(Passed(t, time), time)
            && after.pulses == Passed(t, time).pulses && after.reported == Passed(t, time).reported
            && Metered(after.prints) == Metered(r.prints) + PassLines(t, time)
  {
    var now := Millis(time);
    var s := Stale(r.m, now);
    ReportTells(r.m, t, time);
    ReportUpTo(t, time);
    PulseTells(Reported(s, now), Reporting(t, time), time);
    PulseLineTells(Reported(s, now), Reporting(t, time), time);
    BookkeepingTells(r.m, t, time);
    LoopMetered(r.m, now, cmds);
    MeteredAppend(r.prints, LoopPrints(r.m, now, cmds));
  }

  lemma LoopMetered(m: Meter, now: nat, cmds: string)
    ensures var s := Stale(m, now);
            Metered(LoopPrints(m, now, cmds)) == ReportPrint(s, now) + PulsePrint(Reported(s, now), now)
  {
    var s := Stale(m, now);
    NoMeteredStatus(m.water, cmds);
    PartsMetered(ReportPrint(s, now), PulsePrint(Reported(s, now), now),
                 StatusPrints(m.water, cmds), SwitchPrint(m.water, cmds));
  }

  lemma PartsMetered(a: seq<Print>, b: seq<Print>, c: seq<Print>, d: seq<Print>)
    requires |a| <= 1 && |b| <= 1 && |d| <= 1 && Metered(c) == []
    requires (a != [] ==> a[0].Ldr?) && (b != [] ==> b[0].Pulse? || b[0].FalsePulse?) && (d != [] ==> d[0].Water?)
    ensures Metered(a + b + c + d) == a + b
  {
    MeteredAppend(a + b + c, d);
    MeteredAppend(a + b, c);
    MeteredAppend(a, b);
    ShortMetered(a);
    ShortMetered(b);
    ShortMetered(d);
    assert a + b + [] + [] == a + b;
  }

  lemma ShortMetered(ps: seq<Print>)
    requires |ps| <= 1
    ensures Metered(ps) == if ps != [] && (ps[0].Hi? || ps[0].Water?) then [] else ps
  {
    if ps != [] {
      assert ps == [ps[0]];
      MeteredOne(ps[0]);
    }
  }

  /** For any uptime, what the firmware prints about pulses and power is the truth, line by line. */
  lemma {:induction false} FirmwareTells(start: nat, evs: seq<Event>)
    requires Forward(start, evs)
    ensures var r, t := Execute(start, evs), Observe(start, evs);
            && Tells(r.m, t) && UpTo(t, r.time)
            && r.pulses == t.pulses && r.reported == t.reported
            && Metered(r.prints) == Lines(start, evs)
  {
    if evs == [] {
      MeteredOne(Hi);
    } else {
      var r, t := Execute(start, evs[..|evs| - 1]), Observe(start, evs[..|evs| - 1]);
      FirmwareTells(start, evs[..|evs| - 1]);
      match evs[|evs| - 1]
      case Edge =>
      case Pass(time, cmds) =>
        PassTells(r, t, time, cmds);
    }
  }

  // ---------- What an LDR line says ----------

  /** w is the average power over the window, rounded down to whole watts, and within the bound. */
  ghost predicate SaysPower(w: nat, window: seq<nat>)
  {
    |window| >= 2 && Span(window) > 0 && IsPower(w, |window| - 1, Span(window)) && w <= MAX_WATTS
  }

  /** If the window has two pulses or more and lasts less than 2^32 ms, a report says the average power over it,
      rounded down to whole watts. */
  lemma ReadingIsPower(start: nat, evs: seq<Event>, time: nat)
    requires Forward(start, evs)
    ensures var t := Observe(start, evs);
            |t.window| >= 2 && Span(t.window) < U32 ==> SaysPower(Reading(t, time), t.window)
  {
    var t := Observe(start, evs);
    FirmwareTells(start, evs);
    WindowIsLastPulses(start, evs);
    if |t.window| >= 2 && Span(t.window) < U32 {
      SuffixApart(t.pulses, |t.window|);
      PowerOfWindow(t, time);
    }
  }

  lemma SuffixApart(ts: seq<nat>, n: nat)
    requires Apart(ts) && n <= |ts|
    ensures Apart(ts[|ts| - n..])
  {
    var w := ts[|ts| - n..];
    assert forall i :: 0 <= i < |w| ==> w[i] == ts[|ts| - n + i];
  }

  lemma PowerOfWindow(t: Truth, time: nat)
    requires Apart(t.window) && |t.window| >= 2 && Span(t.window) < U32
    ensures SaysPower(Reading(t, time), t.window)
  {
    BriefSpan(t.window);
    BriefEstimate(t.window);
    SmallWatts(Estimate(|t.window| - 1, Span(t.window)));
  }

  /** At some pass since the last report the latest pulse was more than a minute old. */
  predicate QuietSince(start: nat, evs: seq<Event>)
  {
    evs != [] &&
    var t := Observe(start, evs[..|evs| - 1]);
    match evs[|evs| - 1]
    case Edge => QuietSince(start, evs[..|evs| - 1])
    case Pass(time, _) => !Due(t, time) && (Quiet(t, time) || QuietSince(start, evs[..|evs| - 1]))
  }

  /** The value on the last LDR line. */
  function LastShown(ps: seq<Print>): nat
  {
    if ps == [] then 0
    else if ps[|ps| - 1].Ldr? then ps[|ps| - 1].watts
    else LastShown(ps[..|ps| - 1])
  }

  lemma {:induction false} LastShownMetered(ps: seq<Print>)
    ensures LastShown(Metered(ps)) == LastShown(ps)
  {
    if ps != [] {
      var p, before := ps[|ps| - 1], Metered(ps[..|ps| - 1]);
      LastShownMetered(ps[..|ps| - 1]);
      assert (before + [p])[..|before|] == before;
    }
  }

  /** A suffix with an LDR line has the last one. */
  lemma {:induction false} LastShownSuffix(ps: seq<Print>, k: nat)
    requires k <= |ps| && exists i :: k <= i < |ps| && ps[i].Ldr?
    ensures LastShown(ps[k..]) == LastShown(ps)
  {
    var n := |ps| - 1;
    assert ps[k..][..n - k] == ps[..n][k..];
    if !ps[n].Ldr? {
      var i :| k <= i < |ps| && ps[i].Ldr?;
      assert ps[..n][i] == ps[i];
      LastShownSuffix(ps[..n], k);
    }
  }

  lemma {:induction false} LastShownAppend(a: seq<Print>, b: seq<Print>)
    requires forall i :: 0 <= i < |b| ==> !b[i].Ldr?
    ensures LastShown(a + b) == LastShown(a)
  {
    if b == [] {
      assert a + b == a;
    } else {
      LastShownAppend(a, b[..|b| - 1]);
      assert (a + b)[..|a + b| - 1] == a + b[..|b| - 1];
    }
  }

  /** Otherwise it repeats the last LDR line, or says 0 if there has been no pulse for a minute at some pass since
      that line, this one included. */
  lemma {:induction false} ShownIsLast(start: nat, evs: seq<Event>)
    ensures Observe(start, evs).shown == if QuietSince(start, evs) then 0 else LastShown(Lines(start, evs))
  {
    if evs != [] {
      var before := evs[..|evs| - 1];
      var t := Observe(start, before);
      ShownIsLast(start, before);
      match evs[|evs| - 1]
      case Edge =>
      case Pass(time, _) =>
        LinesShow(Lines(start, before), t, time);
    }
  }

  lemma LinesShow(lines: seq<Print>, t: Truth, time: nat)
    ensures LastShown(lines + PassLines(t, time)) == if Due(t, time) then Reading(t, time) else LastShown(lines)
  {
    ShownAfter(lines, LdrLine(t, time), PulseLine(t, time));
  }

  lemma ShownAfter(lines: seq<Print>, ldr: seq<Print>, pulse: seq<Print>)
    requires |ldr| <= 1 && (ldr != [] ==> ldr[0].Ldr?)
    requires forall i :: 0 <= i < |pulse| ==> !pulse[i].Ldr?
    ensures LastShown(lines + (ldr + pulse)) == if ldr != [] then ldr[0].watts else LastShown(lines)
  {
    assert lines + (ldr + pulse) == (lines + ldr) + pulse;
    LastShownAppend(lines + ldr, pulse);
    if ldr == [] {
      assert lines + ldr == lines;
    }
  }

  /** So this is what the LDR line of a pass says, and there is one exactly when a report is due. */
  lemma LdrLineSays(start: nat, evs: seq<Event>, time: nat, cmds: string)
    requires Forward(start, evs) && Execute(start, evs).time <= time
    ensures var t := Observe(start, evs);
            && Lines(start, evs + [Pass(time, cmds)]) == Lines(start, evs) + PassLines(t, time)
            && (Due(t, time) <==> PassLines(t, time) != [] && PassLines(t, time)[0].Ldr?)
            && (Due(t, time) ==>
                  PassLines(t, time)[0] ==
                  Ldr(Millis(time),
                      if Measurable(t.window) then Estimate(|t.window| - 1, Span(t.window) % U32) % U16
                      else if Quiet(t, time) || QuietSince(start, evs) then 0
                      else LastShown(Lines(start, evs))))
  {
    ShownIsLast(start, evs);
    assert (evs + [Pass(time, cmds)])[..|evs|] == evs;
  }

  // ---------- WATER lines ----------

  /** What the last WATER line says. */
  function LastLevel(ps: seq<Print>): Option<bool>
  {
    if ps == [] then None
    else if ps[|ps| - 1].Water? then Some(ps[|ps| - 1].level)
    else LastLevel(ps[..|ps| - 1])
  }

  function WaterCount(ps: seq<Print>): nat
  {
    if ps == [] then 0 else WaterCount(ps[..|ps| - 1]) + if ps[|ps| - 1].Water? then 1 else 0
  }

  lemma {:induction false} WaterAppend(a: seq<Print>, b: seq<Print>)
    ensures LastLevel(a + b) == if LastLevel(b) == None then LastLevel(a) else LastLevel(b)
    ensures WaterCount(a + b) == WaterCount(a) + WaterCount(b)
  {
    if b == [] {
      assert a + b == a;
    } else {
      WaterAppend(a, b[..|b| - 1]);
      assert (a + b)[..|a + b| - 1] == a + b[..|b| - 1];
    }
  }

  lemma WaterOne(ps: seq<Print>)
    requires |ps| <= 1
    ensures LastLevel(ps) == if ps != [] && ps[0].Water? then Some(ps[0].level) else None
    ensures WaterCount(ps) == if ps != [] && ps[0].Water? then 1 else 0
  {
    assert ps != [] ==> ps[..0] == [];
  }

  function Asked(cmds: string): nat
  {
    if cmds == "" then 0 else Asked(cmds[..|cmds| - 1]) + if cmds[|cmds| - 1] == 'S' then 1 else 0
  }

  lemma {:induction false} StatusWater(water: bool, cmds: string)
    ensures WaterCount(StatusPrints(water, cmds)) == Asked(cmds)
    ensures !Switches(cmds) ==>
              Commanded(water, cmds) == water && LastLevel(StatusPrints(water, cmds)) in {None, Some(water)}
  {
    if cmds != "" {
      var init := cmds[..|cmds| - 1];
      var b := if cmds[|cmds| - 1] == 'S' then [Water(Commanded(water, cmds))] else [];
      StatusWater(water, init);
      assert Switches(init) ==> Switches(cmds);
      assert cmds[|cmds| - 1] in cmds;
      WaterAppend(StatusPrints(water, init), b);
      WaterOne(b);
    }
  }

  /** How often a WATER line was asked for: once per 'S', and once per pass that switches. */
  function Answers(evs: seq<Event>): nat
  {
    if evs == [] then 0
    else
      match evs[|evs| - 1]
      case Edge => Answers(evs[..|evs| - 1])
      case Pass(_, cmds) => Answers(evs[..|evs| - 1]) + Asked(cmds) + if Switches(cmds) then 1 else 0
  }

  lemma PassWater(r: Run, time: nat, cmds: string)
    ensures var after := AfterPass(r, time, cmds);
            && WaterCount(after.prints) == WaterCount(r.prints) + Asked(cmds) + (if Switches(cmds) then 1 else 0)
            && (LastLevel(r.prints) in {None, Some(r.m.water)} && (LastLevel(r.prints) == None ==> !r.m.water) ==>
                  && LastLevel(after.prints) in {None, Some(after.m.water)}
                  && (LastLevel(after.prints) == None ==> !after.m.water))
  {
    var now := Millis(time);
    var s := Stale(r.m, now);
    var a, b := ReportPrint(s, now), PulsePrint(Reported(s, now), now);
    var c, d := StatusPrints(r.m.water, cmds), SwitchPrint(r.m.water, cmds);
    WaterAppend(r.prints, a + b + c + d);
    WaterAppend(a + b + c, d);
    WaterAppend(a + b, c);
    WaterAppend(a, b);
    WaterOne(a);
    WaterOne(b);
    WaterOne(d);
    StatusWater(r.m.water, cmds);
  }

  /** After every pass the last WATER line says where the relay is; before the first one it is off. */
  lemma {:induction false} WaterLinesTell(start: nat, evs: seq<Event>)
    ensures var r := Execute(start, evs);
            && (LastLevel(r.prints) == None ==> !r.m.water)
            && (LastLevel(r.prints).Some? ==> LastLevel(r.prints).value == r.m.water)
            && WaterCount(r.prints) == Answers(evs)
  {
    if evs == [] {
      WaterOne([Hi]);
    } else {
      var r := Execute(start, evs[..|evs| - 1]);
      WaterLinesTell(start, evs[..|evs| - 1]);
      match evs[|evs| - 1]
      case Edge =>
      case Pass(time, cmds) =>
        PassWater(r, time, cmds);
    }
  }
}
