/** The water relay commands of common/mlogger.c: two flags set by a signal handler that can run between any
    two assignments of the main loop, and the block that turns them into bytes for the serial port.  The
    flags are taken to be read and written in memory, one access at a time. */
module WaterCommands {
  import opened Text

  datatype Signal = Usr1 | Usr2

  /** The statement of the block that is executed next.  The rest of the main loop touches neither flag. */
  datatype Pc = TestOff | WriteOff | ClearOff | ClearOnToo | TestOn | WriteOn | ClearOn

  datatype Water = Water(on: bool, off: bool, pc: Pc, sent: string)

  const START := Water(false, false, TestOff, "")

  function Handle(s: Water, signal: Signal): Water
  {
    match signal
    case Usr1 => s.(on := true)
    case Usr2 => s.(off := true)
  }

  function Advance(s: Water): Water
  {
    match s.pc
    case TestOff => s.(pc := if s.off then WriteOff else TestOn)
    case WriteOff => s.(sent := s.sent + "w", pc := ClearOff)
    case ClearOff => s.(off := false, pc := ClearOnToo)
    case ClearOnToo => s.(on := false, pc := TestOff)
    case TestOn => s.(pc := if s.on then WriteOn else TestOff)
    case WriteOn => s.(sent := s.sent + "W", pc := ClearOn)
    case ClearOn => s.(on := false, pc := TestOff)
  }

  class Relay {
    var waterOn: bool
    var waterOff: bool
    var sent: string

    /** One execution of the block, the handler having run for the given signals before each statement. */
    method HandleCommands(arrivals: seq<seq<Signal>>)
      requires |arrivals| == 4
      modifies this
      ensures Pass(Water(old(waterOn), old(waterOff), TestOff, old(sent)), arrivals)
           == Water(waterOn, waterOff, TestOff, sent)
    {
      ghost var start := Water(waterOn, waterOff, TestOff, sent);
      ghost var s := start;
      HandleSignals(arrivals[0], TestOff);
      s := PassFrom(s, arrivals, 0);
      if waterOff {
        TurnOff(s, arrivals);
      } else {
        HandleSignals(arrivals[1], TestOn);
        s := PassFrom(s, arrivals, 1);
        if waterOn {
          TurnOn(s, arrivals);
        }
      }
      assert arrivals[0..] == arrivals;
    }

    method TurnOff(ghost s: Water, arrivals: seq<seq<Signal>>)
      requires |arrivals| == 4 && s == Water(waterOn, waterOff, WriteOff, sent)
      modifies this
      ensures Pass(s, arrivals[1..]) == Water(waterOn, waterOff, TestOff, sent)
    {
      ghost var t := s;
      HandleSignals(arrivals[1], WriteOff);
      sent := sent + "w";
      t := PassFrom(t, arrivals, 1);
      HandleSignals(arrivals[2], ClearOff);
      waterOff := false;
      t := PassFrom(t, arrivals, 2);
      HandleSignals(arrivals[3], ClearOnToo);
      waterOn := false;
      t := PassFrom(t, arrivals, 3);
    }

    method TurnOn(ghost s: Water, arrivals: seq<seq<Signal>>)
      requires |arrivals| == 4 && s == Water(waterOn, waterOff, WriteOn, sent)
      modifies this
      ensures Pass(s, arrivals[2..]) == Water(waterOn, waterOff, TestOff, sent)
    {
      ghost var t := s;
      HandleSignals(arrivals[2], WriteOn);
      sent := sent + "W";
      t := PassFrom(t, arrivals, 2);
      HandleSignals(arrivals[3], ClearOn);
      waterOn := false;
      t := PassFrom(t, arrivals, 3);
    }

    method HandleSignals(signals: seq<Signal>, ghost pc: Pc)
      modifies `waterOn, `waterOff
      ensures var s := HandleAll(Water(old(waterOn), old(waterOff), pc, sent), signals);
              s == Water(waterOn, waterOff, pc, sent)
    {
      for i := 0 to |signals|
        invariant HandleAll(Water(old(waterOn), old(waterOff), pc, sent), signals[..i])
               == Water(waterOn, waterOff, pc, sent)
      {
        assert signals[..i + 1][..i] == signals[..i];
        match signals[i] {
          case Usr1 => waterOn := true;
          case Usr2 => waterOff := true;
        }
      }
      assert signals[..|signals|] == signals;
    }
  }

  function HandleAll(s: Water, signals: seq<Signal>): Water
  {
    if signals == [] then s else Handle(HandleAll(s, signals[..|signals| - 1]), signals[|signals| - 1])
  }

  /** Signals, statement, signals, statement, until the block is left. */
  function Pass(s: Water, arrivals: seq<seq<Signal>>): Water
    decreases |arrivals|
  {
    if arrivals == [] then s
    else
      var t := Advance(HandleAll(s, arrivals[0]));
      if t.pc == TestOff then t else Pass(t, arrivals[1..])
  }

  lemma PassFrom(s: Water, arrivals: seq<seq<Signal>>, k: nat) returns (t: Water)
    requires k < |arrivals|
    ensures t == Advance(HandleAll(s, arrivals[k]))
    ensures Pass(s, arrivals[k..]) == if t.pc == TestOff then t else Pass(t, arrivals[k + 1..])
  {
    t := Advance(HandleAll(s, arrivals[k]));
    assert arrivals[k..][1..] == arrivals[k + 1..];
  }

  // ---------- Runs ----------

  datatype Event = Arrives(signal: Signal) | Advances

  function Step(s: Water, e: Event): Water
  {
    match e
    case Arrives(signal) => Handle(s, signal)
    case Advances => Advance(s)
  }

  /** The state after any interleaving of signals and statements. */
  function Run(evs: seq<Event>): Water
  {
    if evs == [] then START else Step(Run(evs[..|evs| - 1]), evs[|evs| - 1])
  }

  function Arrivals(signals: seq<Signal>): seq<Event>
  {
    if signals == [] then [] else Arrivals(signals[..|signals| - 1]) + [Arrives(signals[|signals| - 1])]
  }

  function PassEvents(s: Water, arrivals: seq<seq<Signal>>): seq<Event>
    decreases |arrivals|
  {
    if arrivals == [] then []
    else
      var t := Advance(HandleAll(s, arrivals[0]));
      Arrivals(arrivals[0]) + [Advances] + if t.pc == TestOff then [] else PassEvents(t, arrivals[1..])
  }

  lemma RunSnoc(evs: seq<Event>, e: Event)
    ensures Run(evs + [e]) == Step(Run(evs), e)
  {
    assert (evs + [e])[..|evs|] == evs;
  }

  lemma {:induction false} RunArrivals(evs: seq<Event>, signals: seq<Signal>)
    ensures Run(evs + Arrivals(signals)) == HandleAll(Run(evs), signals)
  {
    if signals == [] {
      assert evs + Arrivals(signals) == evs;
    } else {
      var n := |signals| - 1;
      RunArrivals(evs, signals[..n]);
      RunSnoc(evs + Arrivals(signals[..n]), Arrives(signals[n]));
      assert evs + Arrivals(signals) == evs + Arrivals(signals[..n]) + [Arrives(signals[n])];
    }
  }

  lemma AppendEvents(a: seq<Event>, b: seq<Event>, c: seq<Event>, d: seq<Event>)
    ensures a + (b + c + d) == (a + b + c) + d
    ensures d == [] ==> (a + b + c) + d == a + b + c
  {
  }

  /** Every execution of the block, with signals anywhere, is a stretch of a run. */
  lemma {:induction false} PassIsRun(evs: seq<Event>, arrivals: seq<seq<Signal>>)
    ensures Run(evs + PassEvents(Run(evs), arrivals)) == Pass(Run(evs), arrivals)
    decreases |arrivals|
  {
    if arrivals == [] {
      assert evs + PassEvents(Run(evs), arrivals) == evs;
    } else {
      var head := Arrivals(arrivals[0]);
      RunArrivals(evs, arrivals[0]);
      RunSnoc(evs + head, Advances);
      var evs' := evs + head + [Advances];
      var t := Run(evs');
      var rest := if t.pc == TestOff then [] else PassEvents(t, arrivals[1..]);
      AppendEvents(evs, head, [Advances], rest);
      if t.pc != TestOff {
        PassIsRun(evs', arrivals[1..]);
      }
    }
  }

  predicate Drained(s: Water)
  {
    !s.on && !s.off && (s.pc == TestOff || s.pc == TestOn)
  }

  /** The last command written. */
  function InForce(s: Water): Option<char>
  {
    if s.sent == "" then None else Some(s.sent[|s.sent| - 1])
  }

  /** What holds at each statement: a branch was entered on a flag that is still set, and past a write that
      write is the last. */
  predicate Coherent(s: Water)
  {
    && (s.pc == WriteOff || s.pc == ClearOff ==> s.off)
    && (s.pc == ClearOff || s.pc == ClearOnToo ==> InForce(s) == Some('w'))
    && (s.pc == WriteOn || s.pc == ClearOn ==> s.on)
    && (s.pc == ClearOn ==> InForce(s) == Some('W'))
  }

  lemma {:induction false} RunCoherent(evs: seq<Event>)
    ensures Coherent(Run(evs))
  {
    if evs != [] {
      RunCoherent(evs[..|evs| - 1]);
    }
  }

  // ---------- Draining ----------

  function Undisturbed(s: Water, n: nat): Water
    decreases n
  {
    if n == 0 then s else Undisturbed(Advance(s), n - 1)
  }

  /** The number of statements until the flags are drained, if no signal arrives. */
  function Remaining(s: Water): nat
  {
    var again := if s.off then 4 else 0;
    match s.pc
    case TestOff => if s.off || s.on then 4 else 0
    case WriteOff => 3
    case ClearOff => 2
    case ClearOnToo => 1 + again
    case TestOn => if s.on then 3 + again else if s.off then 1 + again else 0
    case WriteOn => 2 + again
    case ClearOn => 1 + again
  }

  /** The command that will be in force: off wins over on, also over an on that arrives while off is being
      carried out. */
  function Verdict(s: Water): Option<char>
  {
    if s.off || s.pc == ClearOnToo then Some('w')
    else if s.on then Some('W')
    else InForce(s)
  }

  /** Left alone, the loop drains its flags in `Remaining` statements, at most 7, and the command then in
      force is the verdict. */
  lemma {:induction false} Settles(s: Water)
    requires Coherent(s)
    ensures Remaining(s) <= 7
    ensures Drained(Undisturbed(s, Remaining(s)))
    ensures InForce(Undisturbed(s, Remaining(s))) == Verdict(s)
    decreases Remaining(s)
  {
    if Remaining(s) > 0 {
      var t := Advance(s);
      assert Remaining(t) == Remaining(s) - 1;
      assert Verdict(t) == Verdict(s);
      Settles(t);
    }
  }

  // ---------- Off is never lost ----------

  function LastSignal(evs: seq<Event>): Option<Signal>
  {
    if evs == [] then None
    else
      match evs[|evs| - 1]
      case Arrives(signal) => Some(signal)
      case Advances => LastSignal(evs[..|evs| - 1])
  }

  /** As long as SIGUSR2 is the last signal, off is the command that is or will be in force, wherever the loop
      was when the signal arrived. */
  lemma {:induction false} OffPrevails(evs: seq<Event>)
    requires LastSignal(evs) == Some(Usr2)
    ensures Verdict(Run(evs)) == Some('w')
  {
    RunCoherent(evs[..|evs| - 1]);
    match evs[|evs| - 1]
    case Arrives(signal) =>
    case Advances =>
      OffPrevails(evs[..|evs| - 1]);
  }

  /** So once the flags are drained, the last byte written is 'w'. */
  lemma OffNeverLost(evs: seq<Event>)
    requires LastSignal(evs) == Some(Usr2) && Drained(Run(evs))
    ensures InForce(Run(evs)) == Some('w')
  {
    OffPrevails(evs);
  }

  /** A SIGUSR1, once drained with no signal after it, has turned the water on exactly when it did not arrive
      while an off was pending or being carried out. */
  lemma OnPrevailsIff(evs: seq<Event>)
    ensures var s := Run(evs + [Arrives(Usr1)]);
            (InForce(Undisturbed(s, Remaining(s))) == Some('W')) <==> !Run(evs).off && Run(evs).pc != ClearOnToo
  {
    assert (evs + [Arrives(Usr1)])[..|evs|] == evs;
    RunCoherent(evs + [Arrives(Usr1)]);
    Settles(Run(evs + [Arrives(Usr1)]));
  }

  // ---------- Every on is asked for ----------

  function Arrived(evs: seq<Event>, signal: Signal): nat
  {
    if evs == [] then 0
    else Arrived(evs[..|evs| - 1], signal) + if evs[|evs| - 1] == Arrives(signal) then 1 else 0
  }

  function Sent(s: string, c: char): nat
  {
    if s == "" then 0 else Sent(s[..|s| - 1], c) + if s[|s| - 1] == c then 1 else 0
  }

  predicate ClearsOn(s: Water)
  {
    s.pc == ClearOnToo || s.pc == ClearOn
  }

  /** The SIGUSR1s since `water_on` was last cleared. */
  function AskedSinceCleared(evs: seq<Event>): nat
  {
    if evs == [] then 0
    else
      var before := evs[..|evs| - 1];
      match evs[|evs| - 1]
      case Arrives(signal) => AskedSinceCleared(before) + if signal == Usr1 then 1 else 0
      case Advances => if ClearsOn(Run(before)) then 0 else AskedSinceCleared(before)
  }

  /** Whenever 'W' is about to be written, a SIGUSR1 has arrived since water_on was last cleared. */
  lemma {:induction false} OnIsAskedFor(evs: seq<Event>)
    ensures Run(evs).on <==> AskedSinceCleared(evs) > 0
    ensures Run(evs).pc == WriteOn ==> AskedSinceCleared(evs) > 0
  {
    RunCoherent(evs);
    if evs != [] {
      OnIsAskedFor(evs[..|evs| - 1]);
    }
  }

  lemma SentSnoc(s: string, c: char, d: char)
    ensures Sent(s + [d], c) == Sent(s, c) + if d == c then 1 else 0
  {
    assert (s + [d])[..|s|] == s;
  }

  /** Never more 'W's than SIGUSR1s; one is still unspent while water_on is set and not yet written. */
  lemma {:induction false} OnsBounded(evs: seq<Event>)
    ensures var s := Run(evs);
            Sent(s.sent, 'W') + (if s.on && s.pc != ClearOn then 1 else 0) <= Arrived(evs, Usr1)
  {
    if evs != [] {
      var s := Run(evs[..|evs| - 1]);
      OnsBounded(evs[..|evs| - 1]);
      RunCoherent(evs[..|evs| - 1]);
      SentSnoc(s.sent, 'W', 'w');
      SentSnoc(s.sent, 'W', 'W');
    }
  }
}
