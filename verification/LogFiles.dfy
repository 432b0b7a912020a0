/** The hourly log writer and pulse counter of common/mlogger.c.
    A log file is named by the UTC date and hour of the time it is opened; the model names it by the
    number of that hour since the epoch.  What the clock and open() answer during the k-th call of
    process_line is the k-th `Tick` of an environment. */
module LogFiles {
  import opened Text

  /** `leftover` is the byte left on the stack that process_line reads after the end of its line. */
  datatype Tick = Tick(now: nat, openOk: bool, leftover: char)

  type Env = nat -> Tick

  /** `OpenFailed`: process_line returned 3.  `Aborted`: its length assertion failed. */
  datatype Status = Running | OpenFailed | Aborted

  datatype Log = Log(expiresAt: int, fd: Option<nat>, files: map<int, string>,
                     counter: nat, fpCounter: nat, watts: int, status: Status)

  function InitLog(files: map<int, string>): Log
  {
    Log(-1, None, files, 0, 0, 0, Running)
  }

  function HourOf(t: nat): nat
  {
    t / 3600
  }

  function ContentOf(files: map<int, string>, h: int): string
  {
    if h in files then files[h] else ""
  }

  /** What process_line writes for one line. */
  function Stamped(now: nat, line: string): string
  {
    Itoa(now) + " " + line
  }

  // ---------- What a line means to the counter ----------

  function TypeToken(line: string): Option<string>
  {
    var toks := Tokens(line);
    if |toks| > 1 then Some(toks[1]) else None
  }

  function DataToken(line: string): Option<string>
  {
    var toks := Tokens(line);
    if |toks| > 2 then Some(toks[2]) else None
  }

  predicate TypeStarts(line: string, tag: string)
  {
    TypeToken(line).Some? && HasPrefix(TypeToken(line).value, tag)
  }

  predicate CountsPulse(line: string)
  {
    TypeStarts(line, "PULSE")
  }

  predicate CountsFalsePulse(line: string)
  {
    !CountsPulse(line) && TypeStarts(line, "FP_PULSE")
  }

  predicate SetsWatts(line: string)
  {
    !CountsPulse(line) && !CountsFalsePulse(line) && TypeStarts(line, "LDR") && DataToken(line).Some?
  }

  /** The value of an LDR line that is followed by a leftover byte. */
  function WattsOf(line: string, leftover: char): int
  {
    var data := DataToken(line + [leftover]);
    if data.Some? then Atoi(data.value) else 0
  }

  const MAX_LOGGED := 1022

  // ---------- The leftover byte ----------

  /** It can only lengthen the last token, behind the newline. */
  lemma LeftoverIsLast(line: string, c: char)
    requires IsLine(line)
    ensures var was, toks := Tokens(line), Tokens(line + [c]);
            toks == was
            || (&& '\0' !in line && was != [] && was[|was| - 1] != ""
                && was[|was| - 1][|was[|was| - 1]| - 1] == '\n'
                && toks == was[..|was| - 1] + [was[|was| - 1] + [c]])
    ensures c == '\0' ==> Tokens(line + [c]) == Tokens(line)
    ensures '\0' !in line && IsDigit(c) ==> Tokens(line + [c]) != Tokens(line)
  {
    if '\0' in line {
      UpToNulStays(line, [c]);
    } else if c == '\0' {
      UpToNulOf(line, "");
      UpToNulFree(line);
      assert line + ['\0'] + "" == line + [c];
    } else {
      UpToNulFree(line);
      UpToNulFree(line + [c]);
      SplitOnSnoc(line, c, ' ');
      var p := SplitOn(line, ' ');
      var n := |p| - 1;
      LastField(line, ' ');
      assert p == p[..n] + [p[n]];
      NonEmptySnoc(p[..n], p[n]);
      if c == ' ' {
        NonEmptySnoc(p, "");
      } else {
        NonEmptySnoc(p[..n], p[n] + [c]);
      }
    }
  }

  /** So the tags are found or not whatever it is. */
  lemma LeftoverTokens(line: string, c: char)
    requires IsLine(line)
    ensures var toks := Tokens(line + [c]);
            && (|toks| > 1 <==> TypeToken(line).Some?)
            && (|toks| > 2 <==> DataToken(line).Some?)
            && (|toks| > 1 ==>
                  && (HasPrefix(toks[1], "PULSE") <==> TypeStarts(line, "PULSE"))
                  && (HasPrefix(toks[1], "FP_PULSE") <==> TypeStarts(line, "FP_PULSE"))
                  && (HasPrefix(toks[1], "LDR") <==> TypeStarts(line, "LDR")))
  {
    LeftoverIsLast(line, c);
    var was := Tokens(line);
    if |was| == 2 {
      EndKeepsPrefix(was[1], c, "PULSE");
      EndKeepsPrefix(was[1], c, "FP_PULSE");
      EndKeepsPrefix(was[1], c, "LDR");
    }
  }

  lemma EndKeepsPrefix(token: string, c: char, tag: string)
    requires '\n' !in tag
    ensures token != "" && token[|token| - 1] == '\n' ==> (HasPrefix(token + [c], tag) <==> HasPrefix(token, tag))
  {
    if token != "" && token[|token| - 1] == '\n' {
      var word := token[..|token| - 1];
      PrefixStops(tag, word, ['\n']);
      PrefixStops(tag, word, ['\n', c]);
      assert word + ['\n'] == token && word + ['\n', c] == token + [c];
    }
  }

  /** A line whose value is the line end. */
  predicate Blank(line: string)
  {
    '\0' !in line && |Tokens(line)| == 3 && AllSpace(Tokens(line)[2])
  }

  /** What an LDR line sets watts to depends on the leftover byte if and only if its value is the line end;
      otherwise it is the number its third token starts with. */
  lemma LeftoverShowsIff(line: string)
    requires IsLine(line) && SetsWatts(line)
    ensures (exists c :: WattsOf(line, c) != Atoi(DataToken(line).value)) <==> Blank(line)
  {
    var was := Tokens(line);
    if Blank(line) {
      LeftoverIsLast(line, '5');
      AtoiSkips(was[2], '5');
      assert WattsOf(line, '5') != Atoi(DataToken(line).value);
    } else {
      forall c
        ensures WattsOf(line, c) == Atoi(DataToken(line).value)
      {
        LeftoverIsLast(line, c);
        if Tokens(line + [c]) != was && |was| == 3 {
          AtoiEnds(was[2], c);
        }
      }
    }
  }

  // ---------- Specification of one call ----------

  function Opened(log: Log, tick: Tick): Log
  {
    if !tick.openOk then log.(fd := None, status := OpenFailed)
    else log.(fd := Some(HourOf(tick.now)),
              files := log.files[HourOf(tick.now) := ContentOf(log.files, HourOf(tick.now))],
              expiresAt := 3600 * HourOf(tick.now) + 3599)
  }

  function Rotated(log: Log, tick: Tick): Log
  {
    if log.expiresAt != -1 && tick.now <= log.expiresAt then log else Opened(log, tick)
  }

  function Appended(log: Log, text: string): Log
    requires log.fd.Some?
  {
    log.(files := log.files[log.fd.value := ContentOf(log.files, log.fd.value) + text])
  }

  function Counted(log: Log, line: string, leftover: char): Log
  {
    if CountsPulse(line) then log.(counter := log.counter + 1)
    else if CountsFalsePulse(line) then log.(fpCounter := log.fpCounter + 1)
    else if SetsWatts(line) then log.(watts := WattsOf(line, leftover))
    else log
  }

  ghost predicate WellFormed(log: Log)
  {
    log.status == Running ==>
      if log.expiresAt == -1 then log.fd == None
      else log.fd.Some? && log.expiresAt == 3600 * log.fd.value + 3599 && log.fd.value in log.files
  }

  function LogStep(log: Log, tick: Tick, line: string): Log
    requires WellFormed(log)
    ensures WellFormed(LogStep(log, tick, line))
  {
    if log.status != Running then log
    else
      var l := Rotated(log, tick);
      if l.status != Running then l
      else
        var a := Appended(l, Stamped(tick.now, line));
        if |line| > MAX_LOGGED then a.(status := Aborted) else Counted(a, line, tick.leftover)
  }

  /** The log after process_line has been called on each of `lines`; nothing is called after a failure. */
  function LogRun(env: Env, files: map<int, string>, lines: seq<string>): (log: Log)
    ensures WellFormed(log)
  {
    if lines == [] then InitLog(files)
    else LogStep(LogRun(env, files, lines[..|lines| - 1]), env(|lines| - 1), lines[|lines| - 1])
  }

  lemma LogRunSnoc(env: Env, files: map<int, string>, lines: seq<string>, line: string)
    ensures LogRun(env, files, lines + [line]) == LogStep(LogRun(env, files, lines), env(|lines|), line)
  {
    assert (lines + [line])[..|lines|] == lines;
  }

  /** A failure is final: whatever would have followed leaves no trace. */
  lemma {:induction false} FailureIsFinal(env: Env, files: map<int, string>, lines: seq<string>, all: seq<string>)
    requires lines <= all && LogRun(env, files, lines).status != Running
    ensures LogRun(env, files, all) == LogRun(env, files, lines)
    decreases |all|
  {
    if lines != all {
      FailureIsFinal(env, files, lines, all[..|all| - 1]);
    }
  }

  /** When a call survives, and what it does to the open file. */
  lemma StepOutcome(log: Log, tick: Tick, line: string)
    requires WellFormed(log) && log.status == Running
    ensures LogStep(log, tick, line).status == Running <==>
            |line| <= MAX_LOGGED && (tick.openOk || (log.expiresAt != -1 && tick.now <= log.expiresAt))
    ensures LogStep(log, tick, line).status == Running ==>
              var l := Rotated(log, tick);
              && l.fd.Some?
              && LogStep(log, tick, line).fd == l.fd
              && LogStep(log, tick, line).expiresAt == l.expiresAt
              && LogStep(log, tick, line).files == Appended(l, Stamped(tick.now, line)).files
  {
  }

  /** What a surviving call does to the counters. */
  lemma StepCounts(log: Log, tick: Tick, line: string)
    requires WellFormed(log) && LogStep(log, tick, line).status == Running
    ensures var after := LogStep(log, tick, line);
            && after.counter == log.counter + (if CountsPulse(line) then 1 else 0)
            && after.fpCounter == log.fpCounter + (if CountsFalsePulse(line) then 1 else 0)
            && after.watts == (if SetsWatts(line) then WattsOf(line, tick.leftover) else log.watts)
  {
  }

  /** Seconds and minutes to go make up the rest of the hour. */
  lemma EndOfHour(now: nat)
    ensures now + (59 - now % 60) + 60 * (59 - now / 60 % 60) == 3600 * HourOf(now) + 3599
  {
    var min := now / 60;
    assert now == 60 * min + now % 60 && min == 60 * (min / 60) + min % 60;
    assert now == 3600 * (min / 60) + (60 * (min % 60) + now % 60);
  }

  // ---------- The writer itself ----------

  class LogWriter {
    var expiresAt: int
    var fd: Option<nat>
    var files: map<int, string>
    var counter: nat
    var fpCounter: nat
    var watts: int
    var status: Status

    function State(): Log
      reads this
    {
      Log(expiresAt, fd, files, counter, fpCounter, watts, status)
    }

    constructor (files: map<int, string>)
      ensures State() == InitLog(files)
    {
      expiresAt, fd, this.files := -1, None, files;
      counter, fpCounter, watts, status := 0, 0, 0, Running;
    }

    method CreateLogfile(tick: Tick) returns (ok: bool)
      modifies this
      ensures State() == Opened(old(State()), tick)
      ensures ok == tick.openOk
    {
      var sec := tick.now % 60;
      var min := tick.now / 60 % 60;
      if !tick.openOk {
        fd, status := None, OpenFailed;
        return false;
      }
      var name := tick.now / 3600;
      if name !in files {
        files := files[name := ""];
      }
      EndOfHour(tick.now);
      fd := Some(name);
      expiresAt := tick.now + (59 - sec) + 60 * (59 - min);
      return true;
    }

    method CheckLogfile(tick: Tick) returns (ok: bool)
      requires status == Running
      modifies this
      ensures State() == Rotated(old(State()), tick)
      ensures ok == (status == Running)
    {
      if expiresAt == -1 {
        ok := CreateLogfile(tick);
      } else if tick.now <= expiresAt {
        ok := true;
      } else {
        ok := CreateLogfile(tick);
      }
    }

    method ProcessLine(line: string, tick: Tick)
      requires WellFormed(State()) && status == Running && IsLine(line)
      modifies this
      ensures State() == LogStep(old(State()), tick, line)
    {
      var ok := CheckLogfile(tick);
      if !ok {
        return;
      }
      files := files[fd.value := files[fd.value] + Itoa(tick.now) + " "];
      files := files[fd.value := files[fd.value] + line];
      assert State().files == Appended(Rotated(old(State()), tick), Stamped(tick.now, line)).files by {
        var was := ContentOf(Rotated(old(State()), tick).files, fd.value);
        assert was + Itoa(tick.now) + " " + line == was + (Itoa(tick.now) + " " + line);
      }
      if !(|line| < 1023) {
        status := Aborted;
        return;
      }
      Count(line, tick.leftover);
    }

    /** The counters' part of process_line. */
    method Count(line: string, leftover: char)
      requires IsLine(line)
      modifies this
      ensures State() == Counted(old(State()), line, leftover)
    {
      var toks := Tokens(line + [leftover]);
      LeftoverTokens(line, leftover);
      if |toks| > 1 && HasPrefix(toks[1], "PULSE") {
        counter := counter + 1;
      } else if |toks| > 1 && HasPrefix(toks[1], "FP_PULSE") {
        fpCounter := fpCounter + 1;
      } else if |toks| > 1 && HasPrefix(toks[1], "LDR") {
        if |toks| > 2 {
          watts := Atoi(toks[2]);
        }
      }
    }
  }

  // ---------- Where lines land ----------

  /** The latest clock reading among the first n calls. */
  function MaxNow(env: Env, n: nat): nat
    requires n > 0
  {
    if n == 1 || env(n - 1).now >= MaxNow(env, n - 1) then env(n - 1).now else MaxNow(env, n - 1)
  }

  /** The hours the clock shows never go back (the clock may, within an hour). */
  ghost predicate HoursMonotone(env: Env, n: nat)
  {
    forall i, j :: 0 <= i <= j < n ==> HourOf(env(i).now) <= HourOf(env(j).now)
  }

  /** The open file is the one of the latest hour seen, whatever the clock does in between. */
  lemma {:induction false} OpenFileIsLatestHour(env: Env, files: map<int, string>, lines: seq<string>)
    requires lines != [] && LogRun(env, files, lines).status == Running
    ensures LogRun(env, files, lines).fd == Some(HourOf(MaxNow(env, |lines|)))
    ensures LogRun(env, files, lines).expiresAt == 3600 * HourOf(MaxNow(env, |lines|)) + 3599
  {
    var n := |lines| - 1;
    var before := LogRun(env, files, lines[..n]);
    assert before.status == Running;
    StepOutcome(before, env(n), lines[n]);
    if n > 0 {
      OpenFileIsLatestHour(env, files, lines[..n]);
      LaterHour(env(n).now, MaxNow(env, n));
    }
  }

  lemma LaterHour(t: nat, m: nat)
    ensures t <= 3600 * HourOf(m) + 3599 <==> HourOf(t) <= HourOf(m)
    ensures t >= m ==> HourOf(t) >= HourOf(m)
  {
  }

  /** The i-th line went to the file of the hour it is stamped with. */
  ghost predicate LandsRight(env: Env, files: map<int, string>, lines: seq<string>, i: nat)
    requires i < |lines|
  {
    LogRun(env, files, lines[..i + 1]).fd == Some(HourOf(env(i).now))
  }

  /** Hence every line lands in the file of its own hour exactly when the hours never go back. */
  lemma LandsInOwnHourIff(env: Env, files: map<int, string>, lines: seq<string>)
    requires LogRun(env, files, lines).status == Running
    ensures (forall i :: 0 <= i < |lines| ==> LandsRight(env, files, lines, i))
            <==> HoursMonotone(env, |lines|)
  {
    forall i | 0 <= i < |lines|
      ensures LandsRight(env, files, lines, i) <==> HourOf(MaxNow(env, i + 1)) == HourOf(env(i).now)
    {
      var some := lines[..i + 1];
      if LogRun(env, files, some).status != Running {
        FailureIsFinal(env, files, some, lines);
      }
      OpenFileIsLatestHour(env, files, some);
    }
    MaxHourIff(env, |lines|);
  }

  lemma MaxHourIff(env: Env, n: nat)
    ensures (forall i :: 0 <= i < n ==> HourOf(MaxNow(env, i + 1)) == HourOf(env(i).now)) <==> HoursMonotone(env, n)
  {
    if forall i :: 0 <= i < n ==> HourOf(MaxNow(env, i + 1)) == HourOf(env(i).now) {
      forall i, j | 0 <= i <= j < n
        ensures HourOf(env(i).now) <= HourOf(env(j).now)
      {
        MaxHourBounds(env, j + 1, i);
      }
    }
    if HoursMonotone(env, n) {
      forall i | 0 <= i < n
        ensures HourOf(MaxNow(env, i + 1)) == HourOf(env(i).now)
      {
        MaxHourBounds(env, i + 1, i);
        MaxHourAttained(env, i + 1, n);
      }
    }
  }

  lemma MaxHourBounds(env: Env, n: nat, i: nat)
    requires i < n
    ensures HourOf(env(i).now) <= HourOf(MaxNow(env, n))
  {
    MaxNowBounds(env, n, i);
    LaterHour(MaxNow(env, n), env(i).now);
  }

  lemma MaxHourAttained(env: Env, k: nat, n: nat)
    requires HoursMonotone(env, n) && 0 < k <= n
    ensures HourOf(MaxNow(env, k)) <= HourOf(env(k - 1).now)
  {
    var top := MaxNowAttained(env, k);
    assert HourOf(env(top).now) <= HourOf(env(k - 1).now);
  }

  lemma {:induction false} MaxNowBounds(env: Env, n: nat, i: nat)
    requires i < n
    ensures env(i).now <= MaxNow(env, n)
  {
    if i < n - 1 {
      MaxNowBounds(env, n - 1, i);
    }
  }

  lemma {:induction false} MaxNowAttained(env: Env, n: nat) returns (i: nat)
    requires n > 0
    ensures i < n && env(i).now == MaxNow(env, n)
  {
    if n == 1 || env(n - 1).now >= MaxNow(env, n - 1) {
      i := n - 1;
    } else {
      i := MaxNowAttained(env, n - 1);
    }
  }

  /** What the first |lines| calls wrote into the file of hour h, when each line lands in its own hour. */
  function WrittenIn(env: Env, lines: seq<string>, h: int): string
  {
    if lines == [] then ""
    else
      var n := |lines| - 1;
      var before := WrittenIn(env, lines[..n], h);
      if HourOf(env(n).now) == h then before + Stamped(env(n).now, lines[n]) else before
  }

  /** Rotation loses nothing and misplaces nothing: each hourly file holds what it held before, then the
      stamped lines of its hour in order. */
  lemma {:induction false} FilesHoldTheirHours(env: Env, files: map<int, string>, lines: seq<string>, h: int)
    requires LogRun(env, files, lines).status == Running && HoursMonotone(env, |lines|)
    ensures ContentOf(LogRun(env, files, lines).files, h) == ContentOf(files, h) + WrittenIn(env, lines, h)
  {
    if lines != [] {
      var n := |lines| - 1;
      var before := LogRun(env, files, lines[..n]);
      assert before.status == Running;
      FilesHoldTheirHours(env, files, lines[..n], h);
      LastLandsInItsHour(env, files, lines);
      StepFiles(before, env(n), lines[n], h);
      AppendAssoc(ContentOf(files, h), WrittenIn(env, lines[..n], h), Stamped(env(n).now, lines[n]));
    }
  }

  /** A file exists exactly when it did before or its hour got a line. */
  lemma {:induction false} FileExistsIff(env: Env, files: map<int, string>, lines: seq<string>, h: int)
    requires LogRun(env, files, lines).status == Running && HoursMonotone(env, |lines|)
    ensures h in LogRun(env, files, lines).files <==>
            h in files || exists i :: 0 <= i < |lines| && HourOf(env(i).now) == h
  {
    if lines != [] {
      var n := |lines| - 1;
      var before := LogRun(env, files, lines[..n]);
      assert before.status == Running;
      FileExistsIff(env, files, lines[..n], h);
      LastLandsInItsHour(env, files, lines);
      StepFiles(before, env(n), lines[n], h);
    }
  }

  lemma LastLandsInItsHour(env: Env, files: map<int, string>, lines: seq<string>)
    requires lines != [] && LogRun(env, files, lines).status == Running && HoursMonotone(env, |lines|)
    ensures LogRun(env, files, lines).fd == Some(HourOf(env(|lines| - 1).now))
  {
    var n := |lines| - 1;
    LandsInOwnHourIff(env, files, lines);
    assert lines[..n + 1] == lines;
    assert LandsRight(env, files, lines, n);
  }

  lemma StepFiles(log: Log, tick: Tick, line: string, h: int)
    requires WellFormed(log) && log.status == Running && LogStep(log, tick, line).status == Running
    requires LogStep(log, tick, line).fd == Some(HourOf(tick.now))
    ensures ContentOf(LogStep(log, tick, line).files, h) ==
            if HourOf(tick.now) == h then ContentOf(log.files, h) + Stamped(tick.now, line) else ContentOf(log.files, h)
    ensures h in LogStep(log, tick, line).files <==> h in log.files || HourOf(tick.now) == h
  {
    StepOutcome(log, tick, line);
  }

  // ---------- What the counters mean ----------

  function CountLines(lines: seq<string>, p: string -> bool): nat
  {
    if lines == [] then 0
    else CountLines(lines[..|lines| - 1], p) + if p(lines[|lines| - 1]) then 1 else 0
  }

  /** The value of the last LDR line. */
  function LastWatts(env: Env, lines: seq<string>): int
  {
    if lines == [] then 0
    else
      var n := |lines| - 1;
      if SetsWatts(lines[n]) then WattsOf(lines[n], env(n).leftover) else LastWatts(env, lines[..n])
  }

  lemma {:induction false} CountersCount(env: Env, files: map<int, string>, lines: seq<string>)
    requires LogRun(env, files, lines).status == Running
    ensures var log := LogRun(env, files, lines);
            && log.counter == CountLines(lines, CountsPulse)
            && log.fpCounter == CountLines(lines, CountsFalsePulse)
            && log.watts == LastWatts(env, lines)
  {
    if lines != [] {
      var n := |lines| - 1;
      var before := LogRun(env, files, lines[..n]);
      assert before.status == Running;
      CountersCount(env, files, lines[..n]);
      StepCounts(before, env(n), lines[n]);
    }
  }

  /** A call the process outlives: the line is short enough, and a file is open for it or can be opened. */
  ghost predicate Survives(env: Env, lines: seq<string>, i: nat)
    requires i < |lines|
  {
    && |lines[i]| <= MAX_LOGGED
    && (env(i).openOk || (i > 0 && HourOf(env(i).now) <= HourOf(MaxNow(env, i))))
  }

  ghost predicate AllSurvive(env: Env, lines: seq<string>)
  {
    forall i :: 0 <= i < |lines| ==> Survives(env, lines, i)
  }

  /** The process outlives the lines exactly when every needed open succeeds and no line is too long. */
  lemma {:induction false} RunningIff(env: Env, files: map<int, string>, lines: seq<string>)
    ensures LogRun(env, files, lines).status == Running <==>
            AllSurvive(env, lines)
  {
    if lines != [] {
      var n := |lines| - 1;
      var init := lines[..n];
      RunningIff(env, files, init);
      LastSurvives(env, files, lines);
      AllSurviveSnoc(env, lines);
    }
  }

  lemma AllSurviveSnoc(env: Env, lines: seq<string>)
    requires lines != []
    ensures var n := |lines| - 1;
            AllSurvive(env, lines) <==> AllSurvive(env, lines[..n]) && Survives(env, lines, n)
  {
    var n := |lines| - 1;
    if AllSurvive(env, lines[..n]) && Survives(env, lines, n) {
      forall i | 0 <= i < |lines|
        ensures Survives(env, lines, i)
      {
        if i < n {
          assert Survives(env, lines[..n], i);
        }
      }
    }
    if AllSurvive(env, lines) {
      forall i | 0 <= i < n
        ensures Survives(env, lines[..n], i)
      {
        assert Survives(env, lines, i);
      }
    }
  }

  lemma LastSurvives(env: Env, files: map<int, string>, lines: seq<string>)
    requires lines != []
    ensures LogRun(env, files, lines).status == Running <==>
            LogRun(env, files, lines[..|lines| - 1]).status == Running && Survives(env, lines, |lines| - 1)
  {
    var n := |lines| - 1;
    var before := LogRun(env, files, lines[..n]);
    if before.status == Running {
      StepOutcome(before, env(n), lines[n]);
      if n > 0 {
        OpenFileIsLatestHour(env, files, lines[..n]);
        LaterHour(env(n).now, MaxNow(env, n));
      }
    }
  }
}
