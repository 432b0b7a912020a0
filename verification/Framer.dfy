/** The serial framer of common/mlogger.c: a fixed buffer filled by reads of any size, cut at newlines,
    and switched to discarding when a line does not fit.  The same loop stands in common/jeelogger.c. */
module Framer {
  import opened Text
  import opened LogFiles

  const BUFSIZE := 1024

  /** What read() gives: some bytes (none at end of input), or -1. */
  datatype ReadResult = Data(bytes: string) | ReadError

  datatype Outcome = Continue | Eof | Failed

  // ---------- Specification: the whole stream, split at once ----------

  function Kept(lines: seq<string>): seq<string>
  {
    if lines == [] then []
    else
      var l := lines[|lines| - 1];
      Kept(lines[..|lines| - 1]) + if |l| <= BUFSIZE then [l] else []
  }

  /** The lines of a stream that are handed to process_line. */
  function Delivered(stream: string): seq<string>
  {
    Kept(SplitLines(stream).lines)
  }

  function Tail(stream: string): string
  {
    SplitLines(stream).tail
  }

  lemma KeptSnoc(lines: seq<string>, l: string)
    ensures Kept(lines + [l]) == Kept(lines) + if |l| <= BUFSIZE then [l] else []
  {
    assert (lines + [l])[..|lines|] == lines;
  }

  lemma {:induction false} KeptPrefix(a: seq<string>, b: seq<string>)
    requires a <= b
    ensures Kept(a) <= Kept(b)
  {
    if a != b {
      KeptPrefix(a, b[..|b| - 1]);
    }
  }

  lemma DeliveredPrefix(s: string, x: string)
    ensures Delivered(s) <= Delivered(s + x)
  {
    SplitPrefix(s, x);
    KeptPrefix(SplitLines(s).lines, SplitLines(s + x).lines);
  }

  /** Nothing but what fits the buffer is kept, and all of that is, in order. */
  lemma {:induction false} KeptAll(lines: seq<string>)
    requires forall i :: 0 <= i < |lines| ==> |lines[i]| <= BUFSIZE
    ensures Kept(lines) == lines
  {
    if lines != [] {
      var init, l := lines[..|lines| - 1], lines[|lines| - 1];
      KeptAll(init);
      KeptSnoc(init, l);
      assert lines == init + [l];
    }
  }

  lemma {:induction false} KeptMembers(lines: seq<string>, l: string)
    ensures l in Kept(lines) <==> l in lines && |l| <= BUFSIZE
  {
    if lines != [] {
      KeptMembers(lines[..|lines| - 1], l);
      assert lines == lines[..|lines| - 1] + [lines[|lines| - 1]];
    }
  }

  /** However a stream was made of lines, exactly those that fit the buffer are delivered. */
  lemma DeliveredOf(ls: seq<string>, t: string)
    requires AllLines(ls) && '\n' !in t
    ensures Delivered(Concat(ls) + t) == Kept(ls) && Tail(Concat(ls) + t) == t
  {
    SplitUnique(ls, t);
  }

  /** The length assertion in process_line is weaker than the framer's promise: with every open
      succeeding, the process aborts exactly on a line of 1023 or 1024 bytes. */
  lemma AbortsIff(env: Env, files: map<int, string>, stream: string)
    requires forall i :: 0 <= i < |Delivered(stream)| ==> env(i).openOk
    ensures LogRun(env, files, Delivered(stream)).status != Running <==>
            exists l :: l in SplitLines(stream).lines && MAX_LOGGED < |l| <= BUFSIZE
  {
    var ls := Delivered(stream);
    RunningIff(env, files, ls);
    if l :| l in SplitLines(stream).lines && MAX_LOGGED < |l| <= BUFSIZE {
      KeptMembers(SplitLines(stream).lines, l);
      var i :| 0 <= i < |ls| && ls[i] == l;
      assert !Survives(env, ls, i);
    }
    if LogRun(env, files, ls).status != Running {
      var i :| 0 <= i < |ls| && !Survives(env, ls, i);
      KeptMembers(SplitLines(stream).lines, ls[i]);
    }
  }

  /** For instance on the single line of 1023 bytes. */
  lemma LongLineAborts(env: Env, files: map<int, string>)
    requires env(0).openOk
    ensures var line := seq(1022, _ => 'x') + "\n";
            |line| == 1023 && Delivered(line) == [line] && LogRun(env, files, Delivered(line)).status == Aborted
  {
    var line := seq(1022, _ => 'x') + "\n";
    assert line[..|line| - 1] == seq(1022, _ => 'x');
    assert IsLine(line);
    OneLine(line);
    assert [line][..0] == [];
  }

  /** One byte less, and it survives; two bytes more, and the line is dropped. */
  lemma NextToLongLines(env: Env, files: map<int, string>)
    requires env(0).openOk
    ensures var line := seq(1021, _ => 'x') + "\n";
            |line| == 1022 && Delivered(line) == [line] && LogRun(env, files, Delivered(line)).status == Running
    ensures var line := seq(1024, _ => 'x') + "\n";
            |line| == 1025 && Delivered(line) == []
  {
    var short, long := seq(1021, _ => 'x') + "\n", seq(1024, _ => 'x') + "\n";
    assert short[..|short| - 1] == seq(1021, _ => 'x');
    assert long[..|long| - 1] == seq(1024, _ => 'x');
    OneLine(short);
    NoLine(long);
    assert [short][..0] == [];
  }

  lemma NoLine(line: string)
    requires IsLine(line) && |line| > BUFSIZE
    ensures Delivered(line) == []
  {
    ConcatSnoc([], line);
    AppendEmpty(line);
    assert [] + [line] == [line];
    DeliveredOf([line], "");
    KeptSnoc([], line);
  }

  lemma OneLine(line: string)
    requires IsLine(line) && |line| <= BUFSIZE
    ensures Delivered(line) == [line]
  {
    ConcatSnoc([], line);
    AppendEmpty(line);
    assert [] + [line] == [line];
    DeliveredOf([line], "");
    KeptSnoc([], line);
  }

  // ---------- One line leaving the buffer, on values ----------

  /** How many of the bytes read after `seen` the line ending at `nl` uses up. */
  function Used(seen: string, dropped: nat, nl: nat): int
  {
    nl + 1 - (|Tail(seen)| - dropped)
  }

  /** With the buffer at `content`, its first newline ends the line that `seen` left open; that line is in the
      buffer whole exactly when nothing was dropped, and a line of which something was dropped is too long. */
  lemma NextLine(seen: string, rest: string, dropped: nat, content: string, nl: nat)
    requires dropped % BUFSIZE == 0 && dropped <= |Tail(seen)|
    requires content == Tail(seen)[dropped..] + rest && |content| <= BUFSIZE
    requires nl < |content| && content[nl] == '\n' && '\n' !in content[..nl]
    ensures var k := Used(seen, dropped, nl);
            && 0 < k <= |rest|
            && content[nl + 1..] == rest[k..]
            && seen + rest == (seen + rest[..k]) + rest[k..]
            && Tail(seen + rest[..k]) == ""
            && Delivered(seen + rest[..k]) ==
                 Delivered(seen) + if dropped == 0 then [content[..nl + 1]] else []
  {
    var k := Used(seen, dropped, nl);
    FirstNewlineEndsLine(Tail(seen)[dropped..], rest, seen, dropped, content, nl);
    var x := rest[..k];
    SplitCompletes(seen, x);
    KeptSnoc(SplitLines(seen).lines, Tail(seen) + x);
    assert rest == x + rest[k..];
    assert seen + rest == (seen + x) + rest[k..];
    if dropped == 0 {
      assert Tail(seen)[dropped..] == Tail(seen);
    }
  }

  lemma FirstNewlineEndsLine(t: string, rest: string, seen: string, dropped: nat, content: string, nl: nat)
    requires dropped <= |Tail(seen)| && t == Tail(seen)[dropped..]
    requires content == t + rest
    requires nl < |content| && content[nl] == '\n' && '\n' !in content[..nl]
    ensures var k := nl + 1 - |t|;
            && 0 < k <= |rest|
            && IsLine(rest[..k])
            && content[..nl + 1] == t + rest[..k]
            && content[nl + 1..] == rest[k..]
  {
    SplitSound(seen);
    assert forall i :: 0 <= i < |t| ==> t[i] == Tail(seen)[dropped + i];
    assert nl >= |t|;
    var k := nl + 1 - |t|;
    var x := rest[..k];
    assert x[k - 1] == content[nl];
    assert forall i :: 0 <= i < k - 1 ==> x[i] == content[..nl][|t| + i];
  }

  /** When no newline is left, all bytes read belong to the open line. */
  lemma NoMoreLines(seen: string, rest: string, dropped: nat, content: string)
    requires dropped <= |Tail(seen)|
    requires content == Tail(seen)[dropped..] + rest && '\n' !in content
    ensures Delivered(seen + rest) == Delivered(seen)
    ensures dropped <= |Tail(seen + rest)| && content == Tail(seen + rest)[dropped..]
  {
    assert '\n' !in rest by {
      assert forall i :: 0 <= i < |rest| ==> rest[i] == content[|Tail(seen)| - dropped + i];
    }
    SplitExtend(seen, rest);
  }

  // ---------- The buffer ----------

  /** memchr(buf, '\n', n); -1 for a null result. */
  method FindNewline(buf: array<char>, n: nat) returns (nl: int)
    requires n <= buf.Length
    ensures nl == -1 ==> '\n' !in buf[..n]
    ensures nl != -1 ==> 0 <= nl < n && buf[nl] == '\n' && '\n' !in buf[..nl]
  {
    nl := 0;
    while nl < n
      invariant 0 <= nl <= n
      invariant '\n' !in buf[..nl]
    {
      if buf[nl] == '\n' {
        return;
      }
      nl := nl + 1;
    }
    nl := -1;
  }

  /** memmove(buf, buf + from, n). */
  method MoveDown(buf: array<char>, from: nat, n: nat)
    requires from + n <= buf.Length
    modifies buf
    ensures buf[..n] == old(buf[from..from + n])
  {
    forall k | 0 <= k < n {
      buf[k] := buf[from + k];
    }
  }

  /** What read() does to the buffer. */
  method ReadInto(buf: array<char>, at: nat, bytes: string)
    requires at + |bytes| <= buf.Length
    modifies buf
    ensures buf[..at + |bytes|] == old(buf[..at]) + bytes
  {
    forall k | 0 <= k < |bytes| {
      buf[at + k] := bytes[k];
    }
  }

  class Mlogger {
    const env: Env
    const log: LogWriter
    const buf: array<char>
    var bufp: nat
    var bufbytes: nat
    var valid: bool
    var calls: nat
    ghost const files: map<int, string>
    ghost var consumed: string
    ghost var dropped: nat

    /** `seen` is the stream up to where the scan has come, `rest` the bytes read after it.  The buffer holds
        the unread tail of `seen`, less what discarding dropped, then `rest`. */
    ghost predicate Scanning(seen: string, rest: string)
      reads this, log, buf
    {
      && buf.Length == BUFSIZE
      && bufp == bufbytes <= BUFSIZE
      && dropped % BUFSIZE == 0 && dropped <= |Tail(seen)|
      && (valid <==> dropped == 0)
      && buf[..bufbytes] == Tail(seen)[dropped..] + rest
      && consumed == seen + rest
      && Logged(seen)
    }

    /** process_line has been called on the lines of `seen` so far, and none of the calls failed. */
    ghost predicate Logged(seen: string)
      reads this, log
    {
      && log.State() == LogRun(env, files, Delivered(seen))
      && log.status == Running
      && calls == |Delivered(seen)|
    }

    /** Between polls everything read has been scanned. */
    ghost predicate Valid()
      reads this, log, buf
    {
      && buf.Length == BUFSIZE
      && bufp == bufbytes <= BUFSIZE
      && dropped % BUFSIZE == 0 && dropped <= |Tail(consumed)|
      && (valid <==> dropped == 0)
      && buf[..bufbytes] == Tail(consumed)[dropped..]
      && Logged(consumed)
    }

    function Avail(): nat
      reads this
      requires bufbytes <= BUFSIZE
    {
      if bufbytes == BUFSIZE then BUFSIZE else BUFSIZE - bufbytes
    }

    constructor (env: Env, files: map<int, string>)
      ensures Valid() && consumed == "" && this.env == env && this.files == files
      ensures fresh(log) && fresh(buf)
    {
      this.env, this.files := env, files;
      log := new LogWriter(files);
      buf := new char[BUFSIZE];
      bufp, bufbytes, valid, calls := 0, 0, true, 0;
      consumed, dropped := "", 0;
    }

    /** The call of process_line. */
    method HandOver(line: string, ghost before: seq<string>)
      requires log.State() == LogRun(env, files, before) && log.status == Running
      requires calls == |before| && IsLine(line)
      modifies log, `calls
      ensures log.State() == LogRun(env, files, before + [line])
      ensures calls == |before| + 1
    {
      LogRunSnoc(env, files, before, line);
      log.ProcessLine(line, env(calls));
      calls := calls + 1;
    }

    /** Copy the bytes after the newline back to the start. */
    method Compact(nl: nat)
      requires nl < bufbytes == bufp <= buf.Length
      modifies this, buf
      ensures bufp == bufbytes == old(bufbytes) - (nl + 1)
      ensures buf[..bufbytes] == old(buf[nl + 1..bufbytes])
      ensures valid && dropped == 0
      ensures consumed == old(consumed) && calls == old(calls)
    {
      bufbytes := bufp - (nl + 1);
      MoveDown(buf, nl + 1, bufbytes);
      bufp := bufbytes;
      valid := true;
      dropped := 0;
    }

    /** One pass of the inner loop: the bytes up to the newline at `nl` leave the buffer. */
    method TakeLine(nl: nat, ghost seen: string, ghost rest: string)
      requires Scanning(seen, rest)
      requires nl < bufbytes && buf[nl] == '\n' && '\n' !in buf[..nl]
      modifies this, log, buf
      ensures consumed == old(consumed) && bufbytes < old(bufbytes)
      ensures 0 < Used(seen, old(dropped), nl) <= |rest|
      ensures var k := Used(seen, old(dropped), nl);
              && seen + rest == (seen + rest[..k]) + rest[k..]
              && log.State() == LogRun(env, files, Delivered(seen + rest[..k]))
              && (log.status == Running ==> Scanning(seen + rest[..k], rest[k..]))
    {
      ghost var content := buf[..bufbytes];
      ghost var k := Used(seen, dropped, nl);
      assert content[..nl] == buf[..nl];
      NextLine(seen, rest, dropped, content, nl);
      assert buf[..nl + 1] == content[..nl + 1];
      assert buf[nl + 1..bufbytes] == content[nl + 1..];
      if valid {
        assert content[..nl + 1][..nl] == content[..nl];
        HandOver(buf[..nl + 1], Delivered(seen));
      } else {
        assert Delivered(seen + rest[..k]) == Delivered(seen);
      }
      Compact(nl);
      assert Tail(seen + rest[..k])[dropped..] + rest[k..] == rest[k..];
    }

    /** A full buffer is dropped before the next read. */
    method MakeRoom()
      requires Valid()
      modifies this
      ensures Valid() && consumed == old(consumed)
      ensures bufbytes == (if old(bufbytes) == BUFSIZE then 0 else old(bufbytes))
      ensures bufbytes == |Tail(consumed)| % BUFSIZE
    {
      var avail := BUFSIZE - bufbytes;
      if avail == 0 {
        bufp := 0;
        bufbytes := 0;
        valid := false;
        dropped := dropped + BUFSIZE;
        assert dropped == |Tail(consumed)|;
      }
      assert |Tail(consumed)| == dropped + bufbytes;
    }

    /** One iteration of the main loop up to the water commands. */
    method Poll(input: ReadResult) returns (outcome: Outcome)
      requires Valid()
      requires input.Data? ==> |input.bytes| <= Avail()
      modifies this, log, buf
      ensures consumed == old(consumed) + if input.Data? then input.bytes else ""
      ensures log.State() == LogRun(env, files, Delivered(consumed))
      ensures outcome == Eof <==> input == Data("") && |Tail(old(consumed))| % BUFSIZE == 0
      ensures outcome == Failed <==> log.status != Running
      ensures outcome != Failed ==> Valid()
    {
      MakeRoom();
      AppendEmpty(consumed);
      if input.ReadError? {
        return Continue;
      }
      var n := |input.bytes|;
      if n == 0 && bufbytes == 0 {
        return Eof;
      }
      Append(input.bytes);
      outcome := Drain(old(consumed), input.bytes);
    }

    /** What was read joins the buffer. */
    method Append(bytes: string)
      requires Valid() && bufbytes + |bytes| <= BUFSIZE
      modifies `bufp, `bufbytes, `consumed, buf
      ensures Scanning(old(consumed), bytes) && consumed == old(consumed) + bytes
    {
      ReadInto(buf, bufp, bytes);
      bufp := bufp + |bytes|;
      bufbytes := bufbytes + |bytes|;
      consumed := consumed + bytes;
    }

    /** The inner loop. */
    method Drain(ghost from: string, ghost bytes: string) returns (outcome: Outcome)
      requires Scanning(from, bytes)
      modifies this, log, buf
      ensures consumed == old(consumed)
      ensures log.State() == LogRun(env, files, Delivered(consumed))
      ensures outcome == (if log.status == Running then Continue else Failed)
      ensures outcome == Continue ==> Valid()
    {
      ghost var seen, rest := from, bytes;
      while bufbytes > 0
        invariant Scanning(seen, rest)
        invariant consumed == old(consumed)
        decreases bufbytes
      {
        var nl := FindNewline(buf, bufbytes);
        if nl == -1 {
          break;
        }
        ghost var k := Used(seen, dropped, nl);
        TakeLine(nl, seen, rest);
        if log.status != Running {
          DeliveredPrefix(seen + rest[..k], rest[k..]);
          FailureIsFinal(env, files, Delivered(seen + rest[..k]), Delivered(consumed));
          return Failed;
        }
        seen, rest := seen + rest[..k], rest[k..];
      }
      NoMoreLines(seen, rest, dropped, buf[..bufbytes]);
      outcome := Continue;
    }

    /** One poll whose read asks for at most `size` bytes (or fails) while the port still holds `left`. */
    method PollPort(size: Option<nat>, left: string, ghost port: string) returns (outcome: Outcome, rest: string)
      requires Valid() && consumed + left == port
      modifies this, log, buf
      ensures consumed + rest == port
      ensures log.State() == LogRun(env, files, Delivered(consumed))
      ensures outcome == Failed <==> log.status != Running
      ensures outcome != Failed ==> Valid()
      ensures outcome == Eof ==> |Tail(consumed)| % BUFSIZE == 0
      ensures Asks(size) && left != "" ==> |rest| < |left| && outcome != Eof
      ensures Asks(size) && left == "" ==> rest == "" && (outcome == Eof <==> |Tail(port)| % BUFSIZE == 0)
    {
      if size == None {
        outcome := Poll(ReadError);
        AppendEmpty(old(consumed));
        rest := left;
      } else {
        var n := Min(size.value, Min(Avail(), |left|));
        assert left == left[..n] + left[n..];
        AppendAssoc(consumed, left[..n], left[n..]);
        AppendEmpty(consumed);
        outcome := Poll(Data(left[..n]));
        rest := left[n..];
      }
    }

    /** The main loop on an input that ends: the k-th read asks for at most sizes[k] bytes of what is left
        of `port` (or fails).  How the input is chopped never shows: the log is that of the whole stream, and
        a run of reads that outlasts the input ends exactly when the bytes after the last newline fill the
        buffer a whole number of times; if so, it ends within |port| + 1 reads. */
    method ReadLoop(port: string, sizes: seq<Option<nat>>) returns (outcome: Outcome, rest: string)
      requires Valid() && consumed == ""
      modifies this, log, buf
      ensures consumed + rest == port
      ensures log.State() == LogRun(env, files, Delivered(consumed))
      ensures outcome == Failed <==> log.status != Running
      ensures outcome == Eof ==> |Tail(consumed)| % BUFSIZE == 0
      ensures Steady(sizes) && |sizes| > |port| && outcome != Failed ==>
                rest == "" && (outcome == Eof <==> |Tail(port)| % BUFSIZE == 0)
    {
      rest := port;
      outcome := Continue;
      for i := 0 to |sizes|
        invariant Valid() && outcome == Continue
        invariant consumed + rest == port
        invariant Steady(sizes) ==> i + |rest| <= |port| || (rest == "" && |Tail(port)| % BUFSIZE != 0)
      {
        outcome, rest := PollPort(sizes[i], rest, port);
        if outcome != Continue {
          return;
        }
      }
    }
  }

  function Min(a: nat, b: nat): nat
  {
    if a <= b then a else b
  }

  /** A read that does not fail and asks for something. */
  predicate Asks(size: Option<nat>)
  {
    size.Some? && size.value > 0
  }

  ghost predicate Steady(sizes: seq<Option<nat>>)
  {
    forall k :: 0 <= k < |sizes| ==> Asks(sizes[k])
  }
}
