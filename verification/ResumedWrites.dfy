/** What resuming does to the rrd files: the queue is flushed at the end of each run, so the writes of two runs
    are those of one exactly when the runs meet between two timestamps.  The cache of last updates is part of the
    saved history: what rrdtool answered first about a file is the answer for all runs. */
module ResumedWrites {
  import opened Text
  import opened Updater
  import opened UpdateQueue
  import opened Resume

  /** What one run writes, last flush included. */
  function Writes(last: string -> Ts, calls: seq<Call>): seq<Batch>
  {
    Flushed(last, AfterCalls(last, calls)).written
  }

  /** Between the last call of one run and the first of the next an undivided run would have flushed, too. */
  predicate FlushBetween(a: seq<Call>, b: seq<Call>)
  {
    a == [] || b == [] || (a[|a| - 1].ts != 0.0 && a[|a| - 1].ts != b[0].ts)
  }

  // ---------- Two parts of one run ----------

  lemma AfterSnoc(last: string -> Ts, calls: seq<Call>, c: Call)
    ensures AfterCalls(last, calls + [c]) == Updated(last, AfterCalls(last, calls), c)
  {
    assert (calls + [c])[..|calls|] == calls;
  }

  /** The first call of the second part, after a flush. */
  lemma FlushedFirst(last: string -> Ts, a: seq<Call>, c: Call)
    requires a != [] && FlushBetween(a, [c])
    ensures var q := AfterCalls(last, [c]);
            AfterCalls(last, a + [c]) == q.(written := Writes(last, a) + q.written)
  {
    QueueBehind(last, a);
    AfterSnoc(last, a, c);
    AfterSnoc(last, [], c);
    assert [] + [c] == [c];
    StartsAnew(last, AfterCalls(last, a), c);
  }

  lemma StartsAnew(last: string -> Ts, q: Queue, c: Call)
    requires q.pending != map[] && q.ts.Some? && q.ts.value != 0.0 && q.ts.value != c.ts
    ensures Updated(last, EMPTY, c).written == []
    ensures Updated(last, q, c) == Updated(last, EMPTY, c).(written := Flushed(last, q).written + [])
  {
  }

  /** If there was a flush in between, the second part goes as if it were a run of its own ... */
  lemma {:induction false} SecondPart(last: string -> Ts, a: seq<Call>, b: seq<Call>)
    requires a != [] && b != [] && FlushBetween(a, b)
    ensures var q := AfterCalls(last, b);
            AfterCalls(last, a + b) == q.(written := Writes(last, a) + q.written)
  {
    var k := |b| - 1;
    assert b == b[..k] + [b[k]];
    if k == 0 {
      FlushedFirst(last, a, b[0]);
    } else {
      SecondPart(last, a, b[..k]);
      AfterSnoc(last, a + b[..k], b[k]);
      AfterSnoc(last, b[..k], b[k]);
      assert (a + b[..k]) + [b[k]] == a + b;
      UpdateBehind(last, AfterCalls(last, b[..k]), Writes(last, a), b[k]);
    }
  }

  /** Earlier writes do not matter. */
  lemma UpdateBehind(last: string -> Ts, q: Queue, earlier: seq<Batch>, c: Call)
    ensures Updated(last, q.(written := earlier + q.written), c) ==
            var r := Updated(last, q, c);
            r.(written := earlier + r.written)
    ensures Flushed(last, q.(written := earlier + q.written)).written == earlier + Flushed(last, q).written
  {
    var b := Fresh(last, Block(if q.ts.Some? then q.ts.value else 0.0, q.pending));
    assert (earlier + q.written) + [b] == earlier + (q.written + [b]);
  }

  /** ... otherwise one flush is missing for good. */
  lemma {:induction false} OneFlushFewer(last: string -> Ts, a: seq<Call>, b: seq<Call>)
    requires !FlushBetween(a, b)
    ensures |AfterCalls(last, a + b).written| == |AfterCalls(last, a).written| + |AfterCalls(last, b).written|
  {
    var k := |b| - 1;
    assert b == b[..k] + [b[k]];
    if k == 0 {
      NoFlushAt(last, a, b[0]);
      assert a + [b[0]] == a + b && [b[0]] == b;
    } else {
      OneFlushFewer(last, a, b[..k]);
      SameFlushes(last, a + b[..k], b[..k], b[k]);
      assert (a + b[..k]) + [b[k]] == a + b;
    }
  }

  lemma NoFlushAt(last: string -> Ts, a: seq<Call>, c: Call)
    requires !FlushBetween(a, [c])
    ensures |AfterCalls(last, a + [c]).written| == |AfterCalls(last, a).written|
    ensures AfterCalls(last, [c]).written == []
  {
    QueueBehind(last, a);
    AfterSnoc(last, a, c);
    AfterSnoc(last, [], c);
    FlushCount(last, AfterCalls(last, a), c);
    assert [] + [c] == [c];
  }

  /** After calls that end at the same time a further call flushes or not alike. */
  lemma SameFlushes(last: string -> Ts, a: seq<Call>, b: seq<Call>, c: Call)
    requires a != [] && b != [] && a[|a| - 1].ts == b[|b| - 1].ts
    ensures |AfterCalls(last, a + [c]).written| - |AfterCalls(last, a).written|
         == |AfterCalls(last, b + [c]).written| - |AfterCalls(last, b).written|
  {
    QueueBehind(last, a);
    QueueBehind(last, b);
    AfterSnoc(last, a, c);
    AfterSnoc(last, b, c);
    FlushCount(last, AfterCalls(last, a), c);
    FlushCount(last, AfterCalls(last, b), c);
  }

  lemma FlushCount(last: string -> Ts, q: Queue, c: Call)
    ensures |Updated(last, q, c).written| == |q.written| +
            if q.ts.Some? && q.ts.value != 0.0 && q.ts.value != c.ts && q.pending != map[] then 1 else 0
  {
  }

  /** The writes of two runs are those of one if and only if that one would have flushed between them. */
  lemma JoinedWritesIff(last: string -> Ts, a: seq<Call>, b: seq<Call>)
    ensures Writes(last, a) + Writes(last, b) == Writes(last, a + b) <==> FlushBetween(a, b)
  {
    if a == [] {
      assert a + b == b;
    } else if b == [] {
      assert a + b == a;
    } else if FlushBetween(a, b) {
      SecondPart(last, a, b);
      UpdateBehind(last, AfterCalls(last, b), Writes(last, a), b[0]);
    } else {
      OneFlushFewer(last, a, b);
      QueueBehind(last, a);
      QueueBehind(last, b);
      QueueBehind(last, a + b);
    }
  }

  /** Two runs that meet within one timestamp write it twice, one run writes it once. */
  lemma SplitTimestamp(last: string -> Ts, v: Value, w: Value)
    requires last("a") <= 60.0 && last("b") <= 60.0
    ensures var a, b := [Call(60.0, "a", v)], [Call(60.0, "b", w)];
            && Writes(last, a) + Writes(last, b) == [Batch(60, map["a" := v]), Batch(60, map["b" := w])]
            && Writes(last, a + b) == [Batch(60, map["a" := v, "b" := w])]
  {
    var a, b := Call(60.0, "a", v), Call(60.0, "b", w);
    AfterSnoc(last, [], a);
    AfterSnoc(last, [], b);
    AfterSnoc(last, [a], b);
    assert [] + [a] == [a] && [] + [b] == [b] && [a] + [b] == [a, b];
    OneCall(last, a);
    OneCall(last, b);
    var all := map["a" := v, "b" := w];
    assert "a" in all;
    assert Fresh(last, Block(60.0, all)).values == all;
    var x, y := Batch(60, map["a" := v]), Batch(60, map["b" := w]);
    assert [x] + [y] == [x, y];
  }

  lemma OneCall(last: string -> Ts, c: Call)
    requires c.ts >= last(c.ds)
    ensures Writes(last, [c]) == [Batch(Trunc(c.ts), map[c.ds := c.value])]
  {
    AfterSnoc(last, [], c);
    assert [] + [c] == [c];
    var one := map[c.ds := c.value];
    assert c.ds in one;
    assert Fresh(last, Block(c.ts, one)).values == one;
    assert [] + [Fresh(last, Block(c.ts, one))] == [Batch(Trunc(c.ts), one)];
  }

  // ---------- The log processor's runs ----------

  function CallsOf(metrics: seq<Metric>): seq<Call>
  {
    seq(|metrics|, i requires 0 <= i < |metrics| => CallOf(metrics[i]))
  }

  lemma CallsOfAppend(a: seq<Metric>, b: seq<Metric>)
    ensures CallsOf(a + b) == CallsOf(a) + CallsOf(b)
  {
  }

  lemma {:induction false} FoldReportsMore(config: Config, c: Core, es: seq<Entry>)
    requires Sound(c)
    ensures c.metrics <= Fold(config, c, es).metrics
  {
    if es != [] {
      FoldReportsMore(config, c, es[..|es| - 1]);
    }
  }

  lemma RunReportsMore(config: Config, h: History, files: seq<LogFile>)
    requires Sound(h.core)
    ensures h.core.metrics <= RunFiles(config, h, files).core.metrics
  {
    AfterFilesIs(config, h, MarkOf(h), files);
    FoldReportsMore(config, h.core, Processed(MarkOf(h), files));
  }

  /** The calls of the run that resumes. */
  function ResumedCalls(config: Config, h: History, files: seq<LogFile>): seq<Call>
    requires Sound(h.core)
  {
    RunReportsMore(config, h, files);
    CallsOf(RunFiles(config, h, files).core.metrics[|h.core.metrics|..])
  }

  /** Running over the logs and later over the grown logs, whatever the order of the reports in time, writes to the
      rrd files what one run over the grown logs writes if and only if the runs do not meet within reports of
      one timestamp (or after one at zero). */
  lemma ResumedWritesIff(config: Config, files: seq<LogFile>, more: seq<LogFile>, last: string -> Ts)
    requires Extends(files, more) && !StaleLineNumber(files, more)
    ensures var h := RunFiles(config, NEW_HISTORY, files);
            var first, second := CallsOf(h.core.metrics), ResumedCalls(config, h, more);
            var whole := CallsOf(RunFiles(config, NEW_HISTORY, more).core.metrics);
            Writes(last, first) + Writes(last, second) == Writes(last, whole) <==> FlushBetween(first, second)
  {
    var h := RunFiles(config, NEW_HISTORY, files);
    var metrics := RunFiles(config, h, more).core.metrics;
    ResumeEqualsRerun(config, files, more);
    RunReportsMore(config, h, more);
    var n := |h.core.metrics|;
    assert metrics == h.core.metrics + metrics[n..];
    CallsOfAppend(h.core.metrics, metrics[n..]);
    JoinedWritesIff(last, CallsOf(h.core.metrics), CallsOf(metrics[n..]));
  }

  // ---------- From a metric to its file ----------

  /** No later metric has the same node, name and time. */
  ghost predicate NotSuperseded(metrics: seq<Metric>, i: nat)
    requires i < |metrics|
  {
    forall n :: i < n < |metrics| ==>
      !(metrics[n].nodeId == metrics[i].nodeId && metrics[n].name == metrics[i].name && metrics[n].ts == metrics[i].ts)
  }

  /** Every metric reported is written into the file of its node and name, under its second and with its value,
      unless a later one of the same node, name and time supersedes it or the file is newer. */
  lemma MetricIsWritten(metrics: seq<Metric>, last: string -> Ts, i: nat) returns (k: nat)
    requires i < |metrics| && ZerosLast(CallsOf(metrics)) && NotSuperseded(metrics, i)
    requires last(DataSource(metrics[i].nodeId, metrics[i].name)) <= metrics[i].ts
    ensures k < |Writes(last, CallsOf(metrics))|
    ensures var w, ds := Writes(last, CallsOf(metrics))[k], DataSource(metrics[i].nodeId, metrics[i].name);
            w.seconds == Trunc(metrics[i].ts) && ds in w.values && w.values[ds] == metrics[i].value
  {
    forall n | i < n < |metrics|
      ensures !SameSlot(CallsOf(metrics)[n], CallsOf(metrics)[i])
    {
      DataSourceUnique(metrics[n].nodeId, metrics[n].name, metrics[i].nodeId, metrics[i].name);
    }
    k := CallIsWritten(last, CallsOf(metrics), i);
  }
}
