/** The coalescing update queue of common/update-rrd.py.  A data source has one rrd file; rrdtool.update is a log
    of its calls, and what rrdtool.last answers the first time it is asked about a file is a function of it,
    for the answer is cached. */
module UpdateQueue {
  import opened Text
  import opened Sets
  import Updater

  type Ts = real

  type Value = Updater.Value

  /** One call of UpdateRRD, as ReportMetric makes it: one data source at one time. */
  datatype Call = Call(ts: Ts, ds: string, value: Value)

  function MetricText(name: Updater.MetricName): string
  {
    match name
    case Temperature => "temp"
    case Battery => "bat"
    case Revs => "revs"
  }

  /** The data source of a metric: '%d' of the node and the name of the metric. */
  function DataSource(nodeId: int, name: Updater.MetricName): string
  {
    "node" + Numeral(nodeId) + "_" + MetricText(name)
  }

  function CallOf(m: Updater.Metric): Call
  {
    Call(m.ts, DataSource(m.nodeId, m.name), m.value)
  }

  /** Different metrics have different data sources. */
  lemma DataSourceUnique(a: int, m: Updater.MetricName, b: int, n: Updater.MetricName)
    ensures DataSource(a, m) == DataSource(b, n) <==> a == b && m == n
  {
    if DataSource(a, m) == DataSource(b, n) {
      DataSourceFields(a, m);
      DataSourceFields(b, n);
      var x, y := ["node" + Numeral(a), MetricText(m)], ["node" + Numeral(b), MetricText(n)];
      assert x[0] == y[0] && x[1] == y[1];
      assert Numeral(a) == x[0][4..] == y[0][4..] == Numeral(b);
      assert MetricText(m)[0] == MetricText(n)[0];
      NumeralOf(a);
      NumeralOf(b);
    }
  }

  function Numeral(n: int): string
  {
    if n < 0 then "-" + Itoa(-n) else Itoa(n)
  }

  lemma NumeralOf(n: int)
    ensures Numeral(n) != "" && (Numeral(n)[0] == '-' <==> n < 0)
    ensures var digits := if n < 0 then Numeral(n)[1..] else Numeral(n);
            AllDigits(digits) && Text.Value(digits) == if n < 0 then -n else n
    ensures '_' !in Numeral(n)
  {
    ItoaDigits(if n < 0 then -n else n);
  }

  lemma DataSourceFields(nodeId: int, name: Updater.MetricName)
    ensures SplitOn(DataSource(nodeId, name), '_') == ["node" + Numeral(nodeId), MetricText(name)]
  {
    NumeralOf(nodeId);
    NoBar(name);
    TwoFields("node" + Numeral(nodeId), MetricText(name));
  }

  lemma NoBar(name: Updater.MetricName)
    ensures '_' !in MetricText(name)
  {
  }

  lemma TwoFields(a: string, b: string)
    requires '_' !in a && '_' !in b
    ensures SplitOn(a + "_" + b, '_') == [a, b]
  {
    SplitOnFirst(a, '_', b);
    SplitOnFree(b, '_');
  }

  /** What is queued for one time. */
  datatype Block = Block(ts: Ts, values: map<string, Value>)

  /** The updates one flush writes, in whole seconds, at most one per data source; their order is that of a
      Python dict and left open. */
  datatype Batch = Batch(seconds: int, values: map<string, Value>)

  // ---------- Specification of the queue ----------

  datatype Queue = Queue(pending: map<string, Value>, ts: Option<Ts>, written: seq<Batch>)

  const EMPTY := Queue(map[], None, [])

  /** What is written of a block: the data sources updated later are passed over. */
  function Fresh(last: string -> Ts, b: Block): Batch
  {
    Batch(Trunc(b.ts), map ds | ds in b.values && b.ts >= last(ds) :: b.values[ds])
  }

  function Flushed(last: string -> Ts, q: Queue): Queue
  {
    if q.pending == map[] then q
    else q.(pending := map[],
            written := q.written + [Fresh(last, Block(if q.ts.Some? then q.ts.value else 0.0, q.pending))])
  }

  function Updated(last: string -> Ts, q: Queue, c: Call): Queue
  {
    var r := if q.ts.Some? && q.ts.value != 0.0 && q.ts.value != c.ts then Flushed(last, q) else q;
    r.(pending := r.pending[c.ds := c.value], ts := Some(c.ts))
  }

  function AfterCalls(last: string -> Ts, calls: seq<Call>): Queue
  {
    if calls == [] then EMPTY
    else Updated(last, AfterCalls(last, calls[..|calls| - 1]), calls[|calls| - 1])
  }

  // ---------- The updater ----------

  class RRDUpdater {
    const last: string -> Ts
    var updateQueue: map<string, Value>
    var updateTs: Option<Ts>
    var latestUpdate: map<string, Ts>
    var written: seq<Batch>

    function State(): Queue
      reads this
    {
      Queue(updateQueue, updateTs, written)
    }

    /** The cache holds what rrdtool answered. */
    ghost predicate Valid()
      reads this
    {
      && (forall ds :: ds in latestUpdate ==> latestUpdate[ds] == last(ds))
      && (updateQueue != map[] ==> updateTs.Some?)
    }

    /** The cache is the one of the history that the last run has saved, or empty. */
    constructor (last: string -> Ts, saved: map<string, Ts>)
      requires forall ds :: ds in saved ==> saved[ds] == last(ds)
      ensures Valid() && State() == EMPTY && this.last == last && latestUpdate == saved
    {
      this.last := last;
      updateQueue, updateTs, latestUpdate, written := map[], None, saved, [];
    }

    method LastUpdateFor(ds: string) returns (ts: Ts)
      requires Valid()
      modifies `latestUpdate
      ensures Valid() && ts == last(ds)
    {
      if ds !in latestUpdate {
        latestUpdate := latestUpdate[ds := last(ds)];
      }
      ts := latestUpdate[ds];
    }

    method FlushUpdateQueue()
      requires Valid()
      modifies this
      ensures Valid() && State() == Flushed(last, old(State()))
    {
      var todo := updateQueue.Keys;
      var values: map<string, Value> := map[];
      ghost var now := if updateTs.Some? then updateTs.value else 0.0;
      ghost var done: set<string> := {};
      while todo != {}
        invariant todo <= updateQueue.Keys && done == updateQueue.Keys - todo
        invariant Valid() && State() == old(State())
        invariant values == map ds | ds in done && ds in updateQueue && now >= last(ds) :: updateQueue[ds]
        decreases todo
      {
        var ds := AnyOf(todo);
        var lastUpdate := LastUpdateFor(ds);
        if !(updateTs.value < lastUpdate) {
          values := values[ds := updateQueue[ds]];
        }
        todo := todo - {ds};
        done := done + {ds};
      }
      assert done == updateQueue.Keys;
      if updateQueue != map[] {
        assert values == Fresh(last, Block(now, updateQueue)).values;
        written := written + [Batch(Trunc(updateTs.value), values)];
      }
      updateQueue := map[];
    }

    method UpdateRRD(c: Call)
      requires Valid()
      modifies this
      ensures Valid() && State() == Updated(last, old(State()), c)
    {
      if updateTs.Some? && updateTs.value != 0.0 && updateTs.value != c.ts {
        FlushUpdateQueue();
      }
      updateQueue := updateQueue[c.ds := c.value];
      updateTs := Some(c.ts);
    }

    method ReportMetric(m: Updater.Metric)
      requires Valid()
      modifies this
      ensures Valid() && State() == Updated(last, old(State()), CallOf(m))
    {
      UpdateRRD(CallOf(m));
    }

    method FinishedProcessing()
      requires Valid()
      modifies this
      ensures Valid() && State() == Flushed(last, old(State()))
      ensures updateQueue == map[]
    {
      FlushUpdateQueue();
    }
  }

  // ---------- Blocks ----------

  /** The last value of each data source among some calls. */
  function LastValues(calls: seq<Call>): map<string, Value>
  {
    if calls == [] then map[]
    else LastValues(calls[..|calls| - 1])[calls[|calls| - 1].ds := calls[|calls| - 1].value]
  }

  /** Consecutive calls at one time. */
  datatype Stretch = Stretch(ts: Ts, calls: seq<Call>)

  /** The calls cut into maximal runs of equal time. */
  function Runs(calls: seq<Call>): (runs: seq<Stretch>)
    ensures calls != [] ==> runs != [] && runs[|runs| - 1].ts == calls[|calls| - 1].ts
  {
    if calls == [] then []
    else
      var before, c := Runs(calls[..|calls| - 1]), calls[|calls| - 1];
      var n := |before| - 1;
      if before != [] && before[n].ts == c.ts then before[..n] + [Stretch(c.ts, before[n].calls + [c])]
      else before + [Stretch(c.ts, [c])]
  }

  /** What is written of a series of runs: of each, the last value per data source. */
  function WritesOf(last: string -> Ts, runs: seq<Stretch>): seq<Batch>
  {
    if runs == [] then []
    else
      var run := runs[|runs| - 1];
      WritesOf(last, runs[..|runs| - 1]) + [Fresh(last, Block(run.ts, LastValues(run.calls)))]
  }

  function Joined(runs: seq<Stretch>): seq<Call>
  {
    if runs == [] then [] else Joined(runs[..|runs| - 1]) + runs[|runs| - 1].calls
  }

  ghost predicate Uniform(run: Stretch)
  {
    run.calls != [] && forall i :: 0 <= i < |run.calls| ==> run.calls[i].ts == run.ts
  }

  /** Each run has one time, and neighbours have different ones. */
  ghost predicate Maximal(runs: seq<Stretch>)
  {
    && (forall i :: 0 <= i < |runs| ==> Uniform(runs[i]))
    && (forall i :: 0 < i < |runs| ==> runs[i - 1].ts != runs[i].ts)
  }

  lemma MaximalSnoc(runs: seq<Stretch>, run: Stretch)
    requires Maximal(runs) && Uniform(run)
    requires runs != [] ==> runs[|runs| - 1].ts != run.ts
    ensures Maximal(runs + [run])
  {
  }

  lemma JoinedSnoc(runs: seq<Stretch>, run: Stretch)
    ensures Joined(runs + [run]) == Joined(runs) + run.calls
  {
    assert (runs + [run])[..|runs|] == runs;
  }

  lemma WritesSnoc(last: string -> Ts, runs: seq<Stretch>, run: Stretch)
    ensures WritesOf(last, runs + [run]) == WritesOf(last, runs) + [Fresh(last, Block(run.ts, LastValues(run.calls)))]
  {
    assert (runs + [run])[..|runs|] == runs;
  }

  /** Together the runs are the calls, and they are maximal. */
  lemma {:induction false} RunsAreMaximal(calls: seq<Call>)
    ensures Joined(Runs(calls)) == calls && Maximal(Runs(calls))
  {
    if calls != [] {
      var k := |calls| - 1;
      var before, c := Runs(calls[..k]), calls[k];
      var n := |before| - 1;
      RunsAreMaximal(calls[..k]);
      assert calls[..k] + [c] == calls;
      if before != [] && before[n].ts == c.ts {
        LastRunGrows(before, c);
      } else {
        var run := Stretch(c.ts, [c]);
        MaximalSnoc(before, run);
        JoinedSnoc(before, run);
      }
    }
  }

  lemma LastRunGrows(runs: seq<Stretch>, c: Call)
    requires Maximal(runs) && runs != [] && runs[|runs| - 1].ts == c.ts
    ensures var n := |runs| - 1;
            var grown := runs[..n] + [Stretch(c.ts, runs[n].calls + [c])];
            Maximal(grown) && Joined(grown) == Joined(runs) + [c]
  {
    var n := |runs| - 1;
    var run := Stretch(c.ts, runs[n].calls + [c]);
    assert Uniform(runs[n]);
    assert Uniform(run);
    assert n > 0 ==> runs[n - 1].ts != runs[n].ts;
    MaximalSnoc(runs[..n], run);
    JoinedSnoc(runs[..n], run);
    AppendCalls(Joined(runs[..n]), runs[n].calls, [c]);
  }

  lemma AppendCalls(a: seq<Call>, b: seq<Call>, c: seq<Call>)
    ensures (a + b) + c == a + (b + c)
  {
  }

  /** No call at time zero is followed by one at another time. */
  ghost predicate ZerosLast(calls: seq<Call>)
  {
    forall i :: 0 < i < |calls| && calls[i - 1].ts == 0.0 ==> calls[i].ts == 0.0
  }

  /** The i-th call is the last one for its data source. */
  ghost predicate IsLastFor(calls: seq<Call>, i: nat)
    requires i < |calls|
  {
    forall j :: i < j < |calls| ==> calls[j].ds != calls[i].ds
  }

  /** LastValues is what its name says: a data source is in it if and only if a call names it, with the value of
      the last such call. */
  lemma {:induction false} LastValuesAre(calls: seq<Call>, i: nat)
    requires i < |calls| && IsLastFor(calls, i)
    ensures calls[i].ds in LastValues(calls) && LastValues(calls)[calls[i].ds] == calls[i].value
    decreases |calls|
  {
    var n := |calls| - 1;
    if i < n {
      assert calls[n].ds != calls[i].ds;
      assert IsLastFor(calls[..n], i);
      LastValuesAre(calls[..n], i);
    }
  }

  lemma {:induction false} LastValuesOnly(calls: seq<Call>, ds: string)
    ensures ds in LastValues(calls) <==> exists i :: 0 <= i < |calls| && calls[i].ds == ds
  {
    if calls != [] {
      var n := |calls| - 1;
      LastValuesOnly(calls[..n], ds);
      if i :| 0 <= i < n && calls[i].ds == ds {
        assert calls[..n][i].ds == ds;
      }
    }
  }

  lemma FirstValue(c: Call)
    ensures LastValues([c]) == map[c.ds := c.value] && c.ds in LastValues([c])
  {
    assert [c][..0] == [];
  }

  lemma NextValue(calls: seq<Call>, c: Call)
    ensures LastValues(calls + [c]) == LastValues(calls)[c.ds := c.value] && c.ds in LastValues(calls + [c])
  {
    assert (calls + [c])[..|calls|] == calls;
  }

  lemma ZerosLastBefore(calls: seq<Call>)
    requires |calls| > 1
    ensures var k := |calls| - 1;
            ZerosLast(calls) <==> ZerosLast(calls[..k]) && (calls[k - 1].ts == 0.0 ==> calls[k].ts == 0.0)
  {
    var k := |calls| - 1;
    var init := calls[..k];
    assert forall i :: 0 <= i < k ==> init[i] == calls[i];
    if ZerosLast(init) && (calls[k - 1].ts == 0.0 ==> calls[k].ts == 0.0) {
      forall i | 0 < i < |calls| && calls[i - 1].ts == 0.0
        ensures calls[i].ts == 0.0
      {
        assert i < k ==> init[i - 1].ts == 0.0;
      }
    }
  }

  /** The queue has never written more than all runs but the last, and fewer once a zero was passed over. */
  lemma {:induction false} QueueBehind(last: string -> Ts, calls: seq<Call>)
    requires calls != []
    ensures var q := AfterCalls(last, calls);
            && q.pending != map[] && q.ts == Some(calls[|calls| - 1].ts)
            && |q.written| < |Runs(calls)|
            && (!ZerosLast(calls) ==> |q.written| + 1 < |Runs(calls)|)
  {
    var k := |calls| - 1;
    assert calls[k].ds in AfterCalls(last, calls).pending;
    if k > 0 {
      QueueBehind(last, calls[..k]);
      ZerosLastBefore(calls);
    }
  }

  lemma {:induction false} WritesCount(last: string -> Ts, runs: seq<Stretch>)
    ensures |WritesOf(last, runs)| == |runs|
  {
    if runs != [] {
      WritesCount(last, runs[..|runs| - 1]);
    }
  }

  /** After the final flush nothing is pending.  The writes are the runs in order - of each maximal run of calls
      with equal times the last value per data source, less the data sources whose file is newer - if and only
      if no call at time zero is followed by one at another time. */
  lemma WritesAreRunsIff(last: string -> Ts, calls: seq<Call>)
    ensures var q := Flushed(last, AfterCalls(last, calls));
            q.pending == map[] && (q.written == WritesOf(last, Runs(calls)) <==> ZerosLast(calls))
  {
    if calls != [] {
      var runs := Runs(calls);
      var n := |runs| - 1;
      QueueBehind(last, calls);
      if ZerosLast(calls) {
        GroupsAreRuns(calls);
        WritesAreGroups(last, calls);
      } else {
        WritesCount(last, runs);
      }
    }
  }

  lemma {:induction false} WritesAt(last: string -> Ts, runs: seq<Stretch>, k: nat)
    requires k < |runs|
    ensures |WritesOf(last, runs)| == |runs|
    ensures WritesOf(last, runs)[k] == Fresh(last, Block(runs[k].ts, LastValues(runs[k].calls)))
    decreases |runs|
  {
    var n := |runs| - 1;
    WritesCount(last, runs[..n]);
    if k < n {
      WritesAt(last, runs[..n], k);
    }
  }

  /** The calls cut into what is flushed together: calls at one time, and calls at time zero with whatever
      follows them, under the time of the last. */
  function Groups(calls: seq<Call>): (groups: seq<Stretch>)
    ensures calls != [] ==> groups != [] && groups[|groups| - 1].ts == calls[|calls| - 1].ts
  {
    if calls == [] then []
    else
      var before, c := Groups(calls[..|calls| - 1]), calls[|calls| - 1];
      var n := |before| - 1;
      if before != [] && (before[n].ts == c.ts || before[n].ts == 0.0)
      then before[..n] + [Stretch(c.ts, before[n].calls + [c])]
      else before + [Stretch(c.ts, [c])]
  }

  /** Without zeros in between these are the runs. */
  lemma {:induction false} GroupsAreRuns(calls: seq<Call>)
    requires ZerosLast(calls)
    ensures Groups(calls) == Runs(calls)
  {
    if |calls| > 1 {
      ZerosLastBefore(calls);
      GroupsAreRuns(calls[..|calls| - 1]);
    } else if |calls| == 1 {
      assert Groups(calls[..0]) == [] == Runs(calls[..0]);
    }
  }

  lemma {:induction false} GroupsJoined(calls: seq<Call>)
    ensures Joined(Groups(calls)) == calls
  {
    if calls != [] {
      var k := |calls| - 1;
      var before, c := Groups(calls[..k]), calls[k];
      var n := |before| - 1;
      GroupsJoined(calls[..k]);
      assert calls[..k] + [c] == calls;
      if before != [] && (before[n].ts == c.ts || before[n].ts == 0.0) {
        JoinedSnoc(before[..n], Stretch(c.ts, before[n].calls + [c]));
        AppendCalls(Joined(before[..n]), before[n].calls, [c]);
      } else {
        JoinedSnoc(before, Stretch(c.ts, [c]));
      }
    }
  }

  /** While the calls go on, all groups but the last are written, and the last one is pending. */
  lemma {:induction false} QueueHoldsLastGroup(last: string -> Ts, calls: seq<Call>)
    requires calls != []
    ensures var n := |Groups(calls)| - 1;
            AfterCalls(last, calls) ==
            Queue(LastValues(Groups(calls)[n].calls), Some(calls[|calls| - 1].ts), WritesOf(last, Groups(calls)[..n]))
    ensures LastValues(Groups(calls)[|Groups(calls)| - 1].calls) != map[]
  {
    var k := |calls| - 1;
    var before, c := Groups(calls[..k]), calls[k];
    var n := |before| - 1;
    if k == 0 {
      FirstValue(c);
    } else {
      QueueHoldsLastGroup(last, calls[..k]);
      if before[n].ts == c.ts || before[n].ts == 0.0 {
        NextValue(before[n].calls, c);
        assert Groups(calls)[..n] == before[..n];
      } else {
        FirstValue(c);
        assert before == before[..n] + [before[n]];
        WritesSnoc(last, before[..n], before[n]);
        assert Groups(calls)[..n + 1] == before;
      }
    }
  }

  lemma WritesAreGroups(last: string -> Ts, calls: seq<Call>)
    ensures Flushed(last, AfterCalls(last, calls)).written == WritesOf(last, Groups(calls))
  {
    if calls != [] {
      var groups := Groups(calls);
      var n := |groups| - 1;
      QueueHoldsLastGroup(last, calls);
      assert groups == groups[..n] + [groups[n]];
      WritesSnoc(last, groups[..n], groups[n]);
    }
  }

  /** Of a group, these calls name the data source, and its file is not newer. */
  ghost predicate Writable(last: string -> Ts, group: Stretch, ds: string)
  {
    last(ds) <= group.ts && exists i :: 0 <= i < |group.calls| && group.calls[i].ds == ds
  }

  /** The k-th flush writes under the whole second of the k-th group exactly those data sources that a call of the
      group names and whose file is not newer, each with the value of its last call. */
  lemma FlushSays(last: string -> Ts, calls: seq<Call>, k: nat)
    requires k < |Groups(calls)|
    ensures var group := Groups(calls)[k];
            var writes := Flushed(last, AfterCalls(last, calls)).written;
            && |writes| == |Groups(calls)|
            && writes[k].seconds == Trunc(group.ts)
            && (forall ds :: ds in writes[k].values <==> Writable(last, group, ds))
            && (forall i :: 0 <= i < |group.calls| && IsLastFor(group.calls, i) ==>
                  var c := group.calls[i];
                  last(c.ds) <= group.ts ==> c.ds in writes[k].values && writes[k].values[c.ds] == c.value)
  {
    var group := Groups(calls)[k];
    WritesAreGroups(last, calls);
    WritesAt(last, Groups(calls), k);
    forall ds
      ensures ds in LastValues(group.calls) <==> exists i :: 0 <= i < |group.calls| && group.calls[i].ds == ds
    {
      LastValuesOnly(group.calls, ds);
    }
    forall i | 0 <= i < |group.calls| && IsLastFor(group.calls, i)
      ensures group.calls[i].ds in LastValues(group.calls)
              && LastValues(group.calls)[group.calls[i].ds] == group.calls[i].value
    {
      LastValuesAre(group.calls, i);
    }
  }

  /** Where the calls of the k-th run stand among all calls. */
  lemma {:induction false} JoinedAt(runs: seq<Stretch>, k: nat, j: nat)
    requires k < |runs| && j < |runs[k].calls|
    ensures var i := |Joined(runs[..k])| + j;
            i < |Joined(runs)| && Joined(runs)[i] == runs[k].calls[j]
    decreases |runs|
  {
    var n := |runs| - 1;
    if k < n {
      JoinedAt(runs[..n], k, j);
      assert runs[..n][..k] == runs[..k];
    }
  }

  lemma {:induction false} SomewhereStands(runs: seq<Stretch>, i: nat) returns (k: nat, j: nat)
    requires i < |Joined(runs)|
    ensures k < |runs| && j < |runs[k].calls| && i == |Joined(runs[..k])| + j
  {
    var n := |runs| - 1;
    if i < |Joined(runs[..n])| {
      k, j := SomewhereStands(runs[..n], i);
      assert runs[..n][..k] == runs[..k];
    } else {
      k, j := n, i - |Joined(runs[..n])|;
    }
  }

  predicate SameSlot(a: Call, b: Call)
  {
    a.ds == b.ds && a.ts == b.ts
  }

  /** A call that no later one supersedes is the last of its run for its data source. */
  lemma LastInRun(runs: seq<Stretch>, k: nat, j: nat)
    requires k < |runs| && j < |runs[k].calls| && Uniform(runs[k])
    requires var i := |Joined(runs[..k])| + j;
             forall n :: i < n < |Joined(runs)| ==> !SameSlot(Joined(runs)[n], runs[k].calls[j])
    ensures IsLastFor(runs[k].calls, j)
  {
    forall n | j < n < |runs[k].calls|
      ensures runs[k].calls[n].ds != runs[k].calls[j].ds
    {
      JoinedAt(runs, k, n);
    }
  }

  /** Every call that no later one for its data source and time supersedes is written under its second, with its
      value, unless the file is newer. */
  lemma CallIsWritten(last: string -> Ts, calls: seq<Call>, i: nat) returns (k: nat)
    requires i < |calls| && ZerosLast(calls) && last(calls[i].ds) <= calls[i].ts
    requires forall n :: i < n < |calls| ==> !SameSlot(calls[n], calls[i])
    ensures k < |Flushed(last, AfterCalls(last, calls)).written|
    ensures var w := Flushed(last, AfterCalls(last, calls)).written[k];
            && w.seconds == Trunc(calls[i].ts)
            && calls[i].ds in w.values && w.values[calls[i].ds] == calls[i].value
  {
    var j: nat;
    RunsAreMaximal(calls);
    k, j := RunOf(Runs(calls), calls, i);
    GroupsAreRuns(calls);
    FlushSays(last, calls, k);
  }

  lemma RunOf(runs: seq<Stretch>, calls: seq<Call>, i: nat) returns (k: nat, j: nat)
    requires Joined(runs) == calls && Maximal(runs)
    requires i < |calls| && forall n :: i < n < |calls| ==> !SameSlot(calls[n], calls[i])
    ensures k < |runs| && j < |runs[k].calls|
    ensures runs[k].ts == calls[i].ts && runs[k].calls[j] == calls[i] && IsLastFor(runs[k].calls, j)
  {
    k, j := SomewhereStands(runs, i);
    JoinedAt(runs, k, j);
    assert Uniform(runs[k]);
    LastInRun(runs, k, j);
  }

  /** A batch written at the time of some call, with no data source whose file is newer than that. */
  ghost predicate NotLate(last: string -> Ts, calls: seq<Call>, w: Batch)
  {
    exists i :: 0 <= i < |calls| && w.seconds == Trunc(calls[i].ts)
             && forall ds :: ds in w.values ==> last(ds) <= calls[i].ts
  }

  ghost predicate NoneLate(last: string -> Ts, calls: seq<Call>, written: seq<Batch>)
  {
    forall k :: 0 <= k < |written| ==> NotLate(last, calls, written[k])
  }

  lemma NoneLateSnoc(last: string -> Ts, calls: seq<Call>, written: seq<Batch>, c: Call)
    requires NoneLate(last, calls, written)
    ensures NoneLate(last, calls + [c], written)
  {
    forall k | 0 <= k < |written|
      ensures NotLate(last, calls + [c], written[k])
    {
      assert NotLate(last, calls, written[k]);
      var i :| 0 <= i < |calls| && written[k].seconds == Trunc(calls[i].ts)
            && forall ds :: ds in written[k].values ==> last(ds) <= calls[i].ts;
      assert (calls + [c])[i] == calls[i];
    }
  }

  lemma FlushNotLate(last: string -> Ts, calls: seq<Call>, q: Queue)
    requires calls != [] && q.ts == Some(calls[|calls| - 1].ts) && NoneLate(last, calls, q.written)
    ensures NoneLate(last, calls, Flushed(last, q).written)
  {
    var i := |calls| - 1;
    var w := Fresh(last, Block(calls[i].ts, q.pending));
    assert w.seconds == Trunc(calls[i].ts) && forall ds :: ds in w.values ==> last(ds) <= calls[i].ts;
    assert NotLate(last, calls, w);
  }

  /** Zeros or not, nothing is ever written into a file that is newer. */
  lemma {:induction false} NothingLate(last: string -> Ts, calls: seq<Call>)
    ensures NoneLate(last, calls, AfterCalls(last, calls).written)
    ensures NoneLate(last, calls, Flushed(last, AfterCalls(last, calls)).written)
  {
    if calls != [] {
      var k := |calls| - 1;
      NothingLate(last, calls[..k]);
      NoneLateSnoc(last, calls[..k], Flushed(last, AfterCalls(last, calls[..k])).written, calls[k]);
      NoneLateSnoc(last, calls[..k], AfterCalls(last, calls[..k]).written, calls[k]);
      assert calls[..k] + [calls[k]] == calls;
      QueueBehind(last, calls);
      FlushNotLate(last, calls, AfterCalls(last, calls));
    }
  }

  /** A zero timestamp is not flushed before the next one: its values are written under a time that is not theirs. */
  lemma ZeroIsMisdated(last: string -> Ts, v: Value, w: Value)
    requires last("a") <= 0.0 && last("b") <= 0.0
    ensures Flushed(last, AfterCalls(last, [Call(0.0, "a", v), Call(60.0, "b", w)])).written
         == [Batch(60, map["a" := v, "b" := w])]
  {
    var calls := [Call(0.0, "a", v), Call(60.0, "b", w)];
    assert calls[..1] == [calls[0]] && calls[..1][..0] == [];
    assert AfterCalls(last, calls[..1]) == Queue(map["a" := v], Some(0.0), []);
    assert AfterCalls(last, calls) == Queue(map["a" := v, "b" := w], Some(60.0), []);
    var all := map["a" := v, "b" := w];
    assert "a" in all;
    assert Fresh(last, Block(60.0, all)).values == all;
  }
}
