/** What holds over every run of the central system: of its callbacks, of the periodic save, and of crashes
    followed by a restart from the stored snapshot. */
module OcppSafety {
  import opened Text
  import opened Ocpp

  datatype Event =
    | Connect(cp: string)
    | Disconnect(cp: string)
    | Start(cp: string, start: StartRequest)
    | Stop(cp: string, stop: StopRequest)
    | Meter(cp: string, connectorId: int, transactionId: Option<int>, values: seq<MeterValue>)
    | Status(cp: string, connectorId: int, status: string, errorCode: string)
    | Save(ok: bool)
    | Crash

  /** The handler's charge points and id counter, and the stored row. */
  datatype System = System(points: ChargePoints, nextId: int, row: Option<ChargePoints>)

  const BOOT := System(map[], 0, None)

  /** A fresh process that restores the row. */
  ghost function Restarted(row: Option<ChargePoints>): System
  {
    match row
    case None => System(map[], 0, None)
    case Some(points) => System(points, RaisedId(0, AllIds(points)), row)
  }

  ghost function Step(s: System, e: Event): System
  {
    match e
    case Connect(cp) => s.(points := Connected(s.points, cp))
    case Disconnect(cp) => s.(points := Disconnected(s.points, cp))
    case Start(cp, r) =>
      s.(points := AfterStart(s.points, s.nextId, cp, r),
         nextId := if StartAccepted(s.points, cp, r) then s.nextId + 1 else s.nextId)
    case Stop(cp, r) => s.(points := AfterStop(s.points, cp, r))
    case Meter(cp, c, t, mvs) => s.(points := AfterMeters(s.points, cp, c, t, mvs))
    case Status(cp, c, status, code) => s.(points := AfterStatus(s.points, cp, c, status, code))
    case Save(ok) => if ok then s.(row := Some(s.points)) else s
    case Crash => Restarted(s.row)
  }

  ghost function Run(evs: seq<Event>): System
  {
    if evs == [] then BOOT else Step(Run(evs[..|evs| - 1]), evs[|evs| - 1])
  }

  // ---------- Connector coherence ----------

  /** A busy connector names an open transaction of its own charge point and of this very connector. */
  ghost predicate ConnectorsCoherent(p: ChargePointState)
  {
    forall c :: c in p.connectors ==>
      var k := p.connectors[c].currentTransaction;
      k == -1 || (k >= 0 && k in p.transactions && p.transactions[k].connectorId == c
                  && p.transactions[k].endTime == None)
  }

  /** Transactions are filed under their ids, and their connectors are known. */
  ghost predicate TransactionsFiled(p: ChargePointState)
  {
    forall k :: k in p.transactions ==>
      k >= 0 && p.transactions[k].id == k && p.transactions[k].connectorId in p.connectors
  }

  ghost predicate PointGood(p: ChargePointState)
  {
    ConnectorsCoherent(p) && TransactionsFiled(p)
  }

  ghost predicate IdsBelow(p: ChargePointState, n: int)
  {
    forall k :: k in p.transactions ==> k < n
  }

  /** No id is used at two charge points. */
  ghost predicate IdsApart(points: ChargePoints)
  {
    forall a, b :: a in points && b in points && a != b ==>
      points[a].transactions.Keys !! points[b].transactions.Keys
  }

  ghost predicate Good(points: ChargePoints, n: int)
  {
    && (forall cp :: cp in points ==> PointGood(points[cp]) && IdsBelow(points[cp], n))
    && IdsApart(points)
  }

  ghost predicate Invariant(s: System)
  {
    && s.nextId >= 0
    && Good(s.points, s.nextId)
    && (s.row.Some? ==> Good(s.row.value, s.nextId))
  }

  /** Changing one charge point keeps the rest good. */
  lemma PointReplaced(points: ChargePoints, n: int, cp: string, q: ChargePointState, m: int)
    requires Good(points, n) && n <= m && cp in points
    requires PointGood(q) && IdsBelow(q, m)
    requires forall k :: k in q.transactions ==> k in points[cp].transactions || k >= n
    ensures Good(points[cp := q], m)
  {
    var after := points[cp := q];
    assert forall k :: k in q.transactions.Keys ==> k in points[cp].transactions.Keys || k >= n;
    forall a, b | a in after && b in after && a != b
      ensures after[a].transactions.Keys !! after[b].transactions.Keys
    {
      forall k | k in after[a].transactions.Keys
        ensures k !in after[b].transactions.Keys
      {
        assert points[a].transactions.Keys !! points[b].transactions.Keys;
      }
    }
  }

  lemma GoodWeaker(points: ChargePoints, n: int, m: int)
    requires Good(points, n) && n <= m
    ensures Good(points, m)
  {
  }

  lemma ConnectGood(points: ChargePoints, n: int, cp: string)
    requires Good(points, n)
    ensures Good(Connected(points, cp), n) && Good(Disconnected(points, cp), n)
  {
  }

  lemma StartGood(points: ChargePoints, n: int, cp: string, r: StartRequest)
    requires Good(points, n) && n >= 0
    ensures Good(AfterStart(points, n, cp, r), if StartAccepted(points, cp, r) then n + 1 else n)
  {
    if cp in points {
      var q := AfterStart(points, n, cp, r)[cp];
      PointReplaced(points, n, cp, q, if StartAccepted(points, cp, r) then n + 1 else n);
    }
  }

  lemma StopPointGood(p: ChargePointState, r: StopRequest)
    requires PointGood(p) && r.transactionId in p.transactions
    ensures var t := p.transactions[r.transactionId];
            PointGood(SetConnector(p, t.connectorId, GetConnector(p, t.connectorId).(currentTransaction := -1))
                      .(transactions := p.transactions[r.transactionId :=
                          t.(endTime := Some(r.timestamp), endMeter := r.meterStop)]))
  {
  }

  lemma StopGood(points: ChargePoints, n: int, cp: string, r: StopRequest)
    requires Good(points, n)
    ensures Good(AfterStop(points, cp, r), n)
  {
    if cp in points && r.transactionId in points[cp].transactions {
      StopPointGood(points[cp], r);
      PointReplaced(points, n, cp, AfterStop(points, cp, r)[cp], n);
    }
  }

  lemma MeterValueGood(points: ChargePoints, n: int, cp: string, c: int, t: int, mv: MeterValue)
    requires Good(points, n)
    ensures Good(AfterMeterValue(points, cp, c, t, mv), n)
  {
    if cp in points {
      PointReplaced(points, n, cp, AfterMeterValue(points, cp, c, t, mv)[cp], n);
    }
  }

  lemma {:induction false} MeterGood(points: ChargePoints, n: int, cp: string, c: int, t: int, mvs: seq<MeterValue>)
    requires Good(points, n)
    ensures Good(AfterMeter(points, cp, c, t, mvs), n)
  {
    if mvs != [] {
      MeterGood(points, n, cp, c, t, mvs[..|mvs| - 1]);
      MeterValueGood(AfterMeter(points, cp, c, t, mvs[..|mvs| - 1]), n, cp, c, t, mvs[|mvs| - 1]);
    }
  }

  lemma StatusGood(points: ChargePoints, n: int, cp: string, c: int, status: string, code: string)
    requires Good(points, n)
    ensures Good(AfterStatus(points, cp, c, status, code), n)
  {
    if cp in points {
      PointReplaced(points, n, cp, AfterStatus(points, cp, c, status, code)[cp], n);
    }
  }

  /** Restoring makes the counter pass every stored id. */
  lemma RestartGood(points: ChargePoints, n: int)
    requires Good(points, n)
    ensures Good(points, RaisedId(0, AllIds(points)))
  {
    var m := RaisedId(0, AllIds(points));
    forall cp | cp in points
      ensures IdsBelow(points[cp], m)
    {
      forall k | k in points[cp].transactions
        ensures k < m
      {
        assert points[cp].transactions[k].id in AllIds(points);
      }
    }
  }

  /** Every step keeps the invariant. */
  lemma StepKeeps(s: System, e: Event)
    requires Invariant(s)
    ensures Invariant(Step(s, e))
  {
    match e
    case Connect(cp) => ConnectGood(s.points, s.nextId, cp);
    case Disconnect(cp) => ConnectGood(s.points, s.nextId, cp);
    case Start(cp, r) =>
      StartGood(s.points, s.nextId, cp, r);
      if s.row.Some? {
        GoodWeaker(s.row.value, s.nextId, Step(s, e).nextId);
      }
    case Stop(cp, r) => StopGood(s.points, s.nextId, cp, r);
    case Meter(cp, c, t, mvs) =>
      if t.Some? {
        MeterGood(s.points, s.nextId, cp, c, t.value, mvs);
      }
    case Status(cp, c, status, code) => StatusGood(s.points, s.nextId, cp, c, status, code);
    case Save(ok) =>
    case Crash =>
      if s.row.Some? {
        RestartGood(s.row.value, s.nextId);
      }
  }

  /** So connectors are coherent and ids filed, below the counter and apart, after any run at all: duplicate and
      unknown stops, reconnections, failed saves and crashes included. */
  lemma {:induction false} AlwaysInvariant(evs: seq<Event>)
    ensures Invariant(Run(evs))
  {
    if evs != [] {
      AlwaysInvariant(evs[..|evs| - 1]);
      StepKeeps(Run(evs[..|evs| - 1]), evs[|evs| - 1]);
    }
  }

  /** Busy connectors map injectively to open transactions. */
  lemma BusyInjective(evs: seq<Event>, cp: string, a: int, b: int)
    requires var points := Run(evs).points;
             && cp in points && a in points[cp].connectors && b in points[cp].connectors
             && points[cp].connectors[a].Busy()
             && points[cp].connectors[a].currentTransaction == points[cp].connectors[b].currentTransaction
    ensures a == b
  {
    AlwaysInvariant(evs);
  }

  // ---------- Exact correspondence ----------

  /** Every open transaction is the current one of its connector. */
  ghost predicate PointExact(p: ChargePointState)
  {
    forall k :: k in p.transactions && !p.transactions[k].HasEnded() ==>
      var c := p.transactions[k].connectorId;
      c in p.connectors && p.connectors[c].currentTransaction == k
  }

  ghost predicate Exact(points: ChargePoints)
  {
    forall cp :: cp in points ==> PointExact(points[cp])
  }

  /** With it, busy connectors and open transactions correspond one to one, and no connector has two of them. */
  lemma ExactIsBijection(p: ChargePointState)
    requires PointGood(p)
    ensures PointExact(p) <==>
            forall k, c :: k in p.transactions && p.transactions[k].connectorId == c && !p.transactions[k].HasEnded()
              <==> k >= 0 && c in p.connectors && p.connectors[c].currentTransaction == k
    ensures PointExact(p) ==>
            forall j, k ::
              (&& j in p.transactions && k in p.transactions
               && !p.transactions[j].HasEnded() && !p.transactions[k].HasEnded()
               && p.transactions[j].connectorId == p.transactions[k].connectorId) ==> j == k
  {
    if forall k, c :: k in p.transactions && p.transactions[k].connectorId == c && !p.transactions[k].HasEnded()
         <==> k >= 0 && c in p.connectors && p.connectors[c].currentTransaction == k {
      forall k | k in p.transactions && !p.transactions[k].HasEnded()
        ensures var c := p.transactions[k].connectorId;
                c in p.connectors && p.connectors[c].currentTransaction == k
      {
      }
    }
  }

  /** A stop that does what the protocol means it to: of an unknown transaction, or with a real timestamp and
      either of an open transaction or while its connector is free. */
  predicate StopSound(points: ChargePoints, cp: string, r: StopRequest)
  {
    if cp !in points || r.transactionId !in points[cp].transactions then true
    else
      var t := points[cp].transactions[r.transactionId];
      r.timestamp != 0 && (!t.HasEnded() || !GetConnector(points[cp], t.connectorId).Busy())
  }

  /** Exactly the other stops break the correspondence: one naming an ended transaction frees the connector under
      the transaction now running there, and one without a timestamp leaves its transaction open. */
  lemma StopKeepsExactIff(points: ChargePoints, n: int, cp: string, r: StopRequest)
    requires Good(points, n) && Exact(points)
    ensures Exact(AfterStop(points, cp, r)) <==> StopSound(points, cp, r)
  {
    if cp in points && r.transactionId in points[cp].transactions {
      var p := points[cp];
      var after := AfterStop(points, cp, r);
      StopPointExactIff(p, after[cp], r);
      forall a | a in points && a != cp
        ensures after[a] == points[a]
      {
      }
      if PointExact(after[cp]) {
        assert forall a :: a in after && a != cp ==> PointExact(points[a]);
      }
    }
  }

  lemma StopPointExactIff(p: ChargePointState, q: ChargePointState, r: StopRequest)
    requires PointGood(p) && PointExact(p) && r.transactionId in p.transactions
    requires var t := p.transactions[r.transactionId];
             q == SetConnector(p, t.connectorId, GetConnector(p, t.connectorId).(currentTransaction := -1))
                  .(transactions := p.transactions[r.transactionId :=
                      t.(endTime := Some(r.timestamp), endMeter := r.meterStop)])
    ensures PointExact(q) <==>
            var t := p.transactions[r.transactionId];
            r.timestamp != 0 && (!t.HasEnded() || !GetConnector(p, t.connectorId).Busy())
  {
    var t := p.transactions[r.transactionId];
    var c := t.connectorId;
    assert q.transactions[r.transactionId].HasEnded() <==> r.timestamp != 0;
    assert q.connectors[c].currentTransaction == -1;
    if p.connectors[c].Busy() {
      var k := p.connectors[c].currentTransaction;
      assert k != r.transactionId ==> q.transactions[k] == p.transactions[k] && !q.transactions[k].HasEnded();
    }
  }

  lemma OthersKeepExact(s: System, e: Event)
    requires Invariant(s) && Exact(s.points) && !e.Stop? && !e.Crash?
    ensures Exact(Step(s, e).points)
  {
    match e
    case Connect(cp) =>
    case Disconnect(cp) =>
    case Start(cp, r) => StartExact(s.points, s.nextId, cp, r);
    case Meter(cp, c, t, mvs) =>
      if t.Some? {
        MeterExact(s.points, cp, c, t.value, mvs);
      }
    case Status(cp, c, status, code) =>
    case Save(ok) =>
  }

  lemma StartExact(points: ChargePoints, n: int, cp: string, r: StartRequest)
    requires Good(points, n) && n >= 0 && Exact(points)
    ensures Exact(AfterStart(points, n, cp, r))
  {
    if cp in points {
      var p, q := points[cp], AfterStart(points, n, cp, r)[cp];
      forall k | k in q.transactions && !q.transactions[k].HasEnded()
        ensures var c := q.transactions[k].connectorId;
                c in q.connectors && q.connectors[c].currentTransaction == k
      {
        if StartAccepted(points, cp, r) && k != n {
          assert k in p.transactions && p.connectors[p.transactions[k].connectorId].currentTransaction == k;
        }
      }
    }
  }

  lemma {:induction false} MeterExact(points: ChargePoints, cp: string, c: int, t: int, mvs: seq<MeterValue>)
    requires Exact(points)
    ensures Exact(AfterMeter(points, cp, c, t, mvs))
  {
    if mvs != [] {
      MeterExact(points, cp, c, t, mvs[..|mvs| - 1]);
      MeterValueExact(AfterMeter(points, cp, c, t, mvs[..|mvs| - 1]), cp, c, t, mvs[|mvs| - 1]);
    }
  }

  lemma MeterValueExact(points: ChargePoints, cp: string, c: int, t: int, mv: MeterValue)
    requires Exact(points)
    ensures Exact(AfterMeterValue(points, cp, c, t, mv))
  {
    if cp in points {
      var p, q := points[cp], AfterMeterValue(points, cp, c, t, mv)[cp];
      forall k | k in q.transactions && !q.transactions[k].HasEnded()
        ensures var d := q.transactions[k].connectorId;
                d in q.connectors && q.connectors[d].currentTransaction == k
      {
        assert !p.transactions[k].HasEnded();
      }
    }
  }

  /** Every stop of the run is sound in the state it meets. */
  ghost predicate StopsSound(evs: seq<Event>)
  {
    evs == [] ||
    (StopsSound(evs[..|evs| - 1]) &&
     match evs[|evs| - 1]
     case Stop(cp, r) => StopSound(Run(evs[..|evs| - 1]).points, cp, r)
     case _ => true)
  }

  /** The correspondence has held at every moment of the run. */
  ghost predicate AlwaysExact(evs: seq<Event>)
  {
    Exact(Run(evs).points) && (evs == [] || AlwaysExact(evs[..|evs| - 1]))
  }

  /** Over a run, across saves, crashes and restores, the correspondence holds throughout if and only if every
      stop is sound. */
  lemma {:induction false} ExactThroughoutIff(evs: seq<Event>)
    ensures AlwaysExact(evs) <==> StopsSound(evs)
    ensures StopsSound(evs) && Run(evs).row.Some? ==> Exact(Run(evs).row.value)
  {
    if evs != [] {
      var before, e := evs[..|evs| - 1], evs[|evs| - 1];
      var s := Run(before);
      ExactThroughoutIff(before);
      AlwaysInvariant(before);
      if StopsSound(before) {
        match e
        case Stop(cp, r) => StopKeepsExactIff(s.points, s.nextId, cp, r);
        case Crash =>
        case _ => OthersKeepExact(s, e);
      }
    }
  }

  // ---------- Fresh ids ----------

  /** The ids handed out since the process was last started. */
  ghost function IssuedSinceRestart(evs: seq<Event>): seq<int>
  {
    if evs == [] then []
    else
      var before := evs[..|evs| - 1];
      match evs[|evs| - 1]
      case Crash => []
      case Start(cp, r) =>
        if StartAccepted(Run(before).points, cp, r) then IssuedSinceRestart(before) + [Run(before).nextId]
        else IssuedSinceRestart(before)
      case _ => IssuedSinceRestart(before)
  }

  /** The snapshot the running process was started from. */
  ghost function RestoredFrom(evs: seq<Event>): Option<ChargePoints>
  {
    if evs == [] then None
    else if evs[|evs| - 1].Crash? then Run(evs[..|evs| - 1]).row
    else RestoredFrom(evs[..|evs| - 1])
  }

  ghost predicate IncreasingBelow(ids: seq<int>, n: int)
  {
    && (forall i, j :: 0 <= i < j < |ids| ==> ids[i] < ids[j])
    && (forall i :: 0 <= i < |ids| ==> ids[i] < n)
  }

  ghost predicate AllAbove(ids: seq<int>, stored: set<int>)
  {
    forall i, id :: 0 <= i < |ids| && id in stored ==> id < ids[i]
  }

  lemma IncreasingSnoc(ids: seq<int>, n: int)
    requires IncreasingBelow(ids, n)
    ensures IncreasingBelow(ids + [n], n + 1)
  {
  }

  /** Within one life of the process ids strictly increase, and they exceed every id in the snapshot it was
      restored from. */
  lemma {:induction false} IdsFresh(evs: seq<Event>)
    ensures IncreasingBelow(IssuedSinceRestart(evs), Run(evs).nextId)
    ensures RestoredFrom(evs).Some? ==>
              var stored := AllIds(RestoredFrom(evs).value);
              && AllAbove(IssuedSinceRestart(evs), stored)
              && forall id :: id in stored ==> id < Run(evs).nextId
  {
    if evs != [] {
      var before, e := evs[..|evs| - 1], evs[|evs| - 1];
      IdsFresh(before);
      match e
      case Start(cp, r) =>
        IncreasingSnoc(IssuedSinceRestart(before), Run(before).nextId);
      case Crash =>
      case _ =>
        assert Run(evs).nextId == Run(before).nextId;
    }
  }

  /** The id a start hands out is in use nowhere: at no charge point, and not in the stored snapshot. */
  lemma StartIsFresh(evs: seq<Event>, cp: string, r: StartRequest)
    requires StartAccepted(Run(evs).points, cp, r)
    ensures var id := Run(evs).nextId;
            && (forall a :: a in Run(evs).points ==> id !in Run(evs).points[a].transactions)
            && (Run(evs).row.Some? ==>
                  forall a :: a in Run(evs).row.value ==> id !in Run(evs).row.value[a].transactions)
            && (forall a :: a in Run(evs + [Start(cp, r)]).points && a != cp ==>
                  id !in Run(evs + [Start(cp, r)]).points[a].transactions)
  {
    AlwaysInvariant(evs);
    assert (evs + [Start(cp, r)])[..|evs|] == evs;
  }

  ghost predicate NoCrash(evs: seq<Event>)
  {
    forall i :: 0 <= i < |evs| ==> !evs[i].Crash?
  }

  /** The id exceeds every id in the snapshot, if there is one. */
  ghost predicate AboveRow(row: Option<ChargePoints>, id: int)
  {
    row.Some? ==> forall k :: k in AllIds(row.value) ==> k < id
  }

  /** The process that is started by a crash can hand out an id if and only if it exceeds every id in the stored
      snapshot - whether it has been handed out before, after the last save or before it, or not. */
  lemma ComesBackIff(evs: seq<Event>, id: nat)
    ensures (exists more :: NoCrash(more) && id in IssuedSinceRestart(evs + [Crash] + more))
            <==> AboveRow(Run(evs).row, id)
  {
    if more :| NoCrash(more) && id in IssuedSinceRestart(evs + [Crash] + more) {
      OnlyAbove(evs, more, id);
    }
    if AboveRow(Run(evs).row, id) {
      var more := Continuation(evs, id);
    }
  }

  lemma OnlyAbove(evs: seq<Event>, more: seq<Event>, id: nat)
    requires NoCrash(more) && id in IssuedSinceRestart(evs + [Crash] + more)
    ensures AboveRow(Run(evs).row, id)
  {
    var ids := IssuedSinceRestart(evs + [Crash] + more);
    RestoredKept(evs, more);
    IdsFresh(evs + [Crash] + more);
    var i :| 0 <= i < |ids| && ids[i] == id;
  }

  /** Reconnect some charge point, and start transactions on its connectors until the id is reached. */
  lemma Continuation(evs: seq<Event>, id: nat) returns (more: seq<Event>)
    requires AboveRow(Run(evs).row, id)
    ensures NoCrash(more) && id in IssuedSinceRestart(evs + [Crash] + more)
  {
    CounterAfterCrash(evs, id);
    var n := id - Run(evs + [Crash]).nextId;
    more := [Disconnect(""), Connect("")] + Starts(n + 1);
    StartsHandOut(evs + [Crash], n + 1);
    StartsAreNoCrash(n + 1);
    AppendEvents(evs + [Crash], [Disconnect(""), Connect("")], Starts(n + 1));
  }

  lemma AppendEvents(a: seq<Event>, b: seq<Event>, c: seq<Event>)
    ensures a + (b + c) == a + b + c
    ensures NoCrash(b) && NoCrash(c) ==> NoCrash(b + c)
  {
  }

  lemma {:induction false} RestoredKept(evs: seq<Event>, more: seq<Event>)
    requires NoCrash(more)
    ensures RestoredFrom(evs + [Crash] + more) == Run(evs).row
  {
    var all := evs + [Crash] + more;
    if more == [] {
      assert all[..|all| - 1] == evs;
    } else {
      assert all[..|all| - 1] == evs + [Crash] + more[..|more| - 1];
      assert all[|all| - 1] == more[|more| - 1];
      RestoredKept(evs, more[..|more| - 1]);
    }
  }

  /** The counter of the restarted process is the least id it can hand out. */
  lemma CounterAfterCrash(evs: seq<Event>, id: nat)
    ensures 0 <= Run(evs + [Crash]).nextId
    ensures Run(evs + [Crash]).nextId <= id <==> AboveRow(Run(evs).row, id)
  {
    RunSnoc(evs, Crash);
    if Run(evs).row.Some? {
      LeastAbove(AllIds(Run(evs).row.value), id);
    }
  }

  /** Starts on connectors 1 to n of one charge point. */
  function Starts(n: nat): seq<Event>
  {
    if n == 0 then [] else Starts(n - 1) + [Start("", StartRequest(n, "", 0, 0))]
  }

  lemma {:induction false} StartsAreNoCrash(n: nat)
    ensures NoCrash(Starts(n))
  {
    if n > 0 {
      StartsAreNoCrash(n - 1);
    }
  }

  /** The ids from `first` on have been handed out to the connectors 1 to n. */
  ghost predicate HandedOut(evs: seq<Event>, first: int, n: nat)
  {
    var points := Run(evs).points;
    && Run(evs).nextId == first + n
    && "" in points && (forall c :: c > n ==> c !in points[""].connectors)
    && forall id :: first <= id < first + n ==> id in IssuedSinceRestart(evs)
  }

  lemma OneMoreHandedOut(evs: seq<Event>, first: int, n: nat)
    requires HandedOut(evs, first, n)
    ensures HandedOut(evs + [Start("", StartRequest(n + 1, "", 0, 0))], first, n + 1)
  {
    StartAdds(evs, n + 1);
    InSnoc(IssuedSinceRestart(evs), first + n);
  }

  lemma InSnoc(ids: seq<int>, id: int)
    ensures id in ids + [id] && forall k :: k in ids ==> k in ids + [id]
  {
    assert (ids + [id])[|ids|] == id;
  }

  /** A charge point just connected takes all of them. */
  lemma {:induction false} StartsHandOut(evs: seq<Event>, n: nat)
    ensures HandedOut(evs + [Disconnect(""), Connect("")] + Starts(n), Run(evs).nextId, n)
  {
    var base := evs + [Disconnect(""), Connect("")];
    if n == 0 {
      JustConnected(evs);
      assert base + Starts(0) == base;
    } else {
      StartsHandOut(evs, n - 1);
      OneMoreHandedOut(base + Starts(n - 1), Run(evs).nextId, n - 1);
      AppendEvents(base, Starts(n - 1), [Start("", StartRequest(n, "", 0, 0))]);
    }
  }

  lemma JustConnected(evs: seq<Event>)
    ensures var s := Run(evs + [Disconnect(""), Connect("")]);
            && s.nextId == Run(evs).nextId
            && "" in s.points && s.points[""] == NEW_CHARGE_POINT
  {
    RunSnoc(evs, Disconnect(""));
    RunSnoc(evs + [Disconnect("")], Connect(""));
    assert evs + [Disconnect("")] + [Connect("")] == evs + [Disconnect(""), Connect("")];
  }

  lemma StartAdds(evs: seq<Event>, c: int)
    requires "" in Run(evs).points && c !in Run(evs).points[""].connectors
    ensures var all := evs + [Start("", StartRequest(c, "", 0, 0))];
            && IssuedSinceRestart(all) == IssuedSinceRestart(evs) + [Run(evs).nextId]
            && Run(all).nextId == Run(evs).nextId + 1
            && "" in Run(all).points
            && Run(all).points[""].connectors.Keys == Run(evs).points[""].connectors.Keys + {c}
  {
    var e := Start("", StartRequest(c, "", 0, 0));
    RunSnoc(evs, e);
    assert (evs + [e])[..|evs|] == evs;
  }

  lemma LeastAbove(ids: set<int>, id: int)
    requires id >= 0
    ensures RaisedId(0, ids) <= id <==> forall k :: k in ids ==> k < id
  {
    var next := RaisedId(0, ids);
    assert next > 0 ==> next - 1 in ids;
  }

  /** For instance, without a save the first transaction of each life has id 0. */
  lemma UnsavedIdComesBack(cp: string, r: StartRequest, again: StartRequest)
    ensures var evs := [Connect(cp), Start(cp, r), Crash, Connect(cp)];
            && StartAccepted(Run(evs[..1]).points, cp, r) && Run(evs[..1]).nextId == 0
            && StartAccepted(Run(evs).points, cp, again) && Run(evs).nextId == 0
  {
    var evs := [Connect(cp), Start(cp, r), Crash, Connect(cp)];
    FirstStart(cp, r);
    Next([Connect(cp), Start(cp, r)], Crash, evs[..3]);
    Next(evs[..3], Connect(cp), evs);
  }

  /** An id handed out before the save comes back, too, when its charge point was gone by then. */
  lemma ForgottenIdComesBack(cp: string, r: StartRequest, again: StartRequest)
    ensures var evs := [Connect(cp), Start(cp, r), Disconnect(cp), Save(true), Crash, Connect(cp)];
            && StartAccepted(Run(evs[..1]).points, cp, r) && Run(evs[..1]).nextId == 0
            && StartAccepted(Run(evs).points, cp, again) && Run(evs).nextId == 0
  {
    var evs := [Connect(cp), Start(cp, r), Disconnect(cp), Save(true), Crash, Connect(cp)];
    FirstStart(cp, r);
    Next([Connect(cp), Start(cp, r)], Disconnect(cp), evs[..3]);
    Next(evs[..3], Save(true), evs[..4]);
    assert Run(evs[..4]).points == map[];
    Next(evs[..4], Crash, evs[..5]);
    assert AllIds(map[]) == {};
    Next(evs[..5], Connect(cp), evs);
    assert evs[..1] == [Connect(cp)];
  }

  lemma FirstStart(cp: string, r: StartRequest)
    ensures Run([Connect(cp)]) == System(map[cp := NEW_CHARGE_POINT], 0, None)
    ensures Run([Connect(cp), Start(cp, r)]) ==
            System(AfterStart(map[cp := NEW_CHARGE_POINT], 0, cp, r), 1, None)
  {
    Next([], Connect(cp), [Connect(cp)]);
    Next([Connect(cp)], Start(cp, r), [Connect(cp), Start(cp, r)]);
  }

  lemma Next(evs: seq<Event>, e: Event, all: seq<Event>)
    requires all == evs + [e]
    ensures Run(all) == Step(Run(evs), e)
  {
    RunSnoc(evs, e);
  }

  /** A second stop of the first transaction frees the connector under the second: Connect, Start, Stop, Start,
      and the same Stop again. */
  lemma SecondStopBreaks(cp: string, r: StartRequest, stop: StopRequest)
    requires stop.transactionId == 0 && stop.timestamp != 0
    ensures var evs := [Connect(cp), Start(cp, r), Stop(cp, stop), Start(cp, r), Stop(cp, stop)];
            Exact(Run(evs[..4]).points) && !Exact(Run(evs).points)
  {
    var evs := [Connect(cp), Start(cp, r), Stop(cp, stop), Start(cp, r), Stop(cp, stop)];
    FirstStart(cp, r);
    Next([Connect(cp), Start(cp, r)], Stop(cp, stop), evs[..3]);
    Next(evs[..3], Start(cp, r), evs[..4]);
    Next(evs[..4], Stop(cp, stop), evs);
    var t := Run(evs).points[cp].transactions;
    assert 1 in t && !t[1].HasEnded();
  }

  // ---------- What meter values change, and what a crash brings back ----------

  /** What meter values leave alone: who is connected, which transactions there are, who holds which connector. */
  ghost predicate SameBooks(a: ChargePoints, b: ChargePoints)
  {
    && a.Keys == b.Keys
    && forall cp :: cp in a ==>
         && a[cp].transactions.Keys == b[cp].transactions.Keys
         && (forall k :: k in a[cp].transactions ==>
               b[cp].transactions[k].(lastMeasurement := None, measurementTime := 0)
               == a[cp].transactions[k].(lastMeasurement := None, measurementTime := 0))
         && (forall c :: GetConnector(a[cp], c).currentTransaction == GetConnector(b[cp], c).currentTransaction)
  }

  lemma {:induction false} MeterLeavesBooks(points: ChargePoints, cp: string, c: int, t: int, mvs: seq<MeterValue>)
    ensures SameBooks(points, AfterMeter(points, cp, c, t, mvs))
    ensures cp in points && mvs != [] ==>
              var q := AfterMeter(points, cp, c, t, mvs)[cp];
              var last := mvs[|mvs| - 1];
              && c in q.connectors && q.connectors[c].lastMeasurement == Some(last.Measured())
              && q.connectors[c].measurementTime == last.timestamp
              && (t in q.transactions ==> q.transactions[t].lastMeasurement == Some(last.Measured())
                                          && q.transactions[t].measurementTime == last.timestamp)
  {
    if mvs != [] {
      var before := AfterMeter(points, cp, c, t, mvs[..|mvs| - 1]);
      MeterLeavesBooks(points, cp, c, t, mvs[..|mvs| - 1]);
      MeterValueLeavesBooks(before, cp, c, t, mvs[|mvs| - 1]);
      SameBooksChain(points, before, AfterMeter(points, cp, c, t, mvs));
    }
  }

  lemma MeterValueLeavesBooks(points: ChargePoints, cp: string, c: int, t: int, mv: MeterValue)
    ensures SameBooks(points, AfterMeterValue(points, cp, c, t, mv))
  {
  }

  lemma SameBooksChain(x: ChargePoints, y: ChargePoints, z: ChargePoints)
    requires SameBooks(x, y) && SameBooks(y, z)
    ensures SameBooks(x, z)
  {
  }

  lemma RunSnoc(evs: seq<Event>, e: Event)
    ensures Run(evs + [e]) == Step(Run(evs), e)
  {
    assert (evs + [e])[..|evs|] == evs;
  }

  ghost predicate NoSave(evs: seq<Event>)
  {
    forall i :: 0 <= i < |evs| ==> evs[i] != Save(true)
  }

  lemma {:induction false} RowKept(evs: seq<Event>, more: seq<Event>)
    requires NoSave(more)
    ensures Run(evs + more).row == Run(evs).row
  {
    if more == [] {
      assert evs + more == evs;
    } else {
      var before := more[..|more| - 1];
      RowKept(evs, before);
      RunSnoc(evs + before, more[|more| - 1]);
      assert evs + before + [more[|more| - 1]] == evs + more;
    }
  }

  /** A crash brings back the charge points exactly as they were at the last successful save; what came after is
      lost, and the id counter never goes ahead of where it was then. */
  lemma CrashRestoresLastSave(evs: seq<Event>, more: seq<Event>)
    requires NoSave(more)
    ensures var after := Run(evs + [Save(true)] + more + [Crash]);
            after.points == Run(evs).points && after.row == Some(Run(evs).points) && after.nextId <= Run(evs).nextId
  {
    RowSaved(evs, more);
    RunSnoc(evs + [Save(true)] + more, Crash);
    NeverAhead(evs);
  }

  lemma RowSaved(evs: seq<Event>, more: seq<Event>)
    requires NoSave(more)
    ensures Run(evs + [Save(true)] + more).row == Some(Run(evs).points)
  {
    RunSnoc(evs, Save(true));
    RowKept(evs + [Save(true)], more);
  }

  /** A restart from the present state would not go ahead of the id counter. */
  lemma NeverAhead(evs: seq<Event>)
    ensures Restarted(Some(Run(evs).points)).nextId <= Run(evs).nextId
  {
    AlwaysInvariant(evs);
    LeastAbove(AllIds(Run(evs).points), Run(evs).nextId);
  }
}
