/** What the records of the central system say, told from the events alone: each field is what the latest event
    about it has left, and events at one charge point leave all others alone. */
module OcppRecords {
  import opened Text
  import opened Ocpp
  import opened OcppSafety

  // ---------- The life of a charge point ----------

  /** A request of a charge point, and the id that an accepted start would have been given. */
  datatype Entry = Entry(event: Event, id: int)

  /** `Online`: the charge point is known.  `Life`: the requests since its record was made.  A crash brings back
      what both were at the last save. */
  ghost function Online(evs: seq<Event>, cp: string): bool
  {
    if evs == [] then false
    else
      match evs[|evs| - 1]
      case Connect(a) => a == cp || Online(evs[..|evs| - 1], cp)
      case Disconnect(a) => a != cp && Online(evs[..|evs| - 1], cp)
      case Crash => SavedOnline(evs[..|evs| - 1], cp)
      case _ => Online(evs[..|evs| - 1], cp)
  }

  ghost function SavedOnline(evs: seq<Event>, cp: string): bool
  {
    evs != [] &&
    if evs[|evs| - 1] == Save(true) then Online(evs[..|evs| - 1], cp) else SavedOnline(evs[..|evs| - 1], cp)
  }

  ghost function Life(evs: seq<Event>, cp: string): seq<Entry>
  {
    if evs == [] then []
    else
      var before, e := evs[..|evs| - 1], evs[|evs| - 1];
      match e
      case Connect(a) => Life(before, cp)
      case Disconnect(a) => if a == cp then [] else Life(before, cp)
      case Save(_) => Life(before, cp)
      case Crash => SavedLife(before, cp)
      case _ =>
        if e.cp == cp && Online(before, cp) then Life(before, cp) + [Entry(e, Run(before).nextId)] else Life(before, cp)
  }

  ghost function SavedLife(evs: seq<Event>, cp: string): seq<Entry>
  {
    if evs == [] then []
    else if evs[|evs| - 1] == Save(true) then Life(evs[..|evs| - 1], cp)
    else SavedLife(evs[..|evs| - 1], cp)
  }

  // ---------- What a life says ----------

  /** The transaction on a connector, -1 if it is free. */
  function HolderIn(life: seq<Entry>, c: int): int
  {
    if life == [] then -1
    else
      var before, e := life[..|life| - 1], life[|life| - 1];
      match e.event
      case Start(_, r) => if r.connectorId == c && HolderIn(before, c) < 0 then e.id else HolderIn(before, c)
      case Stop(_, r) =>
        if StartIn(before, r.transactionId).Some? && StartIn(before, r.transactionId).value.connectorId == c then -1
        else HolderIn(before, c)
      case _ => HolderIn(before, c)
  }

  /** The accepted start that was given the id k. */
  function StartIn(life: seq<Entry>, k: int): Option<StartRequest>
  {
    if life == [] then None
    else
      var before, e := life[..|life| - 1], life[|life| - 1];
      match e.event
      case Start(_, r) => if e.id == k && HolderIn(before, r.connectorId) < 0 then Some(r) else StartIn(before, k)
      case _ => StartIn(before, k)
  }

  /** The latest stop naming transaction k. */
  function StopIn(life: seq<Entry>, k: int): Option<StopRequest>
  {
    if life == [] then None
    else
      var before, e := life[..|life| - 1], life[|life| - 1];
      match e.event
      case Start(_, r) => if e.id == k && HolderIn(before, r.connectorId) < 0 then None else StopIn(before, k)
      case Stop(_, r) =>
        if r.transactionId == k && StartIn(before, k).Some? then Some(r) else StopIn(before, k)
      case _ => StopIn(before, k)
  }

  /** The error code of the latest status notification. */
  function ErrorIn(life: seq<Entry>): string
  {
    if life == [] then ""
    else
      match life[|life| - 1].event
      case Status(_, _, _, code) => code
      case _ => ErrorIn(life[..|life| - 1])
  }

  /** The status in the latest notification for the whole charge point. */
  function StatusIn(life: seq<Entry>): string
  {
    if life == [] then ""
    else
      match life[|life| - 1].event
      case Status(_, c, status, _) => if c <= 0 then status else StatusIn(life[..|life| - 1])
      case _ => StatusIn(life[..|life| - 1])
  }

  /** The status in the latest notification for a connector. */
  function ConnectorStatusIn(life: seq<Entry>, c: int): string
  {
    if life == [] then ""
    else
      match life[|life| - 1].event
      case Status(_, d, status, _) => if d == c && d > 0 then status else ConnectorStatusIn(life[..|life| - 1], c)
      case _ => ConnectorStatusIn(life[..|life| - 1], c)
  }

  /** The latest meter value of a connector. */
  function ValueIn(life: seq<Entry>, c: int): Option<MeterValue>
  {
    if life == [] then None
    else
      match life[|life| - 1].event
      case Meter(_, d, t, mvs) =>
        if d == c && t.Some? && mvs != [] then Some(mvs[|mvs| - 1]) else ValueIn(life[..|life| - 1], c)
      case _ => ValueIn(life[..|life| - 1], c)
  }

  /** The latest meter value that names transaction k, once it has started. */
  function TransactionValueIn(life: seq<Entry>, k: int): Option<MeterValue>
  {
    if life == [] then None
    else
      var before, e := life[..|life| - 1], life[|life| - 1];
      match e.event
      case Start(_, r) =>
        if e.id == k && HolderIn(before, r.connectorId) < 0 then None else TransactionValueIn(before, k)
      case Meter(_, _, t, mvs) =>
        if t == Some(k) && mvs != [] && StartIn(before, k).Some? then Some(mvs[|mvs| - 1])
        else TransactionValueIn(before, k)
      case _ => TransactionValueIn(before, k)
  }

  // ---------- Records ----------

  ghost predicate Measured(m: Option<Measurement>, time: DateTime, mv: Option<MeterValue>)
  {
    match mv
    case None => m == None && time == 0
    case Some(v) => m == Some(v.Measured()) && time == v.timestamp
  }

  /** A transaction is what its start and its latest stop and meter value say. */
  ghost predicate TransactionSays(t: TransactionInfo, life: seq<Entry>, k: int)
    requires StartIn(life, k).Some?
  {
    var r := StartIn(life, k).value;
    && t.id == k && t.connectorId == r.connectorId && t.idTag == r.idTag
    && t.startTime == r.timestamp && t.startMeter == r.meterStart
    && (match StopIn(life, k)
        case None => t.endTime == None && t.endMeter == 0
        case Some(stop) => t.endTime == Some(stop.timestamp) && t.endMeter == stop.meterStop)
    && Measured(t.lastMeasurement, t.measurementTime, TransactionValueIn(life, k))
  }

  /** A connector that has not been heard of reads like a new one. */
  ghost predicate ConnectorSays(c: ConnectorInfo, life: seq<Entry>, id: int)
  {
    && c.currentTransaction == HolderIn(life, id)
    && c.status == ConnectorStatusIn(life, id)
    && Measured(c.lastMeasurement, c.measurementTime, ValueIn(life, id))
  }

  ghost predicate RecordSays(p: ChargePointState, life: seq<Entry>)
  {
    && p.errorCode == ErrorIn(life) && p.status == StatusIn(life)
    && (forall c :: ConnectorSays(GetConnector(p, c), life, c))
    && (forall k :: k in p.transactions <==> StartIn(life, k).Some?)
    && (forall k :: k in p.transactions ==> TransactionSays(p.transactions[k], life, k))
  }

  lemma NewRecordSays()
    ensures RecordSays(NEW_CHARGE_POINT, [])
  {
  }

  // ---------- One request ----------

  lemma LifeSnoc(life: seq<Entry>, e: Entry)
    ensures (life + [e])[..|life|] == life && (life + [e])[|life|] == e
  {
  }

  lemma StartSays(p: ChargePointState, life: seq<Entry>, cp: string, r: StartRequest, n: int)
    requires RecordSays(p, life) && n >= 0 && n !in p.transactions
    ensures var e := Entry(Start(cp, r), n);
            RecordSays(AfterStart(map[cp := p], n, cp, r)[cp], life + [e])
  {
    LifeSnoc(life, Entry(Start(cp, r), n));
    var q := AfterStart(map[cp := p], n, cp, r)[cp];
    var after := life + [Entry(Start(cp, r), n)];
    assert ConnectorSays(GetConnector(p, r.connectorId), life, r.connectorId);
    forall c
      ensures ConnectorSays(GetConnector(q, c), after, c)
    {
      assert ConnectorSays(GetConnector(p, c), life, c);
    }
    forall k | k in q.transactions
      ensures StartIn(after, k).Some? && TransactionSays(q.transactions[k], after, k)
    {
      if k in p.transactions {
        assert TransactionSays(p.transactions[k], life, k);
      }
    }
  }

  lemma StopSays(p: ChargePointState, life: seq<Entry>, cp: string, r: StopRequest, n: int)
    requires RecordSays(p, life)
    ensures RecordSays(AfterStop(map[cp := p], cp, r)[cp], life + [Entry(Stop(cp, r), n)])
  {
    LifeSnoc(life, Entry(Stop(cp, r), n));
    var q := AfterStop(map[cp := p], cp, r)[cp];
    var after := life + [Entry(Stop(cp, r), n)];
    if r.transactionId in p.transactions {
      assert TransactionSays(p.transactions[r.transactionId], life, r.transactionId);
    }
    forall c
      ensures ConnectorSays(GetConnector(q, c), after, c)
    {
      assert ConnectorSays(GetConnector(p, c), life, c);
    }
    forall k | k in q.transactions
      ensures StartIn(after, k).Some? && TransactionSays(q.transactions[k], after, k)
    {
      assert TransactionSays(p.transactions[k], life, k);
    }
  }

  lemma StatusSays(p: ChargePointState, life: seq<Entry>, cp: string, c: int, status: string, code: string, n: int)
    requires RecordSays(p, life)
    ensures RecordSays(AfterStatus(map[cp := p], cp, c, status, code)[cp],
                       life + [Entry(Status(cp, c, status, code), n)])
  {
    LifeSnoc(life, Entry(Status(cp, c, status, code), n));
    var q := AfterStatus(map[cp := p], cp, c, status, code)[cp];
    var after := life + [Entry(Status(cp, c, status, code), n)];
    forall d
      ensures ConnectorSays(GetConnector(q, d), after, d)
    {
      assert ConnectorSays(GetConnector(p, d), life, d);
    }
    forall k | k in q.transactions
      ensures StartIn(after, k).Some? && TransactionSays(q.transactions[k], after, k)
    {
      assert TransactionSays(p.transactions[k], life, k);
    }
  }

  /** Of several meter values only the last is left. */
  lemma {:induction false} LastValueStays(points: ChargePoints, cp: string, c: int, t: int, mvs: seq<MeterValue>)
    requires cp in points && mvs != []
    ensures AfterMeter(points, cp, c, t, mvs) == AfterMeterValue(points, cp, c, t, mvs[|mvs| - 1])
  {
    if |mvs| > 1 {
      var n := |mvs| - 1;
      LastValueStays(points, cp, c, t, mvs[..n]);
      SecondValueWins(points, cp, c, t, mvs[n - 1], mvs[n]);
    } else {
      assert mvs[..0] == [];
    }
  }

  lemma SecondValueWins(points: ChargePoints, cp: string, c: int, t: int, v: MeterValue, w: MeterValue)
    requires cp in points
    ensures AfterMeterValue(AfterMeterValue(points, cp, c, t, v), cp, c, t, w) == AfterMeterValue(points, cp, c, t, w)
  {
    var x := AfterMeterValue(points, cp, c, t, v);
    var y, z := AfterMeterValue(x, cp, c, t, w), AfterMeterValue(points, cp, c, t, w);
    assert y[cp].connectors == z[cp].connectors;
    assert y[cp].transactions == z[cp].transactions;
  }

  lemma ValueSays(p: ChargePointState, life: seq<Entry>, cp: string, c: int, k: int, mvs: seq<MeterValue>, n: int)
    requires RecordSays(p, life) && mvs != []
    ensures var e := Entry(Meter(cp, c, Some(k), mvs), n);
            RecordSays(AfterMeterValue(map[cp := p], cp, c, k, mvs[|mvs| - 1])[cp], life + [e])
  {
    var e := Entry(Meter(cp, c, Some(k), mvs), n);
    LifeSnoc(life, e);
    var q := AfterMeterValue(map[cp := p], cp, c, k, mvs[|mvs| - 1])[cp];
    forall d
      ensures ConnectorSays(GetConnector(q, d), life + [e], d)
    {
      assert ConnectorSays(GetConnector(p, d), life, d);
    }
    forall j | j in q.transactions
      ensures StartIn(life + [e], j).Some? && TransactionSays(q.transactions[j], life + [e], j)
    {
      assert TransactionSays(p.transactions[j], life, j);
    }
  }

  /** A request with no values, or none that is processed, leaves no trace. */
  lemma NoValueSays(p: ChargePointState, life: seq<Entry>, cp: string, c: int, t: Option<int>,
                    mvs: seq<MeterValue>, n: int)
    requires RecordSays(p, life) && (t == None || mvs == [])
    ensures RecordSays(p, life + [Entry(Meter(cp, c, t, mvs), n)])
  {
    var e := Entry(Meter(cp, c, t, mvs), n);
    LifeSnoc(life, e);
    forall d
      ensures ConnectorSays(GetConnector(p, d), life + [e], d)
    {
      assert ConnectorSays(GetConnector(p, d), life, d);
    }
    forall j | j in p.transactions
      ensures StartIn(life + [e], j).Some? && TransactionSays(p.transactions[j], life + [e], j)
    {
      assert TransactionSays(p.transactions[j], life, j);
    }
  }

  lemma MeterSays(p: ChargePointState, life: seq<Entry>, cp: string, c: int, t: Option<int>,
                  mvs: seq<MeterValue>, n: int)
    requires RecordSays(p, life)
    ensures cp in AfterMeters(map[cp := p], cp, c, t, mvs)
    ensures RecordSays(AfterMeters(map[cp := p], cp, c, t, mvs)[cp], life + [Entry(Meter(cp, c, t, mvs), n)])
  {
    if t.Some? && mvs != [] {
      LastValueStays(map[cp := p], cp, c, t.value, mvs);
      ValueSays(p, life, cp, c, t.value, mvs, n);
    } else {
      NoValueSays(p, life, cp, c, t, mvs, n);
    }
  }

  // ---------- Other charge points ----------

  /** A request changes the record of its own charge point, as if there were no other. */
  lemma RequestIsLocal(s: System, e: Event, a: string)
    requires e.Start? || e.Stop? || e.Status? || e.Meter?
    ensures Step(s, e).points.Keys == s.points.Keys
    ensures a in s.points && a != e.cp ==> Step(s, e).points[a] == s.points[a]
    ensures e.cp in s.points ==>
              var own := s.(points := map[e.cp := s.points[e.cp]]);
              e.cp in Step(own, e).points && Step(s, e).points[e.cp] == Step(own, e).points[e.cp]
  {
    match e
    case Meter(cp, c, t, mvs) =>
      if t.Some? && cp in s.points && mvs != [] {
        LastValueStays(s.points, cp, c, t.value, mvs);
        LastValueStays(map[cp := s.points[cp]], cp, c, t.value, mvs);
      } else if t.Some? && cp !in s.points {
        UnknownMeter(s.points, cp, c, t.value, mvs);
      }
    case _ =>
  }

  lemma {:induction false} UnknownMeter(points: ChargePoints, cp: string, c: int, t: int, mvs: seq<MeterValue>)
    requires cp !in points
    ensures AfterMeter(points, cp, c, t, mvs) == points
  {
    if mvs != [] {
      UnknownMeter(points, cp, c, t, mvs[..|mvs| - 1]);
    }
  }

  lemma RequestSays(s: System, e: Event, life: seq<Entry>)
    requires e.Start? || e.Stop? || e.Status? || e.Meter?
    requires Invariant(s) && e.cp in s.points && RecordSays(s.points[e.cp], life)
    ensures e.cp in Step(s, e).points && RecordSays(Step(s, e).points[e.cp], life + [Entry(e, s.nextId)])
  {
    RequestIsLocal(s, e, e.cp);
    match e
    case Start(cp, r) => StartSays(s.points[cp], life, cp, r, s.nextId);
    case Stop(cp, r) => StopSays(s.points[cp], life, cp, r, s.nextId);
    case Status(cp, c, status, code) => StatusSays(s.points[cp], life, cp, c, status, code, s.nextId);
    case Meter(cp, c, t, mvs) => MeterSays(s.points[cp], life, cp, c, t, mvs, s.nextId);
  }

  // ---------- Runs ----------

  /** The charge points known are those online, and their records say what their lives say; so does the stored row
      of the time of the last save. */
  ghost predicate BooksSay(evs: seq<Event>, cp: string)
  {
    var s := Run(evs);
    && (cp in s.points <==> Online(evs, cp))
    && (cp in s.points ==> RecordSays(s.points[cp], Life(evs, cp)))
    && (cp !in s.points ==> Life(evs, cp) == [])
    && (s.row == None ==> !SavedOnline(evs, cp) && SavedLife(evs, cp) == [])
    && (s.row.Some? ==> (cp in s.row.value <==> SavedOnline(evs, cp)))
    && (s.row.Some? && cp in s.row.value ==> RecordSays(s.row.value[cp], SavedLife(evs, cp)))
    && (s.row.Some? && cp !in s.row.value ==> SavedLife(evs, cp) == [])
  }

  /** At all times, after any events, crashes included, each record says what the events say. */
  lemma {:induction false} RecordsSay(evs: seq<Event>, cp: string)
    ensures BooksSay(evs, cp)
  {
    if evs != [] {
      var before, e := evs[..|evs| - 1], evs[|evs| - 1];
      RecordsSay(before, cp);
      if e.Start? || e.Stop? || e.Status? || e.Meter? {
        RequestKeepsBooks(evs, cp);
      } else {
        NewRecordSays();
      }
    }
  }

  lemma RequestKeepsBooks(evs: seq<Event>, cp: string)
    requires evs != [] && BooksSay(evs[..|evs| - 1], cp)
    requires var e := evs[|evs| - 1];
             e.Start? || e.Stop? || e.Status? || e.Meter?
    ensures BooksSay(evs, cp)
  {
    var before, e := evs[..|evs| - 1], evs[|evs| - 1];
    AlwaysInvariant(before);
    RequestIsLocal(Run(before), e, cp);
    if e.cp == cp && cp in Run(before).points {
      RequestSays(Run(before), e, Life(before, cp));
    }
  }

  /** What happens at one charge point leaves the record of every other as it is. */
  lemma OthersUnchanged(evs: seq<Event>, e: Event, cp: string)
    requires !e.Save? && !e.Crash? && e.cp != cp
    ensures var s, t := Run(evs).points, Run(evs + [e]).points;
            (cp in t <==> cp in s) && (cp in s ==> t[cp] == s[cp])
  {
    RunSnoc(evs, e);
    if e.Start? || e.Stop? || e.Status? || e.Meter? {
      RequestIsLocal(Run(evs), e, cp);
    }
  }

  /** Connecting again changes nothing. */
  lemma ReconnectKeeps(evs: seq<Event>, cp: string)
    requires cp in Run(evs).points
    ensures Run(evs + [Connect(cp)]).points == Run(evs).points
  {
    RunSnoc(evs, Connect(cp));
  }

  // ---------- Samples ----------

  /** The last sample of its measurand that is a number. */
  ghost predicate IsLastNumber(samples: seq<SampledValue>, i: nat)
    requires i < |samples|
  {
    samples[i].value.Some? &&
    forall j :: i < j < |samples| ==> !(samples[j].measurand == samples[i].measurand && samples[j].value.Some?)
  }

  lemma {:induction false} LastNumberCounts(samples: seq<SampledValue>, i: nat)
    requires i < |samples| && IsLastNumber(samples, i)
    ensures LastOf(samples, samples[i].measurand) == samples[i].value.value
    decreases |samples|
  {
    var n := |samples| - 1;
    if i < n {
      assert IsLastNumber(samples[..n], i);
      LastNumberCounts(samples[..n], i);
    }
  }

  lemma {:induction false} NoNumberCounts(samples: seq<SampledValue>, measurand: Measurand)
    requires forall i :: 0 <= i < |samples| ==> !(samples[i].measurand == measurand && samples[i].value.Some?)
    ensures LastOf(samples, measurand) == 0.0
  {
    if samples != [] {
      NoNumberCounts(samples[..|samples| - 1], measurand);
    }
  }

  /** A measurement has, under each name, the last number sampled for that measurand. */
  lemma MeasuredSays(mv: MeterValue, i: nat)
    requires i < |mv.samples| && IsLastNumber(mv.samples, i)
    ensures var v, m := mv.samples[i].value.value, mv.Measured();
            match mv.samples[i].measurand
            case Voltage => m.voltage == v
            case CurrentImport => m.current == v
            case PowerActiveImport => m.activePower == v
            case EnergyActiveImportRegister => m.meterReading == Trunc(v)
            case Other => true
  {
    LastNumberCounts(mv.samples, i);
  }
}
