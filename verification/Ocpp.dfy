/** The transaction bookkeeping of the OCPP central system: ocpp/handler.go, ocpp/store.go and the connection
    callbacks of ocpp/main.go.  Every callback is one atomic step; the records a charge point's maps point to
    are values of those maps, and the JSON snapshot is the value it encodes. */
module Ocpp {
  import opened Text
  import opened Sets

  /** Instants; 0 is Go's zero time. */
  type DateTime = int

  datatype Measurement = Measurement(voltage: real, current: real, activePower: real, meterReading: int)

  datatype TransactionInfo = TransactionInfo(
    id: int, startTime: DateTime, endTime: Option<DateTime>, startMeter: int, endMeter: int,
    connectorId: int, idTag: string, lastMeasurement: Option<Measurement>, measurementTime: DateTime)
  {
    predicate HasEnded()
    {
      endTime.Some? && endTime.value != 0
    }
  }

  datatype ConnectorInfo = ConnectorInfo(
    status: string, currentTransaction: int, lastMeasurement: Option<Measurement>, measurementTime: DateTime)
  {
    predicate Busy()
    {
      currentTransaction >= 0
    }
  }

  const NEW_CONNECTOR := ConnectorInfo("", -1, None, 0)

  datatype ChargePointState = ChargePointState(
    status: string, errorCode: string,
    connectors: map<int, ConnectorInfo>, transactions: map<int, TransactionInfo>)

  const NEW_CHARGE_POINT := ChargePointState("", "", map[], map[])

  type ChargePoints = map<string, ChargePointState>

  /** The answer to a request; a start is confirmed with the transaction's id.  `Panicked` is a nil dereference. */
  datatype Reply = Error | Confirmed | Started(id: int) | Panicked

  // ---------- Specification of the steps ----------

  function GetConnector(p: ChargePointState, id: int): ConnectorInfo
  {
    if id in p.connectors then p.connectors[id] else NEW_CONNECTOR
  }

  function SetConnector(p: ChargePointState, id: int, c: ConnectorInfo): ChargePointState
  {
    p.(connectors := p.connectors[id := c])
  }

  function Connected(points: ChargePoints, cp: string): ChargePoints
  {
    if cp in points then points else points[cp := NEW_CHARGE_POINT]
  }

  function Disconnected(points: ChargePoints, cp: string): ChargePoints
  {
    points - {cp}
  }

  datatype StartRequest = StartRequest(connectorId: int, idTag: string, meterStart: int, timestamp: DateTime)

  function NewTransaction(id: int, r: StartRequest): TransactionInfo
  {
    TransactionInfo(id, r.timestamp, None, r.meterStart, 0, r.connectorId, r.idTag, None, 0)
  }

  predicate StartAccepted(points: ChargePoints, cp: string, r: StartRequest)
  {
    cp in points && !GetConnector(points[cp], r.connectorId).Busy()
  }

  function AfterStart(points: ChargePoints, nextId: int, cp: string, r: StartRequest): ChargePoints
  {
    if cp !in points then points
    else
      var p, c := points[cp], GetConnector(points[cp], r.connectorId);
      if c.Busy() then points[cp := SetConnector(p, r.connectorId, c)]
      else points[cp := SetConnector(p, r.connectorId, c.(currentTransaction := nextId))
                        .(transactions := p.transactions[nextId := NewTransaction(nextId, r)])]
  }

  datatype StopRequest = StopRequest(transactionId: int, meterStop: int, timestamp: DateTime)

  function AfterStop(points: ChargePoints, cp: string, r: StopRequest): ChargePoints
  {
    if cp !in points || r.transactionId !in points[cp].transactions then points
    else
      var p := points[cp];
      var t := p.transactions[r.transactionId];
      points[cp := SetConnector(p, t.connectorId, GetConnector(p, t.connectorId).(currentTransaction := -1))
                   .(transactions := p.transactions[r.transactionId :=
                       t.(endTime := Some(r.timestamp), endMeter := r.meterStop)])]
  }

  datatype Measurand = Voltage | CurrentImport | PowerActiveImport | EnergyActiveImportRegister | Other

  /** A sampled value; `None` is one that is not a number. */
  datatype SampledValue = SampledValue(measurand: Measurand, value: Option<real>)

  datatype MeterValue = MeterValue(samples: seq<SampledValue>, timestamp: DateTime)
  {
    /** Of each measurand the last sample that is a number. */
    function Measured(): Measurement
    {
      Measurement(LastOf(samples, Voltage), LastOf(samples, CurrentImport), LastOf(samples, PowerActiveImport),
                  Trunc(LastOf(samples, EnergyActiveImportRegister)))
    }
  }

  function LastOf(samples: seq<SampledValue>, measurand: Measurand): real
  {
    if samples == [] then 0.0
    else
      var s := samples[|samples| - 1];
      if s.measurand == measurand && s.value.Some? then s.value.value else LastOf(samples[..|samples| - 1], measurand)
  }

  /** A request without a transaction id panics at its first value, before anything has changed. */
  function AfterMeters(points: ChargePoints, cp: string, connectorId: int, transactionId: Option<int>,
                       mvs: seq<MeterValue>): ChargePoints
  {
    if transactionId.Some? then AfterMeter(points, cp, connectorId, transactionId.value, mvs) else points
  }

  function AfterMeter(points: ChargePoints, cp: string, connectorId: int, transactionId: int,
                      mvs: seq<MeterValue>): ChargePoints
  {
    if mvs == [] then points
    else
      var before := AfterMeter(points, cp, connectorId, transactionId, mvs[..|mvs| - 1]);
      AfterMeterValue(before, cp, connectorId, transactionId, mvs[|mvs| - 1])
  }

  function AfterMeterValue(points: ChargePoints, cp: string, connectorId: int, transactionId: int,
                           mv: MeterValue): ChargePoints
  {
    if cp !in points then points
    else
      var p := points[cp];
      var q := SetConnector(p, connectorId, GetConnector(p, connectorId).(
                              lastMeasurement := Some(mv.Measured()), measurementTime := mv.timestamp));
      points[cp := if transactionId !in p.transactions then q
                   else q.(transactions := p.transactions[transactionId := p.transactions[transactionId].(
                             lastMeasurement := Some(mv.Measured()), measurementTime := mv.timestamp)])]
  }

  function AfterStatus(points: ChargePoints, cp: string, connectorId: int, status: string, errorCode: string)
    : ChargePoints
  {
    if cp !in points then points
    else
      var p := points[cp].(errorCode := errorCode);
      points[cp := if connectorId > 0
                   then SetConnector(p, connectorId, GetConnector(p, connectorId).(status := status))
                   else p.(status := status)]
  }

  // ---------- The handler ----------

  class CentralSystemHandler {
    var chargePoints: ChargePoints
    var nextTransactionId: int

    constructor ()
      ensures chargePoints == map[] && nextTransactionId == 0
    {
      chargePoints, nextTransactionId := map[], 0;
    }

    method OnNewChargePoint(cp: string)
      modifies `chargePoints
      ensures chargePoints == Connected(old(chargePoints), cp)
    {
      if cp !in chargePoints {
        chargePoints := chargePoints[cp := NEW_CHARGE_POINT];
      }
    }

    method OnDisconnected(cp: string)
      modifies `chargePoints
      ensures chargePoints == Disconnected(old(chargePoints), cp)
    {
      chargePoints := chargePoints - {cp};
    }

    /** getConnector, which enters a connector it has not seen. */
    method FindConnector(cp: string, id: int) returns (c: ConnectorInfo)
      requires cp in chargePoints
      modifies `chargePoints
      ensures c == GetConnector(old(chargePoints)[cp], id)
      ensures chargePoints == old(chargePoints)[cp := SetConnector(old(chargePoints)[cp], id, c)]
    {
      var p := chargePoints[cp];
      if id !in p.connectors {
        chargePoints := chargePoints[cp := SetConnector(p, id, NEW_CONNECTOR)];
      }
      c := chargePoints[cp].connectors[id];
      assert id in p.connectors ==> p.connectors[id := c] == p.connectors;
    }

    method OnStartTransaction(cp: string, r: StartRequest) returns (reply: Reply)
      modifies this
      ensures chargePoints == AfterStart(old(chargePoints), old(nextTransactionId), cp, r)
      ensures StartAccepted(old(chargePoints), cp, r) ==>
                reply == Started(old(nextTransactionId)) && nextTransactionId == old(nextTransactionId) + 1
      ensures !StartAccepted(old(chargePoints), cp, r) ==>
                reply == Error && nextTransactionId == old(nextTransactionId)
    {
      if cp !in chargePoints {
        return Error;
      }
      var connector := FindConnector(cp, r.connectorId);
      if connector.currentTransaction >= 0 {
        return Error;
      }
      var t := TransactionInfo(nextTransactionId, r.timestamp, None, r.meterStart, 0, r.connectorId, r.idTag, None, 0);
      nextTransactionId := nextTransactionId + 1;
      var p := chargePoints[cp];
      p := SetConnector(p, r.connectorId, connector.(currentTransaction := t.id));
      p := p.(transactions := p.transactions[t.id := t]);
      chargePoints := chargePoints[cp := p];
      assert p.connectors == old(chargePoints)[cp].connectors[r.connectorId := connector.(currentTransaction := t.id)];
      return Started(t.id);
    }

    method OnStopTransaction(cp: string, r: StopRequest) returns (reply: Reply)
      modifies `chargePoints
      ensures chargePoints == AfterStop(old(chargePoints), cp, r)
      ensures reply == if cp in old(chargePoints) then Confirmed else Error
    {
      if cp !in chargePoints {
        return Error;
      }
      if r.transactionId in chargePoints[cp].transactions {
        var t := chargePoints[cp].transactions[r.transactionId];
        var connector := FindConnector(cp, t.connectorId);
        var p := chargePoints[cp];
        p := SetConnector(p, t.connectorId, connector.(currentTransaction := -1));
        t := t.(endTime := Some(r.timestamp));
        t := t.(endMeter := r.meterStop);
        p := p.(transactions := p.transactions[r.transactionId := t]);
        chargePoints := chargePoints[cp := p];
        assert p.connectors ==
               old(chargePoints)[cp].connectors[t.connectorId := connector.(currentTransaction := -1)];
      }
      return Confirmed;
    }

    method ProcessMeterValues(cp: string, connectorId: int, transactionId: int, mv: MeterValue)
      modifies `chargePoints
      ensures chargePoints == AfterMeterValue(old(chargePoints), cp, connectorId, transactionId, mv)
    {
      if cp !in chargePoints {
        return;
      }
      var m := SumUp(mv);
      var connector := FindConnector(cp, connectorId);
      var p := chargePoints[cp];
      connector := connector.(lastMeasurement := Some(m), measurementTime := mv.timestamp);
      p := SetConnector(p, connectorId, connector);
      assert p.connectors == old(chargePoints)[cp].connectors[connectorId := connector];
      if transactionId in p.transactions {
        var t := p.transactions[transactionId].(
          lastMeasurement := Some(m), measurementTime := mv.timestamp);
        p := p.(transactions := p.transactions[transactionId := t]);
      }
      chargePoints := chargePoints[cp := p];
    }

    /** The loop over the samples of a meter value. */
    method SumUp(mv: MeterValue) returns (m: Measurement)
      ensures m == mv.Measured()
    {
      m := Measurement(0.0, 0.0, 0.0, 0);
      for i := 0 to |mv.samples|
        invariant m == MeterValue(mv.samples[..i], mv.timestamp).Measured()
      {
        assert mv.samples[..i + 1][..i] == mv.samples[..i];
        var sv := mv.samples[i];
        if sv.value == None {
          continue;
        }
        var v := sv.value.value;
        match sv.measurand {
          case Voltage => m := m.(voltage := v);
          case CurrentImport => m := m.(current := v);
          case PowerActiveImport => m := m.(activePower := v);
          case EnergyActiveImportRegister => m := m.(meterReading := Trunc(v));
          case Other =>
        }
      }
      assert mv.samples[..|mv.samples|] == mv.samples;
    }

    method OnMeterValues(cp: string, connectorId: int, transactionId: Option<int>, mvs: seq<MeterValue>)
      returns (reply: Reply)
      modifies `chargePoints
      ensures chargePoints == AfterMeters(old(chargePoints), cp, connectorId, transactionId, mvs)
      ensures reply == if mvs != [] && transactionId == None then Panicked else Confirmed
    {
      for i := 0 to |mvs|
        invariant chargePoints == AfterMeters(old(chargePoints), cp, connectorId, transactionId, mvs[..i])
        invariant i > 0 ==> transactionId.Some?
      {
        assert mvs[..i + 1][..i] == mvs[..i];
        if transactionId == None {
          return Panicked;
        }
        ProcessMeterValues(cp, connectorId, transactionId.value, mvs[i]);
      }
      assert mvs[..|mvs|] == mvs;
      return Confirmed;
    }

    method OnStatusNotification(cp: string, connectorId: int, status: string, errorCode: string)
      returns (reply: Reply)
      modifies `chargePoints
      ensures chargePoints == AfterStatus(old(chargePoints), cp, connectorId, status, errorCode)
      ensures reply == if cp in old(chargePoints) then Confirmed else Error
    {
      if cp !in chargePoints {
        return Error;
      }
      chargePoints := chargePoints[cp := chargePoints[cp].(errorCode := errorCode)];
      if connectorId > 0 {
        var p := chargePoints[cp];
        var connector := FindConnector(cp, connectorId);
        var q := SetConnector(chargePoints[cp], connectorId, connector.(status := status));
        chargePoints := chargePoints[cp := q];
        assert q.connectors == p.connectors[connectorId := connector.(status := status)];
      } else {
        chargePoints := chargePoints[cp := chargePoints[cp].(status := status)];
      }
      return Confirmed;
    }
  }

  // ---------- The store ----------

  /** The transaction ids of a charge point, as its records hold them, and of all of them. */
  function IdsOf(p: ChargePointState): set<int>
  {
    set k | k in p.transactions :: p.transactions[k].id
  }

  function AllIds(points: ChargePoints): set<int>
  {
    set cp, k | cp in points && k in points[cp].transactions :: points[cp].transactions[k].id
  }

  /** n is what counting up from n0 past all ids gives. */
  ghost predicate IsRaised(n0: int, ids: set<int>, n: int)
  {
    && n0 <= n
    && (forall id :: id in ids ==> id < n)
    && (n == n0 || n - 1 in ids)
  }

  lemma RaisedUnique(n0: int, ids: set<int>, a: int, b: int)
    requires IsRaised(n0, ids, a) && IsRaised(n0, ids, b)
    ensures a == b
  {
  }

  ghost function RaisedId(n0: int, ids: set<int>): (n: int)
    ensures IsRaised(n0, ids, n)
  {
    if ids == {} then n0
    else
      assert (forall x :: x !in ids) ==> ids == {};
      var x :| x in ids;
      assert ids == (ids - {x}) + {x};
      var m := RaisedId(n0, ids - {x});
      if x >= m then x + 1 else m
  }

  class Store {
    const handler: CentralSystemHandler
    var row: Option<ChargePoints>

    constructor (handler: CentralSystemHandler, row: Option<ChargePoints>)
      ensures this.handler == handler && this.row == row
    {
      this.handler, this.row := handler, row;
    }

    /** A failed encoding or insert leaves the row as it was. */
    method Save(ok: bool)
      modifies `row
      ensures row == if ok then Some(handler.chargePoints) else old(row)
    {
      if ok {
        row := Some(handler.chargePoints);
      }
    }

    /** Whatever the order in which the maps are walked. */
    method Restore()
      modifies handler
      ensures row.Some? ==> handler.chargePoints == row.value
      ensures row.Some? ==>
                handler.nextTransactionId == RaisedId(old(handler.nextTransactionId), AllIds(row.value))
      ensures row.None? ==> handler.chargePoints == old(handler.chargePoints)
                            && handler.nextTransactionId == old(handler.nextTransactionId)
    {
      if row.None? {
        return;
      }
      handler.chargePoints := row.value;
      ghost var n0 := handler.nextTransactionId;
      ghost var seen: set<int> := {};
      var points := row.value.Keys;
      while points != {}
        invariant points <= row.value.Keys
        invariant handler.chargePoints == row.value
        invariant forall cp :: cp in row.value && cp !in points ==> IdsOf(row.value[cp]) <= seen
        invariant seen <= AllIds(row.value)
        invariant IsRaised(n0, seen, handler.nextTransactionId)
        decreases points
      {
        var cp := AnyOf(points);
        var more := RaisePast(row.value[cp], n0, seen);
        assert IdsOf(row.value[cp]) <= AllIds(row.value);
        seen := seen + more;
        points := points - {cp};
      }
      assert seen == AllIds(row.value) by {
        forall id | id in AllIds(row.value)
          ensures id in seen
        {
          var cp, k :| cp in row.value && k in row.value[cp].transactions && row.value[cp].transactions[k].id == id;
          assert id in IdsOf(row.value[cp]);
        }
      }
      RaisedUnique(n0, seen, handler.nextTransactionId, RaisedId(n0, AllIds(row.value)));
    }

    /** The inner loop. */
    method RaisePast(p: ChargePointState, ghost n0: int, ghost before: set<int>) returns (ghost ids: set<int>)
      requires IsRaised(n0, before, handler.nextTransactionId)
      modifies handler`nextTransactionId
      ensures ids == IdsOf(p)
      ensures IsRaised(n0, before + ids, handler.nextTransactionId)
    {
      ids := {};
      var keys := p.transactions.Keys;
      while keys != {}
        invariant keys <= p.transactions.Keys
        invariant ids == set k | k in p.transactions && k !in keys :: p.transactions[k].id
        invariant IsRaised(n0, before + ids, handler.nextTransactionId)
        decreases keys
      {
        var k := AnyOf(keys);
        var t := p.transactions[k];
        if t.id >= handler.nextTransactionId {
          handler.nextTransactionId := t.id + 1;
        }
        ids := ids + {t.id};
        keys := keys - {k};
      }
    }
  }
}
