/** The half-hour aggregation of analysis/powerdb.go.  Times are whole seconds; local time is UTC plus a
    fixed offset, so year, month, day and hour are the number of whole local hours. */
module PowerDb {
  import opened Text

  datatype Row = Row(halfHourEnding: int, whIn: nat)

  const HALF_HOUR := 1800

  // ---------- Periods ----------

  function GetLastFullPeriod(ts: int, off: int): int
  {
    var local := ts + off;
    var min := if local / 60 % 60 >= 30 then 30 else 0;
    local / 3600 * 3600 + min * 60 - off
  }

  function GetPrevPeriod(period: int, off: int): int
  {
    GetLastFullPeriod(period, off) - HALF_HOUR
  }

  function GetNextPeriod(period: int, off: int): int
  {
    GetLastFullPeriod(period, off) + HALF_HOUR
  }

  /** The hour that names the file a period is read from. */
  function GetPeriodFile(period: int): int
  {
    var utc := if period / 60 % 60 == 0 then period - 60 else period;
    utc / 3600
  }

  /** 2017-06-08 20:00 local time, the answer for an empty table. */
  function Sentinel(off: int): int
  {
    1496952000 - off
  }

  predicate Aligned(t: int, off: int)
  {
    (t + off) % HALF_HOUR == 0
  }

  lemma LastFullPeriodIs(ts: int, off: int)
    ensures var p := GetLastFullPeriod(ts, off);
            Aligned(p, off) && p <= ts < p + HALF_HOUR
  {
    var local := ts + off;
    MinuteOf(local);
    var h := local / 3600;
    assert GetLastFullPeriod(ts, off) ==
           if local % 3600 >= HALF_HOUR then 3600 * h + HALF_HOUR - off else 3600 * h - off;
    HalfHours(h);
  }

  lemma HalfHours(h: int)
    ensures (3600 * h) % HALF_HOUR == 0 && (3600 * h + HALF_HOUR) % HALF_HOUR == 0
  {
    assert 3600 * h == HALF_HOUR * (2 * h);
    assert 3600 * h + HALF_HOUR == HALF_HOUR * (2 * h + 1);
  }

  /** The minute shown on a clock. */
  lemma MinuteOf(local: int)
    ensures local / 60 % 60 == local % 3600 / 60
  {
    var h, sec := local / 3600, local % 3600;
    assert local == 60 * (60 * h) + sec;
    assert local / 60 == 60 * h + sec / 60;
  }

  lemma AlignedFixed(p: int, off: int)
    requires Aligned(p, off)
    ensures GetLastFullPeriod(p, off) == p
  {
    LastFullPeriodIs(p, off);
    var q := GetLastFullPeriod(p, off);
    var a, b := (p + off) / HALF_HOUR, (q + off) / HALF_HOUR;
    assert p - q == HALF_HOUR * (a - b);
  }

  /** Every second of the half hour that ends at `period` belongs to the hour of the file read for it. */
  ghost predicate WindowInFile(period: int)
  {
    forall t :: period - HALF_HOUR <= t < period ==> t / 3600 == GetPeriodFile(period)
  }

  /** One file per period suffices for all periods exactly under offsets of whole half hours. */
  lemma OneFileIff(off: int)
    ensures (forall p :: Aligned(p, off) ==> WindowInFile(p)) <==> off % HALF_HOUR == 0
  {
    if off % HALF_HOUR == 0 {
      forall p | Aligned(p, off)
        ensures WindowInFile(p)
      {
        AlignedWindow(p, off);
      }
    } else {
      var p := 2 * HALF_HOUR - off % HALF_HOUR + 3600 * 10 - HALF_HOUR;
      assert off == HALF_HOUR * (off / HALF_HOUR) + off % HALF_HOUR;
      assert p + off == HALF_HOUR * (21 + off / HALF_HOUR);
      assert Aligned(p, off);
      assert p % 3600 == HALF_HOUR - off % HALF_HOUR;
      var t := if p / 60 % 60 == 0 then p - 1 else p - HALF_HOUR;
      assert t / 3600 != GetPeriodFile(p);
      assert !WindowInFile(p);
    }
  }

  lemma AlignedWindow(p: int, off: int)
    requires Aligned(p, off) && off % HALF_HOUR == 0
    ensures 3600 * GetPeriodFile(p) <= p - HALF_HOUR && p <= 3600 * (GetPeriodFile(p) + 1)
    ensures WindowInFile(p)
  {
    var a, b := (p + off) / HALF_HOUR, off / HALF_HOUR;
    var k := a - b;
    assert p == HALF_HOUR * k;
    MinuteOf(p);
    if k % 2 == 0 {
      assert p == 3600 * (k / 2) && p / 3600 == k / 2;
      assert GetPeriodFile(p) == k / 2 - 1;
    } else {
      assert p == 3600 * (k / 2) + HALF_HOUR && p / 3600 == k / 2;
      assert GetPeriodFile(p) == k / 2;
    }
  }

  // ---------- Reading one file ----------

  /** What bufio.ScanLines strips from a line. */
  function DropEol(l: string): string
  {
    var s := if l != "" && l[|l| - 1] == '\n' then l[..|l| - 1] else l;
    if s != "" && s[|s| - 1] == '\r' then s[..|s| - 1] else s
  }

  function ScanAll(ls: seq<string>): seq<string>
  {
    if ls == [] then [] else ScanAll(ls[..|ls| - 1]) + [DropEol(ls[|ls| - 1])]
  }

  function Scanned(content: string): seq<string>
  {
    var p := SplitLines(content);
    ScanAll(p.lines) + if p.tail == "" then [] else [DropEol(p.tail)]
  }

  /** The timestamp of a line that holds the PULSE tag where powerdb looks for it. */
  function PulseTime(text: string): Option<int>
  {
    var parts := SplitOn(text, ' ');
    if |parts| < 2 then None
    else if ParseInt(parts[0]) == None then None
    else if parts[if |parts| >= 4 then 2 else 1] == "PULSE" then ParseInt(parts[0])
    else None
  }

  predicate PulseIn(text: string, start: int, end: int)
  {
    PulseTime(text).Some? && start <= PulseTime(text).value < end
  }

  function CountIn(texts: seq<string>, start: int, end: int): nat
  {
    if texts == [] then 0
    else CountIn(texts[..|texts| - 1], start, end) + if PulseIn(texts[|texts| - 1], start, end) then 1 else 0
  }

  lemma CountInSnoc(texts: seq<string>, i: nat, start: int, end: int)
    requires i < |texts|
    ensures CountIn(texts[..i + 1], start, end) ==
            CountIn(texts[..i], start, end) + if PulseIn(texts[i], start, end) then 1 else 0
  {
    assert texts[..i + 1][..i] == texts[..i];
  }

  function PeriodWh(files: map<int, string>, period: int, off: int): nat
  {
    var file := GetPeriodFile(period);
    if file in files then CountIn(Scanned(files[file]), GetPrevPeriod(period, off), period) else 0
  }

  // ---------- The table ----------

  predicate HasPeriod(rows: seq<Row>, period: int)
  {
    exists i :: 0 <= i < |rows| && rows[i].halfHourEnding == period
  }

  function MaxPeriod(rows: seq<Row>): int
    requires rows != []
  {
    var last := rows[|rows| - 1].halfHourEnding;
    if |rows| == 1 || last >= MaxPeriod(rows[..|rows| - 1]) then last else MaxPeriod(rows[..|rows| - 1])
  }

  function LastUpdate(rows: seq<Row>, off: int): int
  {
    if rows == [] then Sentinel(off) else MaxPeriod(rows)
  }

  /** The rows one run inserts from period d on. */
  function Inserted(files: map<int, string>, d: int, stop: int, off: int): seq<Row>
    decreases stop - d
  {
    if d >= stop then []
    else
      LastFullPeriodIs(d, off);
      [Row(d, PeriodWh(files, d, off))] + Inserted(files, GetNextPeriod(d, off), stop, off)
  }

  function RunOnce(rows: seq<Row>, files: map<int, string>, now: int, off: int): seq<Row>
  {
    rows + Inserted(files, GetNextPeriod(LastUpdate(rows, off), off), GetLastFullPeriod(now, off), off)
  }

  class Database {
    const off: int
    var rows: seq<Row>

    constructor (off: int)
      ensures rows == [] && this.off == off
    {
      this.off, rows := off, [];
    }

    method GetLastUpdate() returns (ts: int)
      ensures ts == LastUpdate(rows, off)
    {
      if |rows| == 0 {
        return Sentinel(off);
      }
      ts := rows[0].halfHourEnding;
      for i := 1 to |rows|
        invariant ts == MaxPeriod(rows[..i])
      {
        assert rows[..i + 1][..i] == rows[..i];
        if rows[i].halfHourEnding >= ts {
          ts := rows[i].halfHourEnding;
        }
      }
      assert rows[..|rows|] == rows;
    }

    /** The scan of one file. */
    static method CountPulses(texts: seq<string>, startTime: int, period: int) returns (wh: nat)
      ensures wh == CountIn(texts, startTime, period)
    {
      wh := 0;
      for i := 0 to |texts|
        invariant wh == CountIn(texts[..i], startTime, period)
      {
        CountInSnoc(texts, i, startTime, period);
        var parts := SplitOn(texts[i], ' ');
        if |parts| < 2 {
          continue;
        }
        var t := ParseInt(parts[0]);
        if t == None {
          continue;
        }
        if t.value < startTime || t.value >= period {
          continue;
        }
        var idx := 1;
        if |parts| >= 4 {
          idx := idx + 1;
        }
        if parts[idx] == "PULSE" {
          wh := wh + 1;
        }
      }
      assert texts[..|texts|] == texts;
    }

    /** False is the log.Fatal of an INSERT that repeats a primary key. */
    method InsertPeriodToDB(period: int, files: map<int, string>) returns (ok: bool)
      modifies this
      ensures ok <==> !HasPeriod(old(rows), period)
      ensures rows == old(rows) + if ok then [Row(period, PeriodWh(files, period, off))] else []
    {
      var filename := GetPeriodFile(period);
      var startTime := GetPrevPeriod(period, off);
      var wh := 0;
      if filename in files {
        wh := CountPulses(Scanned(files[filename]), startTime, period);
      }
      ok := !HasPeriod(rows, period);
      if ok {
        rows := rows + [Row(period, wh)];
      }
    }

    /** One run of the program at time `now`. */
    method Aggregate(now: int, files: map<int, string>) returns (ok: bool)
      modifies this
      ensures ok ==> rows == RunOnce(old(rows), files, now, off)
      ensures Tiled(old(rows), off) ==> ok
    {
      var dbPeriod := GetLastUpdate();
      var nextPeriod := GetNextPeriod(dbPeriod, off);
      var previousPeriod := GetLastFullPeriod(now, off);
      if Tiled(rows, off) {
        NextContinues(rows, off);
      }
      var d := nextPeriod;
      while d < previousPeriod
        invariant rows + Inserted(files, d, previousPeriod, off) == RunOnce(old(rows), files, now, off)
        invariant Tiled(old(rows), off) ==> Tiled(rows, off) && d == PeriodAt(|rows|, off)
        decreases previousPeriod - d
      {
        LastFullPeriodIs(d, off);
        if Tiled(rows, off) && d == PeriodAt(|rows|, off) {
          TiledExtends(rows, d, PeriodWh(files, d, off), off);
        }
        ghost var rest := Inserted(files, GetNextPeriod(d, off), previousPeriod, off);
        assert rows + ([Row(d, PeriodWh(files, d, off))] + rest) == (rows + [Row(d, PeriodWh(files, d, off))]) + rest;
        ok := InsertPeriodToDB(d, files);
        if !ok {
          return;
        }
        d := GetNextPeriod(d, off);
      }
      ok := true;
    }
  }

  // ---------- Tiling ----------

  function PeriodAt(i: nat, off: int): int
  {
    Sentinel(off) + HALF_HOUR * (i + 1)
  }

  /** The rows are the consecutive half hours since the sentinel, each once and in order. */
  ghost predicate Tiled(rows: seq<Row>, off: int)
  {
    forall i :: 0 <= i < |rows| ==> rows[i].halfHourEnding == PeriodAt(i, off)
  }

  lemma PeriodAtAligned(i: nat, off: int)
    ensures Aligned(PeriodAt(i, off), off) && Aligned(Sentinel(off), off)
    ensures GetLastFullPeriod(PeriodAt(i, off), off) == PeriodAt(i, off)
    ensures GetNextPeriod(PeriodAt(i, off), off) == PeriodAt(i + 1, off)
    ensures GetPrevPeriod(PeriodAt(i, off), off) == PeriodAt(i, off) - HALF_HOUR
    ensures GetNextPeriod(Sentinel(off), off) == PeriodAt(0, off)
  {
    assert PeriodAt(i, off) + off == HALF_HOUR * (831641 + i) ;
    AlignedFixed(PeriodAt(i, off), off);
    AlignedFixed(Sentinel(off), off);
  }

  lemma {:induction false} TiledMax(rows: seq<Row>, off: int)
    requires rows != [] && Tiled(rows, off)
    ensures MaxPeriod(rows) == PeriodAt(|rows| - 1, off)
  {
    if |rows| > 1 {
      TiledMax(rows[..|rows| - 1], off);
    }
  }

  lemma NextContinues(rows: seq<Row>, off: int)
    requires Tiled(rows, off)
    ensures GetNextPeriod(LastUpdate(rows, off), off) == PeriodAt(|rows|, off)
  {
    PeriodAtAligned(|rows|, off);
    if rows != [] {
      TiledMax(rows, off);
      PeriodAtAligned(|rows| - 1, off);
    }
  }

  lemma TiledExtends(rows: seq<Row>, d: int, wh: nat, off: int)
    requires Tiled(rows, off) && d == PeriodAt(|rows|, off)
    ensures Tiled(rows + [Row(d, wh)], off)
    ensures !HasPeriod(rows, d)
    ensures GetNextPeriod(d, off) == PeriodAt(|rows| + 1, off)
  {
    PeriodAtAligned(|rows|, off);
  }

  /** What a run adds to a tiled table: the next half hours, one row each, up to but not including the last
      full period; so each window it reads ended at least half an hour before that. */
  lemma {:induction false} InsertedTiles(files: map<int, string>, i: nat, stop: int, off: int)
    requires Aligned(stop, off)
    ensures var added := Inserted(files, PeriodAt(i, off), stop, off);
            && TilesFrom(files, i, added, stop, off)
            && PeriodAt(i + |added|, off) >= stop
            && (|added| > 0 ==> PeriodAt(i + |added|, off) == stop)
    decreases stop - PeriodAt(i, off)
  {
    var d := PeriodAt(i, off);
    PeriodAtAligned(i, off);
    if d < stop {
      NextBoundary(d, stop, off);
      InsertedTiles(files, i + 1, stop, off);
      OneBefore(files, i, Inserted(files, PeriodAt(i + 1, off), stop, off), stop, off);
    }
  }

  /** Rows for the half hours from the i-th on, all of which end early enough before `stop`. */
  ghost predicate TilesFrom(files: map<int, string>, i: nat, added: seq<Row>, stop: int, off: int)
  {
    forall k :: 0 <= k < |added| ==>
      added[k] == Row(PeriodAt(i + k, off), PeriodWh(files, PeriodAt(i + k, off), off))
      && PeriodAt(i + k, off) + HALF_HOUR <= stop
  }

  lemma OneBefore(files: map<int, string>, i: nat, rest: seq<Row>, stop: int, off: int)
    requires TilesFrom(files, i + 1, rest, stop, off) && PeriodAt(i, off) + HALF_HOUR <= stop
    ensures TilesFrom(files, i, [Row(PeriodAt(i, off), PeriodWh(files, PeriodAt(i, off), off))] + rest, stop, off)
  {
    var added := [Row(PeriodAt(i, off), PeriodWh(files, PeriodAt(i, off), off))] + rest;
    forall k | 0 < k < |added|
      ensures added[k] == Row(PeriodAt(i + k, off), PeriodWh(files, PeriodAt(i + k, off), off))
      ensures PeriodAt(i + k, off) + HALF_HOUR <= stop
    {
      assert added[k] == rest[k - 1];
      assert i + 1 + (k - 1) == i + k;
    }
  }

  lemma NextBoundary(d: int, stop: int, off: int)
    requires Aligned(d, off) && Aligned(stop, off) && d < stop
    ensures d + HALF_HOUR <= stop
  {
    var a, b := (stop + off) / HALF_HOUR, (d + off) / HALF_HOUR;
    assert stop - d == HALF_HOUR * (a - b);
  }

  /** Any sequence of runs, over whatever the files then hold, tiles time: half hours since the sentinel, in
      order, none missing and none twice, and each wholly past when its file was read. */
  lemma RunTiles(rows: seq<Row>, files: map<int, string>, now: int, off: int)
    requires Tiled(rows, off)
    ensures var after := RunOnce(rows, files, now, off);
            && Tiled(after, off) && rows <= after
            && (forall k :: |rows| <= k < |after| ==>
                  after[k] == Row(PeriodAt(k, off), PeriodWh(files, PeriodAt(k, off), off))
                  && PeriodAt(k, off) + HALF_HOUR <= now)
            && now < PeriodAt(|after|, off) + HALF_HOUR
            && (|after| > |rows| ==> PeriodAt(|after|, off) <= now)
  {
    var stop := GetLastFullPeriod(now, off);
    LastFullPeriodIs(now, off);
    NextContinues(rows, off);
    InsertedTiles(files, |rows|, stop, off);
    var added := Inserted(files, PeriodAt(|rows|, off), stop, off);
    var after := RunOnce(rows, files, now, off);
    forall k | |rows| <= k < |after|
      ensures after[k] == Row(PeriodAt(k, off), PeriodWh(files, PeriodAt(k, off), off))
      ensures PeriodAt(k, off) + HALF_HOUR <= now
    {
      assert after[k] == added[k - |rows|];
      assert PeriodAt(|rows| + (k - |rows|), off) == PeriodAt(k, off);
    }
  }
}
