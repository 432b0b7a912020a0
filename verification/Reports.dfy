/** Reports as common/common.py reads them off a log line, and the step a meter counter makes between two. */
module Reports {
  import opened Text

  /** The fields of a line: the timestamp as float() reads it, the tag, and the rest as int() reads them. */
  datatype Line = Line(stamp: Option<real>, tag: string, ints: seq<Option<int>>)

  datatype Report = Report(ts: real, nodeId: int, pingId: int, parts: seq<Option<int>>)

  // ---------- Four bytes, least significant first ----------

  function Shift(byte: nat): nat
  {
    if byte == 0 then 1 else 0x100 * Shift(byte - 1)
  }

  /** The sum of the first n bytes; `None` stands for the exception of a missing or malformed field. */
  function LongPrefix(parts: seq<Option<int>>, offset: nat, n: nat): Option<int>
  {
    if n == 0 then Some(0)
    else
      var before := LongPrefix(parts, offset, n - 1);
      if before == None || offset + n > |parts| || parts[offset + n - 1] == None then None
      else Some(before.value + parts[offset + n - 1].value * Shift(n - 1))
  }

  function Long(parts: seq<Option<int>>, offset: nat): Option<int>
  {
    LongPrefix(parts, offset, 4)
  }

  method ParseLong(parts: seq<Option<int>>, offset: nat) returns (val: Option<int>)
    ensures val == Long(parts, offset)
  {
    val := Some(0);
    var shift := 1;
    for byte := 0 to 4
      invariant shift == Shift(byte)
      invariant val.Some? && val == LongPrefix(parts, offset, byte)
    {
      if offset + byte >= |parts| || parts[offset + byte] == None {
        LongFails(parts, offset, byte);
        return None;
      }
      val := Some(val.value + parts[offset + byte].value * shift);
      shift := 0x100 * shift;
    }
  }

  lemma LongFails(parts: seq<Option<int>>, offset: nat, byte: nat)
    requires byte < 4 && (offset + byte >= |parts| || parts[offset + byte] == None)
    ensures Long(parts, offset) == None
  {
    assert LongPrefix(parts, offset, byte + 1) == None;
    if byte < 3 {
      assert LongPrefix(parts, offset, byte + 2) == None;
      if byte < 2 {
        assert LongPrefix(parts, offset, byte + 3) == None;
      }
    }
  }

  /** The bytes a node sends for an unsigned 32-bit counter. */
  function Bytes(n: nat): seq<Option<int>>
  {
    [Some(n % 0x100), Some(n / 0x100 % 0x100), Some(n / 0x1_0000 % 0x100), Some(n / 0x100_0000 % 0x100)]
  }

  /** Reading the bytes of a counter gives the counter, wherever they stand in the line. */
  lemma LongOfBytes(pre: seq<Option<int>>, n: nat, post: seq<Option<int>>)
    requires n < 0x1_0000_0000
    ensures Long(pre + Bytes(n) + post, |pre|) == Some(n)
  {
    var parts := pre + Bytes(n) + post;
    var o := |pre|;
    assert forall k :: 0 <= k < 4 ==> parts[o + k] == Bytes(n)[k];
    assert Shift(0) == 1 && Shift(1) == 0x100 && Shift(2) == 0x1_0000 && Shift(3) == 0x100_0000;
    assert LongPrefix(parts, o, 1) == Some(n % 0x100);
    SecondByte(n);
    ThirdByte(n);
    FourthByte(n);
    assert LongPrefix(parts, o, 2) == Some(n % 0x1_0000);
    assert LongPrefix(parts, o, 3) == Some(n % 0x100_0000);
  }

  lemma SecondByte(n: nat)
    ensures n % 0x1_0000 == n % 0x100 + 0x100 * (n / 0x100 % 0x100)
  {
    var high := n / 0x100;
    assert n == 0x1_0000 * (high / 0x100) + (n % 0x100 + 0x100 * (high % 0x100));
  }

  lemma ThirdByte(n: nat)
    ensures n % 0x100_0000 == n % 0x1_0000 + 0x1_0000 * (n / 0x1_0000 % 0x100)
  {
    var high := n / 0x1_0000;
    assert n == 0x100_0000 * (high / 0x100) + (n % 0x1_0000 + 0x1_0000 * (high % 0x100));
  }

  lemma FourthByte(n: nat)
    requires n < 0x1_0000_0000
    ensures n == n % 0x100_0000 + 0x100_0000 * (n / 0x100_0000 % 0x100)
  {
  }

  // ---------- Lines ----------

  /** `None` is a report that is not valid. */
  function Parse(line: Line): Option<Report>
  {
    if 2 + |line.ints| < 8 || line.tag != "OK" then None
    else if line.stamp == None || line.ints[0] == None || Long(line.ints, 1) == None then None
    else Some(Report(line.stamp.value, line.ints[0].value, Long(line.ints, 1).value, line.ints[6..]))
  }

  /** A meter payload: counter and battery; `None` stands for the exception. */
  function ParseMeterLine(parts: seq<Option<int>>): Option<(int, int)>
  {
    if parts == [] || parts[0] == None then None
    else if |parts| == 2 then
      if parts[1] == None then None else Some((parts[1].value, parts[0].value))
    else if |parts| >= 5 then
      if Long(parts, 1) == None then None else Some((Long(parts, 1).value, parts[0].value))
    else None
  }

  ghost predicate NonNegative(parts: seq<Option<int>>)
  {
    forall i :: 0 <= i < |parts| && parts[i].Some? ==> parts[i].value >= 0
  }

  lemma {:induction false} LongNonNegative(parts: seq<Option<int>>, offset: nat, n: nat)
    requires NonNegative(parts) && LongPrefix(parts, offset, n).Some?
    ensures LongPrefix(parts, offset, n).value >= 0
  {
    if n > 0 {
      LongNonNegative(parts, offset, n - 1);
      var v := parts[offset + n - 1].value;
      assert v * Shift(n - 1) >= 0;
    }
  }

  lemma CounterNonNegative(parts: seq<Option<int>>)
    requires NonNegative(parts) && ParseMeterLine(parts).Some?
    ensures ParseMeterLine(parts).value.0 >= 0
  {
    if |parts| >= 5 {
      LongNonNegative(parts, 1, 4);
    }
  }

  // ---------- Steps ----------

  function CalculateStep(pingId: int, counter: int, lastCounter: int, lastPing: int, lenParts: nat): int
  {
    if pingId == 1 || counter < lastCounter then 1
    else if pingId - 1 != lastPing then
      if counter >= lastCounter then counter - lastCounter
      else
        var missing := pingId - lastPing;
        if lenParts < 13 then 10 * missing - 4 else missing
    else if counter == 0 then
      if lenParts < 5 && lastCounter as real > 16.0 * 0.9 then 6
      else if lastCounter as real > 4294967296.0 * 0.9 then 4294967296 - lastCounter
      else 0
    else counter - lastCounter
  }

  /** What a step is meant to be: a restarted node counts one, otherwise the counter's advance. */
  function PlainStep(pingId: int, counter: int, lastCounter: int): int
  {
    if pingId == 1 || counter < lastCounter then 1 else counter - lastCounter
  }

  /** The branches for missing reports and for wraps of the counter change nothing, with one exception: a
      counter of exactly 0 that follows a negative one in consecutive reports. */
  lemma StepIsPlainIff(pingId: int, counter: int, lastCounter: int, lastPing: int, lenParts: nat)
    ensures CalculateStep(pingId, counter, lastCounter, lastPing, lenParts) == PlainStep(pingId, counter, lastCounter)
       <==> !(pingId != 1 && pingId == lastPing + 1 && counter == 0 && lastCounter < 0)
  {
    assert 16.0 * 0.9 > 0.0 && 4294967296.0 * 0.9 > 0.0;
    if counter == 0 && counter >= lastCounter {
      assert lastCounter as real <= 0.0;
    }
  }

  /** Hence with the counters meters send, no step is negative; one of them falls only on a restart. */
  lemma StepOfCounters(pingId: int, counter: nat, lastCounter: nat, lastPing: int, lenParts: nat)
    ensures CalculateStep(pingId, counter, lastCounter, lastPing, lenParts) == PlainStep(pingId, counter, lastCounter)
    ensures CalculateStep(pingId, counter, lastCounter, lastPing, lenParts) >= 0
  {
    StepIsPlainIff(pingId, counter, lastCounter, lastPing, lenParts);
  }
}
