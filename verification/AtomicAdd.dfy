/** The lock-free counter of common/smarthouse.go: `flowSensor.add`, a compare-and-swap loop on the bits of a
    float.  The addition on bit patterns is any function; loads and swaps are atomic. */
module AtomicAdd {

  type Bits = bv64

  /** math.Float64bits(math.Float64frombits(old) + increment). */
  type Addition = (Bits, Bits) -> Bits

  // ---------- One caller, the others interfering ----------

  function AddAll(plus: Addition, v: Bits, incs: seq<Bits>): Bits
  {
    if incs == [] then v else plus(AddAll(plus, v, incs[..|incs| - 1]), incs[|incs| - 1])
  }

  lemma {:induction false} AddAllAppend(plus: Addition, v: Bits, a: seq<Bits>, b: seq<Bits>)
    ensures AddAll(plus, v, a + b) == AddAll(plus, AddAll(plus, v, a), b)
  {
    if b == [] {
      assert a + b == a;
    } else {
      AddAllAppend(plus, v, a, b[..|b| - 1]);
      assert (a + b)[..|a + b| - 1] == a + b[..|b| - 1];
    }
  }

  function Flatten(rounds: seq<seq<Bits>>): seq<Bits>
  {
    if rounds == [] then [] else Flatten(rounds[..|rounds| - 1]) + rounds[|rounds| - 1]
  }

  class Cell {
    var value: Bits

    method CompareAndSwap(old': Bits, new': Bits) returns (ok: bool)
      modifies this
      ensures ok == (old(value) == old')
      ensures value == if ok then new' else old(value)
    {
      ok := value == old';
      if ok {
        value := new';
      }
    }

    /** Other callers complete these additions. */
    method Interfere(plus: Addition, incs: seq<Bits>)
      modifies this
      ensures value == AddAll(plus, old(value), incs)
    {
      for i := 0 to |incs|
        invariant value == AddAll(plus, old(value), incs[..i])
      {
        assert incs[..i + 1][..i] == incs[..i];
        value := plus(value, incs[i]);
      }
      assert incs[..|incs|] == incs;
    }

    /** The retry loop, the k-th attempt of which is disturbed between load and swap by the additions rounds[k],
        and later ones by none.  All additions that happened count, its own last. */
    method Add(plus: Addition, inc: Bits, rounds: seq<seq<Bits>>) returns (attempts: nat)
      modifies this
      ensures attempts <= |rounds|
      ensures value == plus(AddAll(plus, old(value), Flatten(rounds[..attempts])), inc)
    {
      attempts := 0;
      while true
        invariant attempts <= |rounds|
        invariant value == AddAll(plus, old(value), Flatten(rounds[..attempts]))
        decreases |rounds| - attempts
      {
        var oBits := value;
        var nBits := plus(oBits, inc);
        if attempts < |rounds| {
          Interfere(plus, rounds[attempts]);
          AddAllAppend(plus, old(value), Flatten(rounds[..attempts]), rounds[attempts]);
          assert rounds[..attempts + 1][..attempts] == rounds[..attempts];
          attempts := attempts + 1;
        }
        var ok := CompareAndSwap(oBits, nBits);
        if ok {
          return;
        }
      }
    }
  }

  // ---------- Any number of callers, any interleaving ----------

  datatype Pc = Loading | Computing | Swapping | Done

  /** A call in progress; `loadedAt` and `fails` are bookkeeping: how many swaps had succeeded when it loaded, and
      how many of its own have failed. */
  datatype Caller = Caller(pc: Pc, oBits: Bits, nBits: Bits, loadedAt: nat, fails: nat)

  /** The counter, the calls, and which calls have swapped, in order. */
  datatype State = State(value: Bits, callers: seq<Caller>, swaps: seq<nat>)

  function Begin(v0: Bits, n: nat): State
  {
    State(v0, seq(n, i => Caller(Loading, 0, 0, 0, 0)), [])
  }

  function Step(plus: Addition, incs: seq<Bits>, s: State, i: nat): State
    requires |s.callers| == |incs|
  {
    if i >= |incs| then s
    else
      var c := s.callers[i];
      match c.pc
      case Loading =>
        s.(callers := s.callers[i := c.(pc := Computing, oBits := s.value, loadedAt := |s.swaps|)])
      case Computing =>
        s.(callers := s.callers[i := c.(pc := Swapping, nBits := plus(c.oBits, incs[i]))])
      case Swapping =>
        if s.value == c.oBits then
          State(c.nBits, s.callers[i := c.(pc := Done)], s.swaps + [i])
        else
          s.(callers := s.callers[i := c.(pc := Loading, fails := c.fails + 1)])
      case Done => s
  }

  /** The state after the callers have taken steps in the order of `schedule`. */
  function Run(plus: Addition, v0: Bits, incs: seq<Bits>, schedule: seq<nat>): (s: State)
    ensures |s.callers| == |incs|
  {
    if schedule == [] then Begin(v0, |incs|)
    else Step(plus, incs, Run(plus, v0, incs, schedule[..|schedule| - 1]), schedule[|schedule| - 1])
  }

  /** The increments of the given calls, in that order. */
  function Chosen(incs: seq<Bits>, order: seq<nat>): seq<Bits>
    requires forall k :: 0 <= k < |order| ==> order[k] < |incs|
  {
    seq(|order|, k requires 0 <= k < |order| => incs[order[k]])
  }

  /** Every finished call is among the swaps, once, and no other is. */
  ghost predicate SwappedOnce(s: State)
  {
    && (forall k :: 0 <= k < |s.swaps| ==> s.swaps[k] < |s.callers|)
    && Distinct(s.swaps)
    && (forall i :: 0 <= i < |s.callers| ==> (s.callers[i].pc == Done <==> i in s.swaps))
  }

  /** What a call knows: its load is the sum up to some earlier moment, and it has failed at most once per swap. */
  ghost predicate Knows(plus: Addition, v0: Bits, incs: seq<Bits>, s: State, c: Caller, inc: Bits)
    requires forall k :: 0 <= k < |s.swaps| ==> s.swaps[k] < |incs|
  {
    match c.pc
    case Loading => c.fails <= |s.swaps|
    case Done => c.fails < |s.swaps|
    case _ =>
      && c.fails <= c.loadedAt <= |s.swaps|
      && c.oBits == AddAll(plus, v0, Chosen(incs, s.swaps[..c.loadedAt]))
      && (c.pc == Swapping ==> c.nBits == plus(c.oBits, inc))
  }

  ghost predicate Invariant(plus: Addition, v0: Bits, incs: seq<Bits>, s: State)
  {
    && |s.callers| == |incs|
    && SwappedOnce(s)
    && s.value == AddAll(plus, v0, Chosen(incs, s.swaps))
    && forall i :: 0 <= i < |incs| ==> Knows(plus, v0, incs, s, s.callers[i], incs[i])
  }

  lemma ChosenSnoc(incs: seq<Bits>, order: seq<nat>, i: nat)
    requires i < |incs| && forall k :: 0 <= k < |order| ==> order[k] < |incs|
    ensures Chosen(incs, order + [i]) == Chosen(incs, order) + [incs[i]]
  {
  }

  lemma AddAllSnoc(plus: Addition, v: Bits, incs: seq<Bits>, inc: Bits)
    ensures AddAll(plus, v, incs + [inc]) == plus(AddAll(plus, v, incs), inc)
  {
    assert (incs + [inc])[..|incs|] == incs;
  }

  /** A successful swap adds the caller's increment to what all swaps before it amount to. */
  lemma SwapKeeps(plus: Addition, v0: Bits, incs: seq<Bits>, s: State, i: nat)
    requires Invariant(plus, v0, incs, s) && i < |incs|
    requires s.callers[i].pc == Swapping && s.value == s.callers[i].oBits
    ensures Invariant(plus, v0, incs, Step(plus, incs, s, i))
  {
    var t := Step(plus, incs, s, i);
    ChosenSnoc(incs, s.swaps, i);
    AddAllSnoc(plus, v0, Chosen(incs, s.swaps), incs[i]);
    assert i !in s.swaps;
    forall j | 0 <= j < |incs|
      ensures Knows(plus, v0, incs, t, t.callers[j], incs[j])
    {
      var c := s.callers[j];
      assert Knows(plus, v0, incs, s, c, incs[j]);
      if j != i && (c.pc == Computing || c.pc == Swapping) {
        assert t.swaps[..c.loadedAt] == s.swaps[..c.loadedAt];
      }
    }
    forall j | 0 <= j < |t.callers|
      ensures t.callers[j].pc == Done <==> j in t.swaps
    {
      assert j in t.swaps <==> j in s.swaps || j == i;
    }
  }

  lemma OtherStepKeeps(plus: Addition, v0: Bits, incs: seq<Bits>, s: State, i: nat)
    requires Invariant(plus, v0, incs, s) && i < |incs|
    requires !(s.callers[i].pc == Swapping && s.value == s.callers[i].oBits)
    ensures Invariant(plus, v0, incs, Step(plus, incs, s, i))
  {
    var t := Step(plus, incs, s, i);
    StepKnows(plus, v0, incs, s, i);
    assert forall j :: 0 <= j < |incs| ==> (t.callers[j].pc == Done <==> s.callers[j].pc == Done);
    forall j | 0 <= j < |incs| && j != i
      ensures Knows(plus, v0, incs, t, t.callers[j], incs[j])
    {
      assert t.callers[j] == s.callers[j] && Knows(plus, v0, incs, s, s.callers[j], incs[j]);
    }
  }

  lemma StepKnows(plus: Addition, v0: Bits, incs: seq<Bits>, s: State, i: nat)
    requires Invariant(plus, v0, incs, s) && i < |incs|
    requires !(s.callers[i].pc == Swapping && s.value == s.callers[i].oBits)
    ensures var t := Step(plus, incs, s, i);
            && t.swaps == s.swaps && t.value == s.value
            && Knows(plus, v0, incs, t, t.callers[i], incs[i])
            && (t.callers[i].pc == Done <==> s.callers[i].pc == Done)
            && forall j :: 0 <= j < |incs| && j != i ==> t.callers[j] == s.callers[j]
  {
    var c := s.callers[i];
    assert Knows(plus, v0, incs, s, c, incs[i]);
    match c.pc
    case Loading =>
      assert s.swaps[..|s.swaps|] == s.swaps;
    case Computing =>
    case Swapping =>
      FailureExplained(plus, v0, incs, s, i);
    case Done =>
  }

  /** If a swap fails, another call has swapped since this one loaded. */
  lemma FailureExplained(plus: Addition, v0: Bits, incs: seq<Bits>, s: State, i: nat)
    requires Invariant(plus, v0, incs, s) && i < |incs|
    requires s.callers[i].pc == Swapping && s.value != s.callers[i].oBits
    ensures s.callers[i].loadedAt < |s.swaps|
    ensures forall k :: s.callers[i].loadedAt <= k < |s.swaps| ==> s.swaps[k] != i
  {
    assert Knows(plus, v0, incs, s, s.callers[i], incs[i]);
    assert s.swaps[..|s.swaps|] == s.swaps;
    assert i !in s.swaps;
  }

  /** No update is lost, whatever the number of callers and the interleaving: the counter always is the sum of the
      increments of the calls that have swapped, in the order of their swaps, each finished call once. */
  lemma {:induction false} NoLostUpdate(plus: Addition, v0: Bits, incs: seq<Bits>, schedule: seq<nat>)
    ensures Invariant(plus, v0, incs, Run(plus, v0, incs, schedule))
  {
    if schedule != [] {
      var s := Run(plus, v0, incs, schedule[..|schedule| - 1]);
      var i := schedule[|schedule| - 1];
      NoLostUpdate(plus, v0, incs, schedule[..|schedule| - 1]);
      if i < |incs| {
        if s.callers[i].pc == Swapping && s.value == s.callers[i].oBits {
          SwapKeeps(plus, v0, incs, s, i);
        } else {
          OtherStepKeeps(plus, v0, incs, s, i);
        }
      }
    }
  }

  // ---------- Once all calls are done ----------

  function Below(n: nat): (r: set<nat>)
    ensures |r| == n && forall i :: i in r <==> 0 <= i < n
  {
    if n == 0 then {} else Below(n - 1) + {n - 1}
  }

  function Members(order: seq<nat>): (r: set<nat>)
    ensures forall i :: i in r <==> i in order
  {
    if order == [] then {} else Members(order[..|order| - 1]) + {order[|order| - 1]}
  }

  ghost predicate Distinct(order: seq<nat>)
  {
    forall j, k :: 0 <= j < k < |order| ==> order[j] != order[k]
  }

  lemma {:induction false} DistinctSize(order: seq<nat>)
    requires Distinct(order)
    ensures |Members(order)| == |order|
  {
    if order != [] {
      DistinctSize(order[..|order| - 1]);
    }
  }

  lemma SubsetSize(a: set<nat>, b: set<nat>)
    requires a <= b
    ensures |a| <= |b| && (|a| == |b| ==> a == b)
  {
    assert b == a + (b - a);
  }

  /** n calls can swap at most n times. */
  lemma DistinctBelow(order: seq<nat>, n: nat)
    requires Distinct(order)
    requires forall k :: 0 <= k < |order| ==> order[k] < n
    ensures |order| <= n
  {
    DistinctSize(order);
    SubsetSize(Members(order), Below(n));
  }

  /** A call among n retries at most n - 1 times. */
  lemma RetryBound(plus: Addition, v0: Bits, incs: seq<Bits>, schedule: seq<nat>, i: nat)
    requires i < |incs|
    ensures Run(plus, v0, incs, schedule).callers[i].fails < |incs|
  {
    var s := Run(plus, v0, incs, schedule);
    NoLostUpdate(plus, v0, incs, schedule);
    assert Knows(plus, v0, incs, s, s.callers[i], incs[i]);
    if s.callers[i].pc == Done {
      DistinctBelow(s.swaps, |incs|);
    } else {
      var order := s.swaps + [i];
      DistinctBelow(order, |incs|);
    }
  }

  /** When all calls are done, the counter is the sum of all increments, in some order that takes each once. */
  lemma AllDone(plus: Addition, v0: Bits, incs: seq<Bits>, schedule: seq<nat>)
    requires forall i :: 0 <= i < |incs| ==> Run(plus, v0, incs, schedule).callers[i].pc == Done
    ensures var s := Run(plus, v0, incs, schedule);
            && |s.swaps| == |incs|
            && (forall i :: 0 <= i < |incs| ==> i in s.swaps)
            && (forall k :: 0 <= k < |s.swaps| ==> s.swaps[k] < |incs|)
            && s.value == AddAll(plus, v0, Chosen(incs, s.swaps))
  {
    var s := Run(plus, v0, incs, schedule);
    NoLostUpdate(plus, v0, incs, schedule);
    assert forall i :: 0 <= i < |incs| ==> s.callers[i].pc == Done;
    AllSwapped(s.swaps, |incs|);
  }

  lemma AllSwapped(order: seq<nat>, n: nat)
    requires Distinct(order)
    requires forall k :: 0 <= k < |order| ==> order[k] < n
    requires forall i :: 0 <= i < n ==> i in order
    ensures |order| == n
  {
    DistinctBelow(order, n);
    DistinctSize(order);
    SubsetSize(Below(n), Members(order));
  }

  // ---------- Progress ----------

  /** How often a caller has been scheduled. */
  function Turns(schedule: seq<nat>, i: nat): nat
  {
    if schedule == [] then 0
    else Turns(schedule[..|schedule| - 1], i) + if schedule[|schedule| - 1] == i then 1 else 0
  }

  function StepsInto(pc: Pc): nat
  {
    match pc
    case Loading => 0
    case Computing => 1
    case Swapping => 2
    case Done => 3
  }

  /** A call that is not done has spent three steps on each failure, and the rest on the present attempt. */
  lemma {:induction false} StepsSpent(plus: Addition, v0: Bits, incs: seq<Bits>, schedule: seq<nat>, i: nat)
    requires i < |incs|
    ensures var c := Run(plus, v0, incs, schedule).callers[i];
            c.pc != Done ==> Turns(schedule, i) == 3 * c.fails + StepsInto(c.pc)
  {
    if schedule != [] {
      var before := schedule[..|schedule| - 1];
      StepsSpent(plus, v0, incs, before, i);
      OneTurn(plus, incs, Run(plus, v0, incs, before), schedule[|schedule| - 1], i);
    }
  }

  lemma OneTurn(plus: Addition, incs: seq<Bits>, s: State, j: nat, i: nat)
    requires |s.callers| == |incs| && i < |incs|
    ensures var c, d := s.callers[i], Step(plus, incs, s, j).callers[i];
            && (d.pc != Done ==> c.pc != Done)
            && (d.pc != Done ==>
                  3 * d.fails + StepsInto(d.pc) == 3 * c.fails + StepsInto(c.pc) + if j == i then 1 else 0)
  {
    var t := Step(plus, incs, s, j);
    if j != i {
      assert t.callers[i] == s.callers[i];
    }
  }

  /** No call ever waits for another: among n callers, a call that has had 3n steps is done, however the others
      were scheduled in between. */
  lemma DoneInTime(plus: Addition, v0: Bits, incs: seq<Bits>, schedule: seq<nat>, i: nat)
    requires i < |incs| && Turns(schedule, i) >= 3 * |incs|
    ensures Run(plus, v0, incs, schedule).callers[i].pc == Done
  {
    StepsSpent(plus, v0, incs, schedule, i);
    RetryBound(plus, v0, incs, schedule, i);
  }

  /** So under any schedule that gives every caller as many steps, all increments arrive, each once. */
  lemma AllArrive(plus: Addition, v0: Bits, incs: seq<Bits>, schedule: seq<nat>)
    requires forall i :: 0 <= i < |incs| ==> Turns(schedule, i) >= 3 * |incs|
    ensures var s := Run(plus, v0, incs, schedule);
            && |s.swaps| == |incs|
            && (forall i :: 0 <= i < |incs| ==> i in s.swaps)
            && (forall k :: 0 <= k < |s.swaps| ==> s.swaps[k] < |incs|)
            && s.value == AddAll(plus, v0, Chosen(incs, s.swaps))
  {
    forall i | 0 <= i < |incs|
      ensures Run(plus, v0, incs, schedule).callers[i].pc == Done
    {
      DoneInTime(plus, v0, incs, schedule, i);
    }
    AllDone(plus, v0, incs, schedule);
  }

  /** A call that is not disturbed takes three steps. */
  lemma AloneInThree(plus: Addition, v0: Bits, incs: seq<Bits>, schedule: seq<nat>, i: nat)
    requires i < |incs| && Run(plus, v0, incs, schedule).callers[i].pc == Loading
    ensures var s, t := Run(plus, v0, incs, schedule), Run(plus, v0, incs, schedule + [i, i, i]);
            t.callers[i].pc == Done && t.value == plus(s.value, incs[i])
  {
    RunThree(plus, v0, incs, schedule, i);
    ThreeSteps(plus, incs, Run(plus, v0, incs, schedule), i);
  }

  lemma RunThree(plus: Addition, v0: Bits, incs: seq<Bits>, schedule: seq<nat>, i: nat)
    ensures Run(plus, v0, incs, schedule + [i, i, i]) ==
            Step(plus, incs, Step(plus, incs, Step(plus, incs, Run(plus, v0, incs, schedule), i), i), i)
  {
    RunSnoc(plus, v0, incs, schedule, i);
    RunSnoc(plus, v0, incs, schedule + [i], i);
    RunSnoc(plus, v0, incs, schedule + [i] + [i], i);
    assert schedule + [i] + [i] + [i] == schedule + [i, i, i];
  }

  lemma ThreeSteps(plus: Addition, incs: seq<Bits>, s: State, i: nat)
    requires |s.callers| == |incs| && i < |incs| && s.callers[i].pc == Loading
    ensures var t := Step(plus, incs, Step(plus, incs, Step(plus, incs, s, i), i), i);
            t.callers[i].pc == Done && t.value == plus(s.value, incs[i])
  {
  }

  lemma RunSnoc(plus: Addition, v0: Bits, incs: seq<Bits>, schedule: seq<nat>, i: nat)
    ensures Run(plus, v0, incs, schedule + [i]) == Step(plus, incs, Run(plus, v0, incs, schedule), i)
  {
    assert (schedule + [i])[..|schedule|] == schedule;
  }
}
