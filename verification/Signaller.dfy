/** The client table and the watched set of common/signaller.c. */
module Signaller {

  const FD_SETSIZE := 1024

  /** What a ready client's read gives: bytes, end of stream, or an error. */
  datatype ClientRead = Bytes(data: string) | Closed | Failed

  /** The descriptors in the slots that are in use. */
  function Live(slots: seq<int>): set<int>
  {
    if slots == [] then {}
    else Live(slots[..|slots| - 1]) + if slots[|slots| - 1] >= 0 then {slots[|slots| - 1]} else {}
  }

  lemma {:induction false} LiveHas(slots: seq<int>, fd: int)
    ensures fd in Live(slots) <==> fd >= 0 && fd in slots
  {
    if slots != [] {
      LiveHas(slots[..|slots| - 1], fd);
      assert slots == slots[..|slots| - 1] + [slots[|slots| - 1]];
    }
  }

  /** No descriptor has two slots. */
  ghost predicate SlotsDistinct(slots: seq<int>)
  {
    forall i, j :: 0 <= i < j < |slots| && slots[i] >= 0 ==> slots[i] != slots[j]
  }

  ghost predicate FreeFrom(slots: seq<int>, n: int)
  {
    forall i :: 0 <= i < |slots| && i >= n ==> slots[i] < 0
  }

  predicate HasFreeSlot(slots: seq<int>)
  {
    exists i :: 0 <= i < |slots| && slots[i] < 0
  }

  /** Putting a new descriptor into a free slot adds just it ... */
  lemma LiveFilled(slots: seq<int>, i: nat, fd: int)
    requires i < |slots| && slots[i] < 0 && fd >= 0 && fd !in slots && SlotsDistinct(slots)
    ensures Live(slots[i := fd]) == Live(slots) + {fd} && SlotsDistinct(slots[i := fd])
  {
    var after := slots[i := fd];
    forall x
      ensures x in Live(after) <==> x in Live(slots) || x == fd
    {
      LiveHas(slots, x);
      LiveHas(after, x);
      assert after[i] == fd;
      assert forall k :: 0 <= k < |slots| && k != i ==> after[k] == slots[k];
      if x in slots && x >= 0 {
        var k :| 0 <= k < |slots| && slots[k] == x;
        assert after[k] == x;
      }
    }
  }

  /** ... and freeing a slot removes just its descriptor. */
  lemma LiveFreed(slots: seq<int>, i: nat)
    requires i < |slots| && slots[i] >= 0 && SlotsDistinct(slots)
    ensures Live(slots[i := -1]) == Live(slots) - {slots[i]} && SlotsDistinct(slots[i := -1])
  {
    var after := slots[i := -1];
    forall x
      ensures x in Live(after) <==> x in Live(slots) && x != slots[i]
    {
      LiveHas(slots, x);
      LiveHas(after, x);
      if x in Live(slots) && x != slots[i] {
        var k :| 0 <= k < |slots| && slots[k] == x;
        assert after[k] == x;
      }
      if x in Live(after) {
        var k :| 0 <= k < |after| && after[k] == x;
        assert slots[k] == x;
      }
    }
  }

  lemma {:induction false} LivePrefix(slots: seq<int>, n: nat)
    requires n <= |slots| && FreeFrom(slots, n)
    ensures Live(slots[..n]) == Live(slots)
    decreases |slots|
  {
    if n < |slots| {
      LivePrefix(slots[..|slots| - 1], n);
      assert slots[..|slots| - 1][..n] == slots[..n];
    } else {
      assert slots[..n] == slots;
    }
  }

  lemma LiveSnoc(slots: seq<int>, n: nat)
    requires n < |slots|
    ensures Live(slots[..n + 1]) == Live(slots[..n]) + if slots[n] >= 0 then {slots[n]} else {}
  {
    assert slots[..n + 1][..n] == slots[..n];
  }

  function ClosedAmong(live: set<int>, ready: set<int>, given: map<int, ClientRead>): set<int>
  {
    set fd | fd in live && fd in ready && fd in given && given[fd].Closed?
  }

  lemma ClosedSnoc(slots: seq<int>, i: nat, ready: set<int>, given: map<int, ClientRead>)
    requires i < |slots| && ready * Live(slots) <= given.Keys
    ensures var fd := slots[i];
            ClosedAmong(Live(slots[..i + 1]), ready, given) ==
            ClosedAmong(Live(slots[..i]), ready, given) +
            if fd >= 0 && fd in ready && fd in given && given[fd].Closed? then {fd} else {}
  {
    LiveSnoc(slots, i);
  }

  /** What the ready clients say, in the order of their slots. */
  function Spoken(slots: seq<int>, ready: set<int>, given: map<int, ClientRead>): string
  {
    if slots == [] then ""
    else
      var fd := slots[|slots| - 1];
      var before := Spoken(slots[..|slots| - 1], ready, given);
      if fd >= 0 && fd in ready && fd in given && given[fd].Bytes? then before + given[fd].data else before
  }

  lemma SpokenSnoc(slots: seq<int>, i: nat, ready: set<int>, given: map<int, ClientRead>)
    requires i < |slots|
    ensures Spoken(slots[..i + 1], ready, given) ==
            Spoken(slots[..i], ready, given) +
            if slots[i] >= 0 && slots[i] in ready && slots[i] in given && given[slots[i]].Bytes?
            then given[slots[i]].data else ""
  {
    assert slots[..i + 1][..i] == slots[..i];
    assert Spoken(slots[..i], ready, given) + "" == Spoken(slots[..i], ready, given);
  }

  /** At most one free slot was given to fd. */
  ghost predicate Seated(before: seq<int>, after: seq<int>, fd: int)
  {
    |before| == |after| && forall k :: 0 <= k < |before| ==> after[k] == before[k] || (before[k] < 0 && after[k] == fd)
  }

  /** A client that is not ready says nothing. */
  lemma {:induction false} SilentSeat(before: seq<int>, after: seq<int>, fd: int,
                                      ready: set<int>, given: map<int, ClientRead>)
    requires Seated(before, after, fd) && fd !in ready
    ensures Spoken(after, ready, given) == Spoken(before, ready, given)
  {
    if before != [] {
      var n := |before| - 1;
      SilentSeat(before[..n], after[..n], fd, ready, given);
    }
  }

  lemma {:induction false} SpokenPrefix(slots: seq<int>, n: nat, ready: set<int>, given: map<int, ClientRead>)
    requires n <= |slots| && FreeFrom(slots, n)
    ensures Spoken(slots[..n], ready, given) == Spoken(slots, ready, given)
    decreases |slots|
  {
    if n < |slots| {
      SpokenPrefix(slots[..|slots| - 1], n, ready, given);
      assert slots[..|slots| - 1][..n] == slots[..n];
    } else {
      assert slots[..n] == slots;
    }
  }

  /** These clients, and no others, have been sent the data, once. */
  ghost predicate Copied(before: map<int, string>, after: map<int, string>, clients: set<int>, data: string)
  {
    && after.Keys == before.Keys + clients
    && forall fd :: fd in after ==>
         after[fd] == (if fd in before then before[fd] else "") + if fd in clients then data else ""
  }

  lemma NothingCopied(sent: map<int, string>, data: string)
    ensures Copied(sent, sent, {}, data)
  {
  }

  class Bridge {
    const serialFd: int
    const listenFd: int
    const client: array<int>
    var rfds: set<int>
    var maxFd: int
    var maxClient: int
    var toSerial: string
    var sent: map<int, string>

    /** The watched set is the serial port, the listener and the clients in the table; clients are distinct, the
        slots above maxClient are free, and maxFd bounds what is watched. */
    ghost predicate Valid()
      reads this, client
    {
      && 0 <= serialFd < listenFd
      && client.Length == FD_SETSIZE
      && rfds == {serialFd, listenFd} + Live(client[..])
      && SlotsDistinct(client[..])
      && serialFd !in Live(client[..]) && listenFd !in Live(client[..])
      && -1 <= maxClient < FD_SETSIZE
      && FreeFrom(client[..], maxClient + 1)
      && (forall fd :: fd in rfds ==> fd <= maxFd)
    }

    constructor (serialFd: int, listenFd: int)
      requires 0 <= serialFd < listenFd
      ensures Valid() && Live(client[..]) == {} && fresh(client)
      ensures this.serialFd == serialFd && this.listenFd == listenFd
    {
      this.serialFd, this.listenFd := serialFd, listenFd;
      client := new int[FD_SETSIZE](_ => -1);
      rfds := {serialFd, listenFd};
      maxFd, maxClient := listenFd, -1;
      toSerial, sent := "", map[];
      new;
      assert FreeFrom(client[..], 0);
      LivePrefix(client[..], 0);
      assert client[..][..0] == [];
    }

    /** The first slot that is free; FD_SETSIZE if there is none. */
    method FindSlot() returns (i: nat)
      requires Valid()
      ensures i <= FD_SETSIZE
      ensures forall k :: 0 <= k < i ==> client[k] >= 0
      ensures i < FD_SETSIZE ==> client[i] < 0
    {
      i := 0;
      while i < FD_SETSIZE
        invariant i <= FD_SETSIZE
        invariant forall k :: 0 <= k < i ==> client[k] >= 0
      {
        if client[i] < 0 {
          return;
        }
        i := i + 1;
      }
    }

    /** accept() gives a descriptor that is not open, or a negative number.  The new client gets the first free
        slot; only if there is none is it turned away. */
    method Accept(connFd: int) returns (accepted: bool)
      requires Valid() && connFd !in rfds
      modifies this, client
      ensures Valid()
      ensures accepted <==> connFd >= 0 && HasFreeSlot(old(client[..]))
      ensures Live(client[..]) == Live(old(client[..])) + if accepted then {connFd} else {}
      ensures Seated(old(client[..]), client[..], connFd)
      ensures toSerial == old(toSerial) && sent == old(sent)
    {
      if connFd < 0 {
        return false;
      }
      var i := FindSlot();
      if i == FD_SETSIZE {
        return false;
      }
      ghost var before := client[..];
      LiveHas(before, connFd);
      LiveFilled(before, i, connFd);
      client[i] := connFd;
      assert client[..] == before[i := connFd];
      rfds := rfds + {connFd};
      if connFd > maxFd {
        maxFd := connFd;
      }
      if i > maxClient {
        maxClient := i;
      }
      return true;
    }

    /** Bytes from the serial port are copied to the clients up to maxClient, and these are all clients, each
        once. */
    method Broadcast(data: string)
      requires Valid()
      modifies this`sent
      ensures Valid()
      ensures Copied(old(sent), sent, Live(client[..]), data)
    {
      ghost var done: set<int> := {};
      var i := 0;
      assert client[..][..0] == [];
      while i <= maxClient
        invariant 0 <= i <= maxClient + 1
        invariant Valid()
        invariant done == Live(client[..][..i])
        invariant Copied(old(sent), sent, done, data)
      {
        LiveSnoc(client[..], i);
        var fd := client[i];
        if fd >= 0 {
          NotYet(client[..], i);
          CopiedOneMore(old(sent), sent, done, fd, data);
          sent := sent[fd := (if fd in sent then sent[fd] else "") + data];
          done := done + {fd};
        }
        i := i + 1;
      }
      LivePrefix(client[..], i);
    }

    /** A client has disconnected. */
    method Drop(i: nat)
      requires Valid() && i < FD_SETSIZE && client[i] >= 0
      modifies `rfds, client
      ensures Valid()
      ensures client[..] == old(client[..])[i := -1]
      ensures Live(client[..]) == Live(old(client[..])) - {old(client[i])}
    {
      ghost var slots := client[..];
      LiveFreed(slots, i);
      LiveHas(slots, client[i]);
      rfds := rfds - {client[i]};
      client[i] := -1;
      assert client[..] == slots[i := -1];
    }

    /** A client that is ready has been read. */
    method Hear(i: nat, said: ClientRead)
      requires Valid() && i < FD_SETSIZE && client[i] >= 0
      modifies `toSerial, `rfds, client
      ensures Valid()
      ensures toSerial == old(toSerial) + if said.Bytes? then said.data else ""
      ensures client[..] == if said.Closed? then old(client[..])[i := -1] else old(client[..])
      ensures Live(client[..]) == Live(old(client[..])) - if said.Closed? then {old(client[i])} else {}
    {
      match said {
        case Bytes(data) =>
          toSerial := toSerial + data;
        case Closed =>
          Drop(i);
        case Failed =>
      }
    }

    /** The scan over the clients: those that are ready are read; what they say goes to the serial port, and those
        that have closed leave the table and the watched set.  Others are not touched. */
    method ScanClients(ready: set<int>, given: map<int, ClientRead>) returns (ghost closed: set<int>)
      requires Valid() && ready * Live(client[..]) <= given.Keys
      modifies this, client
      ensures Valid() && sent == old(sent)
      ensures closed == ClosedAmong(Live(old(client[..])), ready, given)
      ensures Live(client[..]) == Live(old(client[..])) - closed
      ensures toSerial == old(toSerial) + Spoken(old(client[..]), ready, given)
    {
      closed := {};
      var i := 0;
      ghost var before := client[..];
      assert before[..0] == [];
      while i <= maxClient
        invariant 0 <= i <= maxClient + 1 && maxClient == old(maxClient)
        invariant InScan(before, i, closed, old(toSerial), ready, given) && sent == old(sent)
      {
        closed := Visit(i, ready, given, before, closed, old(toSerial));
        i := i + 1;
      }
      LivePrefix(before, i);
      SpokenPrefix(before, i, ready, given);
    }

    /** The scan has come to slot i; of the clients there were before it, `closed` have left, and what the others
        said has followed `written` to the serial port. */
    ghost predicate InScan(before: seq<int>, i: nat, closed: set<int>, written: string,
                           ready: set<int>, given: map<int, ClientRead>)
      reads this, client
    {
      && Valid() && |before| == FD_SETSIZE && i <= FD_SETSIZE
      && (forall k :: i <= k < FD_SETSIZE ==> client[k] == before[k])
      && closed == ClosedAmong(Live(before[..i]), ready, given)
      && Live(client[..]) == Live(before) - closed
      && toSerial == written + Spoken(before[..i], ready, given)
    }

    /** One slot of the scan. */
    method Visit(i: nat, ready: set<int>, given: map<int, ClientRead>,
                 ghost before: seq<int>, ghost closed: set<int>, ghost written: string)
      returns (ghost after: set<int>)
      requires i < FD_SETSIZE && InScan(before, i, closed, written, ready, given)
      requires ready * Live(before) <= given.Keys
      modifies `toSerial, `rfds, client
      ensures InScan(before, i + 1, after, written, ready, given)
    {
      ClosedSnoc(before, i, ready, given);
      SpokenSnoc(before, i, ready, given);
      after := closed;
      var fd := client[i];
      if fd >= 0 && fd in ready {
        InPrefix(before, i);
        Hear(i, given[fd]);
        after := closed + if given[fd].Closed? then {fd} else {};
      }
    }

    /** A client is accepted in an iteration. */
    ghost predicate Joins(slots: seq<int>, ready: set<int>, connFd: int)
    {
      listenFd in ready && connFd >= 0 && HasFreeSlot(slots)
    }

    /** One iteration of the main loop, after select has said which of the watched descriptors are ready.  A client
        accepted now is not read before the next iteration. */
    method Iterate(ready: set<int>, connFd: int, data: string, given: map<int, ClientRead>)
      requires Valid() && ready <= rfds && connFd !in rfds && ready * Live(client[..]) <= given.Keys
      modifies this, client
      ensures Valid()
      ensures var before := Live(old(client[..]));
              Live(client[..]) - {connFd} == before - ClosedAmong(before, ready, given)
      ensures connFd in Live(client[..]) <==>
                Joins(old(client[..]), ready, connFd)
      ensures toSerial == old(toSerial) + Spoken(old(client[..]), ready, given)
      ensures var clients := Live(old(client[..])) + if Joins(old(client[..]), ready, connFd) then {connFd} else {};
              Copied(old(sent), sent, if serialFd in ready && data != "" then clients else {}, data)
    {
      ghost var before := Live(client[..]);
      var accepted := false;
      if listenFd in ready {
        accepted := Accept(connFd);
      }
      if serialFd in ready && data != "" {
        Broadcast(data);
      }
      if !(serialFd in ready && data != "") {
        NothingCopied(sent, data);
      }
      SilentSeat(old(client[..]), client[..], connFd, ready, given);
      LiveHas(client[..], connFd);
      ghost var now := Live(client[..]);
      assert now == before + if accepted then {connFd} else {};
      NewIsNotRead(before, now, connFd, ready, given);
      var closed := ScanClients(ready, given);
    }
  }

  /** A descriptor that was not watched is not ready. */
  lemma NewIsNotRead(before: set<int>, now: set<int>, fd: int, ready: set<int>, given: map<int, ClientRead>)
    requires fd !in ready && fd !in before && (now == before || now == before + {fd})
    ensures ready * now == ready * before
    ensures ClosedAmong(now, ready, given) == ClosedAmong(before, ready, given)
    ensures (now - ClosedAmong(now, ready, given)) - {fd} == before - ClosedAmong(before, ready, given)
    ensures fd in now - ClosedAmong(now, ready, given) <==> fd in now
  {
  }

  lemma CopiedOneMore(before: map<int, string>, now: map<int, string>, done: set<int>, fd: int, data: string)
    requires Copied(before, now, done, data) && fd !in done
    ensures Copied(before, now[fd := (if fd in now then now[fd] else "") + data], done + {fd}, data)
  {
  }

  lemma NotYet(slots: seq<int>, i: nat)
    requires i < |slots| && slots[i] >= 0 && SlotsDistinct(slots)
    ensures slots[i] !in Live(slots[..i])
  {
    LiveHas(slots[..i], slots[i]);
  }

  lemma InPrefix(slots: seq<int>, i: nat)
    requires i < |slots| && slots[i] >= 0
    ensures slots[i] in Live(slots)
  {
    LiveHas(slots, slots[i]);
  }
}
