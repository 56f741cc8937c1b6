/**
 The sending side of examples/tcp/tcp-large-transfer.cc: a callback that writes a cyclic pattern to
 a socket until the socket has no room, and goes on where it stopped when it is called again.
 */
module LargeTransfer {

  const TOTAL_TX_BYTES: nat := 2000000
  const WRITE_SIZE: nat := 1040

  /** Byte k of the stream that the receiver should see. */
  function StreamByte(k: nat): int {
    97 + k % 26
  }

  ghost function Stream(from: nat, count: nat): seq<int> {
    seq(count, i requires 0 <= i < count => StreamByte(from + i))
  }

  // ----- the socket

  /** What the sender did to the socket: an offer of bytes, with the room there was and the answer, or a close. */
  datatype Call = Send(bytes: seq<int>, room: nat, amountSent: int) | Close

  /** Bytes that the socket has accepted. */
  ghost function Accepted(calls: seq<Call>): seq<int> {
    if calls == [] then [] else Accepted(calls[..|calls| - 1]) + AcceptedBy(calls[|calls| - 1])
  }

  ghost function AcceptedBy(c: Call): seq<int> {
    match c
    case Send(bytes, _, n) => if 0 <= n <= |bytes| then bytes[..n] else []
    case Close => []
  }

  /**
   A call that suits what was accepted before it: as many of the next bytes of the stream as there is room
   for, up to the end of the write buffer and of the stream, or a close behind the last byte.
   */
  ghost predicate GoodCall(before: seq<int>, c: Call) {
    match c
    case Send(bytes, room, n) =>
      && 1 <= |bytes| <= room && |before| % 1040 + |bytes| <= 1040 && |before| + |bytes| <= 2000000
      && (|bytes| == room || |before| % 1040 + |bytes| == 1040 || |before| + |bytes| == 2000000)
      && bytes == Stream(|before|, |bytes|)
      && (n < 0 || 1 <= n <= |bytes|)
    case Close => |before| == TOTAL_TX_BYTES
  }

  ghost predicate GoodCalls(calls: seq<Call>) {
    forall i :: 0 <= i < |calls| ==> GoodCall(Accepted(calls[..i]), calls[i])
  }

  /** Any socket: it may refuse, or accept any part of what is offered, and its room may change at will. */
  class Socket {
    var txAvailable: nat
    ghost var calls: seq<Call>

    constructor ()
      ensures calls == []
    {
      txAvailable := *;
      calls := [];
    }

    method Send(data: array<int>, offset: nat, toWrite: nat) returns (amountSent: int)
      requires offset + toWrite <= data.Length && toWrite > 0
      modifies this
      ensures amountSent < 0 || 1 <= amountSent <= toWrite
      ensures calls == old(calls) + [Call.Send(data[offset..offset + toWrite], old(txAvailable), amountSent)]
    {
      var answer: int := *;
      amountSent := if 1 <= answer <= toWrite then answer else -1;
      calls := calls + [Call.Send(data[offset..offset + toWrite], txAvailable, amountSent)];
      txAvailable := *;
    }

    method Close()
      modifies this
      ensures calls == old(calls) + [Call.Close]
    {
      txAvailable := *;
      calls := calls + [Call.Close];
    }

    /** Time passes; the room may change. */
    method Elapse()
      modifies this`txAvailable
    {
      txAvailable := *;
    }
  }

  /** An offer of which the socket took something. */
  ghost predicate WasTaken(c: Call) {
    c.Send? && c.amountSent > 0
  }

  /** The calls from index a up to b were such offers. */
  ghost predicate AllTaken(calls: seq<Call>, a: nat, b: int) {
    forall i :: a <= i < b && i < |calls| ==> WasTaken(calls[i])
  }

  lemma TakenNext(calls: seq<Call>, c: Call, a: nat)
    requires AllTaken(calls, a, |calls|)
    ensures AllTaken(calls + [c], a, |calls|)
    ensures WasTaken(c) ==> AllTaken(calls + [c], a, |calls| + 1)
  {}

  /** The last call was a refused send, or a close. */
  ghost predicate LastCall(calls: seq<Call>, refused: bool) {
    && calls != []
    && var c := calls[|calls| - 1];
      if refused then c.Send? && c.amountSent < 0 else c.Close?
  }

  // ----- the stream

  /** The stream is the 26 codes from 97 on, the lower case letters, over and over. */
  lemma StreamIsAlphabet(k: nat)
    ensures k < 26 ==> StreamByte(k) == 97 + k
    ensures StreamByte(k + 26) == StreamByte(k)
  {}

  // ----- lemmas on calls

  /** The pattern repeats within the write buffer without a seam. */
  lemma PatternFits(k: nat, i: nat)
    ensures StreamByte(k + i) == StreamByte(k % WRITE_SIZE + i)
  {}

  lemma GoodOffer(before: seq<int>, toWrite: nat, room: nat, amountSent: int)
    requires 1 <= toWrite <= room && |before| % WRITE_SIZE + toWrite <= WRITE_SIZE
    requires |before| + toWrite <= TOTAL_TX_BYTES && (amountSent < 0 || 1 <= amountSent <= toWrite)
    requires toWrite == room || |before| % WRITE_SIZE + toWrite == WRITE_SIZE || |before| + toWrite == TOTAL_TX_BYTES
    ensures GoodCall(before, Call.Send(Stream(|before|, toWrite), room, amountSent))
  {}

  lemma OneMoreCall(calls: seq<Call>, c: Call)
    requires GoodCalls(calls) && GoodCall(Accepted(calls), c)
    ensures GoodCalls(calls + [c]) && Accepted(calls + [c]) == Accepted(calls) + AcceptedBy(c)
  {
    var cs := calls + [c];
    assert cs[..|calls|] == calls;
    forall i | 0 <= i < |cs| ensures GoodCall(Accepted(cs[..i]), cs[i]) {
      if i < |calls| {
        assert cs[..i] == calls[..i];
        assert GoodCall(Accepted(calls[..i]), calls[i]);
      }
    }
  }

  lemma StreamGrows(n: nat, offered: nat, taken: nat)
    requires taken <= offered
    ensures Stream(0, n) + Stream(n, offered)[..taken] == Stream(0, n + taken)
  {
    var s := Stream(0, n) + Stream(n, offered)[..taken];
    forall i | 0 <= i < n + taken ensures s[i] == Stream(0, n + taken)[i] {}
  }

  lemma GoodPrefix(calls: seq<Call>)
    requires GoodCalls(calls) && calls != []
    ensures GoodCalls(calls[..|calls| - 1]) && GoodCall(Accepted(calls[..|calls| - 1]), calls[|calls| - 1])
  {
    var m := |calls| - 1;
    forall i | 0 <= i < m ensures GoodCall(Accepted(calls[..m][..i]), calls[..m][i]) {
      assert calls[..m][..i] == calls[..i];
      assert GoodCall(Accepted(calls[..i]), calls[i]);
    }
  }

  /** What is accepted is always a prefix of the stream. */
  lemma {:induction false} AcceptedIsPrefix(calls: seq<Call>)
    requires GoodCalls(calls)
    ensures |Accepted(calls)| <= 2000000 && Accepted(calls) == Stream(0, |Accepted(calls)|)
  {
    if calls == [] {
    } else {
      var m := |calls| - 1;
      GoodPrefix(calls);
      AcceptedIsPrefix(calls[..m]);
      var n := |Accepted(calls[..m])|;
      if calls[m].Send? && calls[m].amountSent >= 0 {
        StreamGrows(n, |calls[m].bytes|, calls[m].amountSent);
      }
    }
  }

  lemma {:induction false} AcceptedGrows(calls: seq<Call>, i: nat)
    requires i <= |calls|
    ensures |Accepted(calls[..i])| <= |Accepted(calls)|
  {
    if i < |calls| {
      var m := |calls| - 1;
      AcceptedGrows(calls[..m], i);
      assert calls[..m][..i] == calls[..i];
    } else {
      assert calls[..i] == calls;
    }
  }

  /** The socket is closed only when everything has been accepted, and nothing is offered to it later. */
  lemma NoSendAfterClose(calls: seq<Call>, i: nat, j: nat)
    requires GoodCalls(calls) && i < j < |calls| && calls[i].Close?
    ensures calls[j].Close? && |Accepted(calls[..i])| == 2000000
  {
    assert GoodCall(Accepted(calls[..i]), calls[i]);
    assert GoodCall(Accepted(calls[..j]), calls[j]);
    AcceptedGrows(calls[..j], i);
    assert calls[..j][..i] == calls[..i];
  }

  // ----- the sender

  class Sender {
    const data: array<int>
    const localSocket: Socket
    var currentTxBytes: nat

    ghost predicate Valid()
      reads this, data, localSocket
    {
      && data.Length == WRITE_SIZE
      && (forall i :: 0 <= i < WRITE_SIZE ==> data[i] == StreamByte(i))
      && GoodCalls(localSocket.calls)
      && currentTxBytes == |Accepted(localSocket.calls)| <= TOTAL_TX_BYTES
    }

    constructor (localSocket: Socket)
      requires localSocket.calls == []
      ensures Valid() && this.localSocket == localSocket && currentTxBytes == 0 && fresh(data)
    {
      this.localSocket := localSocket;
      currentTxBytes := 0;
      data := new int[WRITE_SIZE];
      new;
      for i := 0 to WRITE_SIZE
        invariant currentTxBytes == 0 && localSocket.calls == []
        invariant forall k :: 0 <= k < i ==> data[k] == StreamByte(k)
      {
        data[i] := (97 + i % 26) % 128;
      }
    }

    /**
     The send callback.  It stops when the socket has no room or refuses, or else when everything
     has been accepted, and then it closes the socket.
     */
    method WriteUntilBufferFull()
      requires Valid()
      modifies this, localSocket
      ensures Valid() && old(localSocket.calls) <= localSocket.calls && old(currentTxBytes) <= currentTxBytes
      ensures if currentTxBytes == TOTAL_TX_BYTES then LastCall(localSocket.calls, false)
        else localSocket.txAvailable == 0 || LastCall(localSocket.calls, true)
      ensures AllTaken(localSocket.calls, |old(localSocket.calls)|, |localSocket.calls| - 1)
    {
      while currentTxBytes < TOTAL_TX_BYTES && localSocket.txAvailable > 0
        invariant Valid() && old(localSocket.calls) <= localSocket.calls && old(currentTxBytes) <= currentTxBytes
        invariant AllTaken(localSocket.calls, |old(localSocket.calls)|, |localSocket.calls|)
        decreases TOTAL_TX_BYTES - currentTxBytes
      {
        ghost var before := localSocket.calls;
        var amountSent := WriteOnce();
        TakenNext(before, localSocket.calls[|localSocket.calls| - 1], |old(localSocket.calls)|);
        if amountSent < 0 {
          return;
        }
      }
      if currentTxBytes >= TOTAL_TX_BYTES {
        TakenNext(localSocket.calls, Call.Close, |old(localSocket.calls)|);
        CloseSocket();
      }
    }

    method CloseSocket()
      requires Valid() && currentTxBytes == TOTAL_TX_BYTES
      modifies localSocket
      ensures Valid() && localSocket.calls == old(localSocket.calls) + [Call.Close]
    {
      OneMoreCall(localSocket.calls, Call.Close);
      localSocket.Close();
    }

    /** The loop body: offer what is left of the buffer, as far as it is wanted and there is room. */
    method WriteOnce() returns (amountSent: int)
      requires Valid() && currentTxBytes < TOTAL_TX_BYTES && localSocket.txAvailable > 0
      modifies this, localSocket
      ensures Valid() && localSocket.calls != []
      ensures var c := localSocket.calls[|localSocket.calls| - 1];
        c.Send? && c.amountSent == amountSent && localSocket.calls == old(localSocket.calls) + [c]
      ensures currentTxBytes == old(currentTxBytes) + (if amountSent < 0 then 0 else amountSent)
      ensures amountSent != 0
    {
      var dataOffset, toWrite := NextSlice();
      amountSent := Offer(dataOffset, toWrite);
      if amountSent < 0 {
        return;
      }
      currentTxBytes := currentTxBytes + amountSent;
    }

    method Offer(dataOffset: nat, toWrite: nat) returns (amountSent: int)
      requires Valid() && dataOffset == currentTxBytes % WRITE_SIZE && dataOffset + toWrite <= WRITE_SIZE
      requires 0 < toWrite <= localSocket.txAvailable && currentTxBytes + toWrite <= TOTAL_TX_BYTES
      requires dataOffset + toWrite == WRITE_SIZE || currentTxBytes + toWrite == TOTAL_TX_BYTES
        || toWrite == localSocket.txAvailable
      modifies localSocket
      ensures amountSent < 0 || 1 <= amountSent <= toWrite
      ensures localSocket.calls == old(localSocket.calls)
        + [Call.Send(Stream(currentTxBytes, toWrite), old(localSocket.txAvailable), amountSent)]
      ensures GoodCalls(localSocket.calls)
      ensures |Accepted(localSocket.calls)| == currentTxBytes + (if amountSent < 0 then 0 else amountSent)
    {
      OfferIsStream(dataOffset, toWrite);
      ghost var before, room := localSocket.calls, localSocket.txAvailable;
      amountSent := localSocket.Send(data, dataOffset, toWrite);
      GoodOffer(Accepted(before), toWrite, room, amountSent);
      OneMoreCall(before, Call.Send(Stream(currentTxBytes, toWrite), room, amountSent));
    }

    /** The slice of the buffer to offer next: the largest that the buffer, the total and the socket allow. */
    method NextSlice() returns (dataOffset: nat, toWrite: nat)
      requires currentTxBytes < TOTAL_TX_BYTES && localSocket.txAvailable > 0
      ensures dataOffset == currentTxBytes % WRITE_SIZE
      ensures 0 < toWrite && dataOffset + toWrite <= WRITE_SIZE && currentTxBytes + toWrite <= TOTAL_TX_BYTES
      ensures toWrite <= localSocket.txAvailable
      ensures dataOffset + toWrite == WRITE_SIZE || currentTxBytes + toWrite == TOTAL_TX_BYTES
        || toWrite == localSocket.txAvailable
    {
      var left := TOTAL_TX_BYTES - currentTxBytes;
      dataOffset := currentTxBytes % WRITE_SIZE;
      toWrite := WRITE_SIZE - dataOffset;
      toWrite := if left < toWrite then left else toWrite;
      toWrite := if localSocket.txAvailable < toWrite then localSocket.txAvailable else toWrite;
    }

    lemma OfferIsStream(dataOffset: nat, toWrite: nat)
      requires Valid() && dataOffset == currentTxBytes % WRITE_SIZE && dataOffset + toWrite <= WRITE_SIZE
      ensures data[dataOffset..dataOffset + toWrite] == Stream(currentTxBytes, toWrite)
    {
      var offer := data[dataOffset..dataOffset + toWrite];
      forall i | 0 <= i < toWrite ensures offer[i] == StreamByte(currentTxBytes + i) {
        PatternFits(currentTxBytes, i);
        assert offer[i] == data[dataOffset + i];
      }
    }

    /** The flow is started, and then the callback runs again any number of times. */
    method StartFlow(callbacks: nat)
      requires Valid()
      modifies this, localSocket
      ensures Valid()
      ensures Accepted(localSocket.calls) == Stream(0, currentTxBytes)
    {
      WriteUntilBufferFull();
      for i := 0 to callbacks
        invariant Valid()
      {
        localSocket.Elapse();
        WriteUntilBufferFull();
      }
      AcceptedIsPrefix(localSocket.calls);
    }
  }
}
