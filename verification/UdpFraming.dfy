/**
 The UDP frames of src/udp_connections.cpp: building one in `send`, and the receive loop with its 8-bit
 index, its carry-over buffer and its handler calls.
 */
module UdpFraming {
  import opened ServerModel

  const START_HIGH: Byte := 0x80
  const START_LOW: Byte := 0x81
  const BUFFER_SIZE := 512
  const MIN_FRAME := 8

  // ---------------------------------------------------------------------------------------------
  // Sending
  // ---------------------------------------------------------------------------------------------

  function Sum(data: seq<Byte>): nat {
    if data == [] then 0 else Sum(data[..|data| - 1]) + data[|data| - 1]
  }

  function Crc(data: seq<Byte>): Byte {
    Sum(data) % 256
  }

  lemma {:induction false} SumConcat(a: seq<Byte>, b: seq<Byte>)
    ensures Sum(a + b) == Sum(a) + Sum(b)
  {
    if b == [] {
      assert a + b == a;
    } else {
      assert (a + b)[..|a + b| - 1] == a + b[..|b| - 1];
      SumConcat(a, b[..|b| - 1]);
    }
  }

  /** The checksum is the sum of the bytes modulo 256: its own byte for a single one, and additive. */
  lemma CrcIsSum(a: seq<Byte>, b: seq<Byte>, x: Byte)
    ensures Crc([]) == 0 && Crc([x]) == x
    ensures Crc(a + b) == (Crc(a) + Crc(b)) % 256
  {
    SumConcat(a, b);
    assert [x][..0] == [];
  }

  /** The 8-bit loop counter of the checksum after `k` iterations. */
  function CrcCounter(k: nat): Byte {
    if k == 0 then 0 else (CrcCounter(k - 1) + 1) % 256
  }

  lemma {:induction false} CrcCounterCounts(k: nat)
    requires k < 256
    ensures CrcCounter(k) == k
  {
    if k != 0 {
      CrcCounterCounts(k - 1);
    }
  }

  /** The checksum loop comes to an end exactly on data that the counter can reach the end of. */
  lemma CrcEndsIff(size: nat)
    ensures (exists k: nat :: CrcCounter(k) >= size) <==> size <= 255
  {
    if size <= 255 {
      CrcCounterCounts(size);
    }
  }

  method CalculateCrc(data: seq<Byte>) returns (crc: Byte)
    requires |data| <= 255
    ensures crc == Crc(data)
  {
    var result: nat, i: Byte := 0, 0;
    while i < |data|
      invariant i <= |data| && i == CrcCounter(i)
      invariant result == Sum(data[..i])
    {
      assert data[..i + 1][..i] == data[..i];
      result := result + data[i];
      i := (i + 1) % 256;
    }
    assert data[..|data|] == data;
    crc := result % 256;
  }

  /** Start marker, source, PGN, length, payload, checksum over everything after the marker. */
  function Frame(src: Byte, pgn: Byte, data: seq<Byte>): (frame: seq<Byte>)
    requires |data| <= 252
    ensures |frame| == |data| + 6
  {
    [START_HIGH, START_LOW, src, pgn, |data|] + data + [Crc([src, pgn, |data|] + data)]
  }

  method BuildFrame(src: Byte, pgn: Byte, data: seq<Byte>) returns (datagram: seq<Byte>)
    requires |data| <= 252
    ensures datagram == Frame(src, pgn, data)
    ensures |datagram| == |data| + 6 && datagram[..5] == [0x80, 0x81, src, pgn, |data|]
    ensures datagram[5..|data| + 5] == data && datagram[|data| + 5] == Crc(datagram[2..|data| + 5])
  {
    var txBuffer := new Byte[BUFFER_SIZE](_ => 0);
    var index := 0;
    txBuffer[index] := START_HIGH;
    index := index + 1;
    txBuffer[index] := START_LOW;
    index := index + 1;
    txBuffer[index] := src;
    index := index + 1;
    txBuffer[index] := pgn;
    index := index + 1;
    txBuffer[index] := |data| % 256;
    index := index + 1;
    assert txBuffer[..5] == [START_HIGH, START_LOW, src, pgn, |data|];
    for k := 0 to |data|
      invariant txBuffer[..index + k] == [START_HIGH, START_LOW, src, pgn, |data|] + data[..k]
    {
      txBuffer[index + k] := data[k];
      assert txBuffer[..index + k + 1] == txBuffer[..index + k] + [data[k]];
    }
    index := index + |data|;
    ghost var filled := [START_HIGH, START_LOW, src, pgn, |data|] + data;
    assert txBuffer[..index] == filled;
    assert txBuffer[2..index] == filled[2..] == [src, pgn, |data|] + data;
    var crc := CalculateCrc(txBuffer[2..index]);
    txBuffer[index] := crc;
    datagram := txBuffer[..index + 1];
    assert datagram == filled + [crc];
  }

  // ---------------------------------------------------------------------------------------------
  // Receiving
  // ---------------------------------------------------------------------------------------------

  /** One call of the packet handler. */
  datatype Call = Call(src: Byte, pgn: Byte, data: seq<Byte>)

  datatype Receiver = Receiver(buffer: seq<Byte>, rxIndex: nat, index: nat, calls: seq<Call>)

  ghost predicate InBounds(r: Receiver) {
    |r.buffer| == 512 && r.rxIndex <= 512 && r.index < 256
  }

  /** The byte `k` positions on, with the index wrapping at 8 bits. */
  function At(r: Receiver, k: nat): Byte
    requires InBounds(r)
  {
    r.buffer[(r.index + k) % 256]
  }

  /** The handler call and the new index that the bytes at the index lead to. */
  function Parsed(r: Receiver): Receiver
    requires InBounds(r)
  {
    if At(r, 0) == START_HIGH && At(r, 1) == START_LOW then
      var start := (r.index + 5) % 256;
      var len := At(r, 4);
      r.(index := (start + len + 1) % 256, calls := r.calls + [Call(At(r, 2), At(r, 3), r.buffer[start..start + len])])
    else
      r.(index := (r.index + 2) % 256, rxIndex := 0)
  }

  /** What has been read is moved out of the buffer; the index itself stays as it is. */
  function Moved(r: Receiver): Receiver
    requires InBounds(r)
  {
    if r.index < r.rxIndex
    then r.(buffer := r.buffer[r.index..r.rxIndex] + r.buffer[r.rxIndex - r.index..], rxIndex := r.rxIndex - r.index)
    else r.(rxIndex := 0)
  }

  /** One iteration of the receive loop. */
  function Pass(r: Receiver): (after: Receiver)
    requires InBounds(r)
    ensures InBounds(after)
  {
    Moved(Parsed(r))
  }

  /** The receiver with a datagram copied behind what it still holds; what does not fit is cut off. */
  function Loaded(r: Receiver, datagram: seq<Byte>): (after: Receiver)
    requires InBounds(r)
    ensures InBounds(after)
  {
    var n := if |datagram| <= BUFFER_SIZE - r.rxIndex then |datagram| else BUFFER_SIZE - r.rxIndex;
    r.(buffer := r.buffer[..r.rxIndex] + datagram[..n] + r.buffer[r.rxIndex + n..],
       rxIndex := r.rxIndex + n, index := 0)
  }

  function Passes(r: Receiver, k: nat): (after: Receiver)
    requires InBounds(r)
    ensures InBounds(after)
    decreases k
  {
    if k == 0 then r else Pass(Passes(r, k - 1))
  }

  lemma PassesNext(r: Receiver, k: nat)
    requires InBounds(r)
    ensures Passes(r, k + 1) == Moved(Parsed(Passes(r, k)))
  {
    hide Moved, Parsed;
  }

  /** The loop ends after `k` iterations. */
  ghost predicate EndsAfter(r: Receiver, k: nat)
    requires InBounds(r)
  {
    Passes(r, k).rxIndex < MIN_FRAME && forall j: nat :: j < k ==> Passes(r, j).rxIndex >= MIN_FRAME
  }

  class UdpReceiver {
    const rxBuffer: array<Byte>
    var rxIndex: nat
    var calls: seq<Call>

    function State(index: nat): Receiver
      reads this, rxBuffer
    {
      Receiver(rxBuffer[..], rxIndex, index, calls)
    }

    ghost predicate Valid()
      reads this
    {
      rxBuffer.Length == 512 && rxIndex <= 512
    }

    constructor ()
      ensures Valid() && fresh(rxBuffer) && rxIndex == 0 && calls == []
    {
      rxBuffer := new Byte[BUFFER_SIZE](_ => 0);
      rxIndex := 0;
      calls := [];
    }

    /** The system call that fills the rest of the buffer. */
    method ReceiveFrom(datagram: seq<Byte>)
      requires Valid()
      modifies this`rxIndex, rxBuffer
      ensures Valid() && State(0) == Loaded(old(State(0)), datagram)
    {
      var n := if |datagram| <= BUFFER_SIZE - rxIndex then |datagram| else BUFFER_SIZE - rxIndex;
      forall k | 0 <= k < n {
        rxBuffer[rxIndex + k] := datagram[k];
      }
      assert rxBuffer[..] == old(rxBuffer[..rxIndex]) + datagram[..n] + old(rxBuffer[rxIndex + n..]);
      rxIndex := rxIndex + n;
    }

    /** `rxBuffer[index++]` with an 8-bit index, `k` bytes after `start`. */
    method NextByte(ghost start: nat, ghost k: nat, index: nat) returns (byte: Byte, next: nat)
      requires Valid() && start < 256 && index == (start + k) % 256
      ensures byte == At(State(start), k) && next == (start + k + 1) % 256
    {
      byte := rxBuffer[index];
      next := (index + 1) % 256;
    }

    method CallHandler(src: Byte, pgn: Byte, start: nat, len: Byte)
      requires Valid() && start < 256
      modifies this`calls
      ensures calls == old(calls) + [Call(src, pgn, rxBuffer[..][start..start + len])]
    {
      assert rxBuffer[..][start..start + len] == rxBuffer[start..start + len];
      calls := calls + [Call(src, pgn, rxBuffer[start..start + len])];
    }

    method ParseAt(start: nat) returns (index: nat)
      requires Valid() && start < 256
      modifies this`rxIndex, this`calls
      ensures Valid() && index < 256 && State(index) == Parsed(old(State(start)))
    {
      hide At;
      index := start;
      var high, low;
      high, index := NextByte(start, 0, index);
      low, index := NextByte(start, 1, index);
      if high == START_HIGH && low == START_LOW {
        var src, pgn, len;
        src, index := NextByte(start, 2, index);
        pgn, index := NextByte(start, 3, index);
        len, index := NextByte(start, 4, index);
        CallHandler(src, pgn, index, len);
        index := (index + len + 1) % 256;
      } else {
        rxIndex := 0;
      }
    }

    method MoveToFront(index: nat)
      requires Valid() && index < 256
      modifies this`rxIndex, rxBuffer
      ensures Valid() && State(index) == Moved(old(State(index)))
    {
      if index < rxIndex {
        forall k | 0 <= k < rxIndex - index {
          rxBuffer[k] := rxBuffer[index + k];
        }
        ghost var before := old(rxBuffer[..]);
        assert rxBuffer[..] == before[index..rxIndex] + before[rxIndex - index..];
        rxIndex := rxIndex - index;
      } else {
        rxIndex := 0;
      }
    }

    /**
     Handles one datagram. Whether the loop ends is not for this method to say: it requires the number of
     iterations after which it does; the lemmas below tell for which datagrams there is one.
     */
    method HandleIncoming(datagram: seq<Byte>, ghost iterations: nat)
      requires Valid()
      requires EndsAfter(Loaded(State(0), datagram), iterations)
      modifies this`rxIndex, this`calls, rxBuffer
      ensures Valid() && exists index :: State(index) == Passes(Loaded(old(State(0)), datagram), iterations)
    {
      hide Parsed, Moved, Loaded;
      ghost var loaded := Loaded(State(0), datagram);
      ReceiveFrom(datagram);
      var index := 0;
      ghost var done: nat := 0;
      while rxIndex >= MIN_FRAME
        invariant Valid() && index < 256 && done <= iterations
        invariant State(index) == Passes(loaded, done)
        decreases iterations - done
      {
        assert done != iterations;
        PassesNext(loaded, done);
        index := ParseAt(index);
        MoveToFront(index);
        done := done + 1;
      }
      assert done == iterations;
    }
  }

  // ---------------------------------------------------------------------------------------------
  // Round trip
  // ---------------------------------------------------------------------------------------------

  /** The receive loop ends, having called the handler once with the frame's contents, and holds nothing back. */
  ghost predicate DeliveredOnce(r: Receiver, src: Byte, pgn: Byte, data: seq<Byte>, k: nat)
    requires InBounds(r) && |data| <= 252
  {
    var loaded := Loaded(r, Frame(src, pgn, data));
    && EndsAfter(loaded, k)
    && Passes(loaded, k).calls == r.calls + [Call(src, pgn, data)]
    && Passes(loaded, k).rxIndex == 0
  }

  /** What the first iteration makes of a whole frame at the front of the buffer. */
  lemma FirstPass(r: Receiver, src: Byte, pgn: Byte, data: seq<Byte>)
    requires InBounds(r) && r.rxIndex == 0 && |data| <= 252
    ensures var loaded := Loaded(r, Frame(src, pgn, data)); var after := Parsed(loaded);
            && loaded.rxIndex == |data| + 6
            && loaded.buffer[..|data| + 6] == Frame(src, pgn, data)
            && after == loaded.(index := (|data| + 6) % 256, calls := r.calls + [Call(src, pgn, data)])
  {
    hide Crc;
    var frame := Frame(src, pgn, data);
    var loaded := Loaded(r, frame);
    assert loaded.buffer == frame + r.buffer[|frame|..];
    assert loaded.buffer[0] == START_HIGH && loaded.buffer[1] == START_LOW;
    assert loaded.buffer[2] == src && loaded.buffer[3] == pgn && loaded.buffer[4] == |data|;
    assert loaded.buffer[5..5 + |data|] == data;
  }

  lemma OneFrameDelivered(r: Receiver, src: Byte, pgn: Byte, data: seq<Byte>)
    requires InBounds(r) && r.rxIndex == 0 && 2 <= |data| <= 249
    ensures DeliveredOnce(r, src, pgn, data, 1)
  {
    hide Parsed, Loaded, Frame;
    FirstPass(r, src, pgn, data);
    var loaded := Loaded(r, Frame(src, pgn, data));
    assert Passes(loaded, 1) == Pass(loaded);
    assert Passes(loaded, 0) == loaded;
  }

  /** 250 bytes: the index wraps to 0, nothing is moved, and the loop reads the same frame for ever. */
  lemma {:induction false} FullFrameNeverEnds(r: Receiver, src: Byte, pgn: Byte, data: seq<Byte>, k: nat)
    requires InBounds(r) && r.rxIndex == 0 && |data| == 250
    ensures var loaded := Loaded(r, Frame(src, pgn, data)); var after := Passes(loaded, k);
            && after.rxIndex == 256 && after.index == 0 && after.buffer == loaded.buffer
            && |after.calls| == |r.calls| + k
    decreases k
  {
    hide Frame, Loaded, Pass;
    FirstPass(r, src, pgn, data);
    var frame := Frame(src, pgn, data);
    var loaded := Loaded(r, frame);
    LoadedStart(r, frame);
    if k != 0 {
      FullFrameNeverEnds(r, src, pgn, data, k - 1);
      FrameHeader(src, pgn, data);
      assert frame == loaded.buffer[..256];
      StuckPass(Passes(loaded, k - 1));
    }
  }

  lemma StuckPass(r: Receiver)
    requires InBounds(r) && r.index == 0 && r.rxIndex == 256
    requires r.buffer[0] == START_HIGH && r.buffer[1] == START_LOW && r.buffer[4] == 250
    ensures Pass(r) == r.(calls := Pass(r).calls) && |Pass(r).calls| == |r.calls| + 1
  {
    assert r.buffer[0..256] + r.buffer[256..] == r.buffer;
  }

  lemma LoadedStart(r: Receiver, datagram: seq<Byte>)
    requires InBounds(r)
    ensures Loaded(r, datagram).index == 0 && Loaded(r, datagram).calls == r.calls
  {
  }

  /** 251 or 252 bytes: the index wraps to 1 or 2, and a second iteration looks there in the moved buffer. */
  lemma SecondPass(r: Receiver, src: Byte, pgn: Byte, data: seq<Byte>)
    requires InBounds(r) && r.rxIndex == 0 && 251 <= |data| <= 252
    ensures var loaded := Loaded(r, Frame(src, pgn, data)); var first := Passes(loaded, 1);
            && first.rxIndex == 256 && first.calls == r.calls + [Call(src, pgn, data)]
            && (At(first, 0) == START_HIGH && At(first, 1) == START_LOW <==>
                |data| == 251 && src == START_HIGH && pgn == START_LOW)
  {
    hide Frame, Loaded, Parsed, Moved;
    FirstPass(r, src, pgn, data);
    var frame := Frame(src, pgn, data);
    var loaded := Loaded(r, frame);
    FrameHeader(src, pgn, data);
    PassesNext(loaded, 0);
    var w := |data| - 250;
    var parsed := Parsed(loaded);
    assert parsed.index == w && parsed.rxIndex == 256 + w;
    MovedBy(parsed, w);
    assert parsed.buffer == loaded.buffer && frame == loaded.buffer[..|data| + 6];
    assert parsed.buffer[2 * w] == frame[2 * w] && parsed.buffer[2 * w + 1] == frame[2 * w + 1];
    if |data| == 251 {
      assert parsed.buffer[2] == src && parsed.buffer[3] == pgn;
    } else {
      assert parsed.buffer[4] == 252;
    }
  }

  lemma MovedBy(r: Receiver, w: nat)
    requires InBounds(r) && r.index == w && 1 <= w <= 2 && r.rxIndex == 256 + w
    ensures Moved(r).rxIndex == 256 && Moved(r).calls == r.calls
    ensures At(Moved(r), 0) == r.buffer[2 * w] && At(Moved(r), 1) == r.buffer[2 * w + 1]
  {
    var front, tail := r.buffer[w..256 + w], r.buffer[256..];
    assert Moved(r) == r.(buffer := front + tail, rxIndex := 256);
    assert (front + tail)[w] == front[w] == r.buffer[2 * w];
    assert (front + tail)[w + 1] == front[w + 1] == r.buffer[2 * w + 1];
  }

  lemma FrameHeader(src: Byte, pgn: Byte, data: seq<Byte>)
    requires |data| <= 252
    ensures var frame := Frame(src, pgn, data);
            frame[0] == START_HIGH && frame[1] == START_LOW && frame[2] == src && frame[3] == pgn && frame[4] == |data|
    ensures |data| > 0 ==> Frame(src, pgn, data)[5] == data[0]
  {
  }

  lemma {:induction false} CallsGrow(r: Receiver, j: nat, k: nat)
    requires InBounds(r) && j <= k
    ensures |Passes(r, j).calls| <= |Passes(r, k).calls|
    decreases k
  {
    hide Pass;
    if j < k {
      CallsGrow(r, j, k - 1);
      PassKeepsCalls(Passes(r, k - 1));
    }
  }

  lemma PassKeepsCalls(r: Receiver)
    requires InBounds(r)
    ensures |r.calls| <= |Pass(r).calls|
  {
    hide At;
  }

  /**
   Exactly which frames survive: a frame that `send` can build is delivered once, the loop ends and nothing
   is held back, if and only if its payload has 2 to 249 bytes, or 252, or 251 unless its source and PGN
   read like a start marker.
   */
  lemma DeliveredOnceIff(r: Receiver, src: Byte, pgn: Byte, data: seq<Byte>)
    requires InBounds(r) && r.rxIndex == 0 && |data| <= 252
    ensures (exists k: nat :: DeliveredOnce(r, src, pgn, data, k)) <==>
            2 <= |data| <= 249 || |data| == 252 || (|data| == 251 && !(src == START_HIGH && pgn == START_LOW))
  {
    hide Frame, Loaded, Parsed, Moved;
    var loaded := Loaded(r, Frame(src, pgn, data));
    FirstPass(r, src, pgn, data);
    assert Passes(loaded, 0) == loaded;
    if |data| < 2 {
      TooShort(r, src, pgn, data);
    } else if |data| <= 249 {
      OneFrameDelivered(r, src, pgn, data);
    } else if |data| == 250 {
      forall k: nat ensures !DeliveredOnce(r, src, pgn, data, k) {
        FullFrameNeverEnds(r, src, pgn, data, k);
      }
    } else {
      SecondPass(r, src, pgn, data);
      if |data| == 251 && src == START_HIGH && pgn == START_LOW {
        forall k: nat ensures !DeliveredOnce(r, src, pgn, data, k) {
          DeliveredTwice(r, src, pgn, data, k);
        }
      } else {
        LongFrameDelivered(r, src, pgn, data);
      }
    }
  }

  lemma TooShort(r: Receiver, src: Byte, pgn: Byte, data: seq<Byte>)
    requires InBounds(r) && r.rxIndex == 0 && |data| < 2
    ensures forall k: nat :: !DeliveredOnce(r, src, pgn, data, k)
  {
    hide Frame, Loaded, Parsed, Moved;
    FirstPass(r, src, pgn, data);
    var loaded := Loaded(r, Frame(src, pgn, data));
    assert Passes(loaded, 0) == loaded;
    LoadedStart(r, Frame(src, pgn, data));
    forall k: nat ensures !DeliveredOnce(r, src, pgn, data, k) {
      if k > 0 {
        assert !EndsAfter(loaded, k) by { assert 0 < k && Passes(loaded, 0).rxIndex < MIN_FRAME; }
      }
    }
  }

  lemma DeliveredTwice(r: Receiver, src: Byte, pgn: Byte, data: seq<Byte>, k: nat)
    requires InBounds(r) && r.rxIndex == 0 && |data| == 251 && src == START_HIGH && pgn == START_LOW
    ensures !DeliveredOnce(r, src, pgn, data, k)
  {
    hide Frame, Loaded, Moved;
    FirstPass(r, src, pgn, data);
    SecondPass(r, src, pgn, data);
    var loaded := Loaded(r, Frame(src, pgn, data));
    assert Passes(loaded, 0) == loaded;
    var first := Passes(loaded, 1);
    assert Passes(loaded, 2) == Pass(first);
    assert |Passes(loaded, 2).calls| == |r.calls| + 2 by { MoveKeepsCalls(Parsed(first)); }
    if k >= 2 {
      CallsGrow(loaded, 2, k);
    }
  }

  lemma MoveKeepsCalls(r: Receiver)
    requires InBounds(r)
    ensures Moved(r).calls == r.calls
  {
  }

  lemma LongFrameDelivered(r: Receiver, src: Byte, pgn: Byte, data: seq<Byte>)
    requires InBounds(r) && r.rxIndex == 0 && 251 <= |data| <= 252
    requires !(|data| == 251 && src == START_HIGH && pgn == START_LOW)
    ensures DeliveredOnce(r, src, pgn, data, 2)
  {
    hide Frame, Loaded, Pass;
    FirstPass(r, src, pgn, data);
    SecondPass(r, src, pgn, data);
    var loaded := Loaded(r, Frame(src, pgn, data));
    assert Passes(loaded, 0) == loaded;
    UnknownStartEnds(Passes(loaded, 1));
    assert Passes(loaded, 2) == Pass(Passes(loaded, 1));
  }

  lemma UnknownStartEnds(r: Receiver)
    requires InBounds(r) && !(At(r, 0) == START_HIGH && At(r, 1) == START_LOW)
    ensures Pass(r).rxIndex == 0 && Pass(r).calls == r.calls
  {
    hide At;
  }

  // ---------------------------------------------------------------------------------------------
  // Runs of datagrams
  // ---------------------------------------------------------------------------------------------

  /** The receiver after a series of datagrams, each handled in one iteration. */
  function AfterAll(r: Receiver, packets: seq<Call>): (after: Receiver)
    requires InBounds(r) && forall i :: 0 <= i < |packets| ==> 2 <= |packets[i].data| <= 249
    ensures InBounds(after)
    decreases |packets|
  {
    if packets == [] then r
    else
      var last := packets[|packets| - 1];
      Passes(Loaded(AfterAll(r, packets[..|packets| - 1]), Frame(last.src, last.pgn, last.data)), 1)
  }

  /**
   For any series of datagrams that each hold one frame with a payload of 2 to 249 bytes: every receive
   loop ends, the handler has been called once per frame, in order and with the same contents, and the
   buffer is empty between datagrams.
   */
  lemma {:induction false} EveryFrameDelivered(r: Receiver, packets: seq<Call>)
    requires InBounds(r) && r.rxIndex == 0
    requires forall i :: 0 <= i < |packets| ==> 2 <= |packets[i].data| <= 249
    ensures AfterAll(r, packets).rxIndex == 0 && AfterAll(r, packets).calls == r.calls + packets
    ensures packets != [] ==>
              var last := packets[|packets| - 1];
              EndsAfter(Loaded(AfterAll(r, packets[..|packets| - 1]), Frame(last.src, last.pgn, last.data)), 1)
    decreases |packets|
  {
    hide Frame, Loaded, Pass;
    if packets != [] {
      var before, last := packets[..|packets| - 1], packets[|packets| - 1];
      EveryFrameDelivered(r, before);
      OneFrameDelivered(AfterAll(r, before), last.src, last.pgn, last.data);
      assert packets == before + [last];
    }
  }

  // ---------------------------------------------------------------------------------------------
  // Frames in pieces
  // ---------------------------------------------------------------------------------------------

  /** Two datagrams that fit the buffer are loaded behind each other. */
  lemma LoadedTwice(r: Receiver, a: seq<Byte>, b: seq<Byte>)
    requires InBounds(r) && r.rxIndex == 0 && |a| + |b| <= 512
    ensures Loaded(Loaded(r, a), b) == Loaded(r, a + b)
  {
    assert (a + b)[..|a + b|] == a + b && a[..|a|] == a && b[..|b|] == b;
    var first := Loaded(r, a);
    assert first.buffer == a + r.buffer[|a|..];
    assert first.buffer[..|a|] == a;
    assert first.buffer[|a| + |b|..] == r.buffer[|a| + |b|..];
    assert Loaded(first, b).buffer == a + b + r.buffer[|a| + |b|..];
    assert Loaded(r, a + b).buffer == r.buffer[..0] + (a + b) + r.buffer[|a| + |b|..];
  }

  /**
   A frame that arrives in two datagrams, the first with less than eight bytes of it: the first receive loop
   does not run and keeps what came, the second delivers the frame once and empties the buffer.
   */
  lemma SplitFrameDelivered(r: Receiver, src: Byte, pgn: Byte, data: seq<Byte>, a: seq<Byte>, b: seq<Byte>)
    requires InBounds(r) && r.rxIndex == 0 && 2 <= |data| <= 249
    requires a + b == Frame(src, pgn, data) && |a| < 8
    ensures EndsAfter(Loaded(r, a), 0)
    ensures var second := Loaded(Passes(Loaded(r, a), 0), b);
            && EndsAfter(second, 1)
            && Passes(second, 1).calls == r.calls + [Call(src, pgn, data)] && Passes(second, 1).rxIndex == 0
  {
    hide Frame, Parsed, Moved;
    LoadedTwice(r, a, b);
    OneFrameDelivered(r, src, pgn, data);
    assert Passes(Loaded(r, a), 0) == Loaded(r, a);
  }

  // ---------------------------------------------------------------------------------------------
  // Two frames in one datagram
  // ---------------------------------------------------------------------------------------------

  lemma FramePayload(src: Byte, pgn: Byte, data: seq<Byte>)
    requires |data| <= 252
    ensures Frame(src, pgn, data)[5..5 + |data|] == data
  {
    hide Crc;
  }

  lemma HeaderAt(r: Receiver, frame: seq<Byte>)
    requires InBounds(r) && |frame| >= 5 && r.index + |frame| <= 255
    requires r.buffer[r.index..r.index + |frame|] == frame
    ensures At(r, 0) == frame[0] && At(r, 1) == frame[1] && At(r, 2) == frame[2] && At(r, 3) == frame[3]
    ensures At(r, 4) == frame[4]
  {
    forall k | 0 <= k < 5 ensures At(r, k) == frame[k] {
      assert r.buffer[r.index..r.index + |frame|][k] == r.buffer[r.index + k];
    }
  }

  lemma PayloadAt(r: Receiver, frame: seq<Byte>, n: nat)
    requires InBounds(r) && |frame| == n + 6 && r.index + |frame| <= 255
    requires r.buffer[r.index..r.index + |frame|] == frame
    ensures r.buffer[r.index + 5..r.index + 5 + n] == frame[5..5 + n]
  {
  }

  /** A frame at the index, of which the buffer holds enough, is handed over. */
  lemma ParsedAt(r: Receiver, src: Byte, pgn: Byte, data: seq<Byte>)
    requires InBounds(r) && |data| <= 252 && r.index + |data| + 6 <= 255
    requires r.buffer[r.index..r.index + |data| + 6] == Frame(src, pgn, data)
    ensures Parsed(r) == r.(index := r.index + |data| + 6, calls := r.calls + [Call(src, pgn, data)])
  {
    hide Frame, At;
    FrameHeader(src, pgn, data);
    FramePayload(src, pgn, data);
    var frame := r.buffer[r.index..r.index + |data| + 6];
    HeaderAt(r, frame);
    PayloadAt(r, frame, |data|);
  }

  /** What the first bytes are, once two stretches are loaded behind each other. */
  lemma LoadedBoth(r: Receiver, a: seq<Byte>, b: seq<Byte>)
    requires InBounds(r) && r.rxIndex == 0 && |a| + |b| <= 512
    ensures var loaded := Loaded(r, a + b);
            && loaded.index == 0 && loaded.rxIndex == |a| + |b| && loaded.calls == r.calls
            && loaded.buffer[0..|a|] == a && loaded.buffer[|a|..|a| + |b|] == b
  {
    var loaded := Loaded(r, a + b);
    assert (a + b)[..|a + b|] == a + b;
    assert loaded.buffer == a + b + r.buffer[|a + b|..];
  }

  /** What is behind the index is moved to the front; what the move does not reach stays. */
  lemma MovedToFront(r: Receiver)
    requires InBounds(r) && r.index < r.rxIndex
    ensures var after := Moved(r); var n := r.rxIndex - r.index;
            && after.rxIndex == n && after.index == r.index && after.calls == r.calls
            && after.buffer[..n] == r.buffer[r.index..r.rxIndex]
            && forall j :: n <= j < 512 ==> after.buffer[j] == r.buffer[j]
  {
  }

  /**
   The buffer after the first of two frames has been handed over: the second is moved to the front, and where
   it does not reach, what was there before remains. The index stays behind the first frame.
   */
  lemma FirstOfTwo(r: Receiver, first: Call, second: Call)
    requires InBounds(r) && r.rxIndex == 0 && 2 <= |first.data| && 2 <= |second.data|
    requires |first.data| + |second.data| + 12 <= 255
    ensures var a, b := Frame(first.src, first.pgn, first.data), Frame(second.src, second.pgn, second.data);
            var loaded := Loaded(r, a + b); var after := Passes(loaded, 1);
            && after.rxIndex == |b| && after.index == |a| && after.calls == r.calls + [first]
            && after.buffer[..|b|] == b
            && (forall j :: |b| <= j < 512 ==> after.buffer[j] == loaded.buffer[j])
            && loaded.buffer[|a|..|a| + |b|] == b && loaded.rxIndex == |a| + |b|
  {
    hide Frame, Parsed, Loaded, Moved;
    var a, b := Frame(first.src, first.pgn, first.data), Frame(second.src, second.pgn, second.data);
    var loaded := Loaded(r, a + b);
    LoadedBoth(r, a, b);
    ParsedAt(loaded, first.src, first.pgn, first.data);
    assert Passes(loaded, 0) == loaded;
    PassesNext(loaded, 0);
    MovedToFront(Parsed(loaded));
  }

  /**
   Two frames in one datagram, 255 bytes in all at most: both are delivered, in order, if the first is at
   least as long as the second. If it is shorter, and the second does not happen to hold a start marker where
   the index points, the second frame is lost. Either way the loop ends and holds nothing back.
   */
  lemma TwoFramesInOneDatagram(r: Receiver, first: Call, second: Call)
    requires InBounds(r) && r.rxIndex == 0 && 2 <= |first.data| && 2 <= |second.data|
    requires |first.data| + |second.data| + 12 <= 255
    ensures var a, b := Frame(first.src, first.pgn, first.data), Frame(second.src, second.pgn, second.data);
            var loaded := Loaded(r, a + b);
            && (|a| >= |b| ==>
                 && EndsAfter(loaded, 2)
                 && Passes(loaded, 2).calls == r.calls + [first, second] && Passes(loaded, 2).rxIndex == 0)
            && (|a| < |b| && b[|a|] != 0x80 ==>
                 && EndsAfter(loaded, 2)
                 && Passes(loaded, 2).calls == r.calls + [first] && Passes(loaded, 2).rxIndex == 0)
  {
    hide Frame, Parsed, Loaded, Moved;
    var a, b := Frame(first.src, first.pgn, first.data), Frame(second.src, second.pgn, second.data);
    var loaded := Loaded(r, a + b);
    FirstOfTwo(r, first, second);
    var after := Passes(loaded, 1);
    assert Passes(loaded, 0) == loaded;
    assert Passes(loaded, 2) == Pass(after);
    if |a| >= |b| {
      forall j | |a| <= j < |a| + |b| ensures after.buffer[j] == loaded.buffer[j] {
      }
      assert after.buffer[|a|..|a| + |b|] == loaded.buffer[|a|..|a| + |b|];
      ParsedAt(after, second.src, second.pgn, second.data);
      NothingToMove(Parsed(after));
      assert r.calls + [first] + [second] == r.calls + [first, second];
    } else if b[|a|] != 0x80 {
      assert At(after, 0) == after.buffer[|a|] == after.buffer[..|b|][|a|];
      UnknownStartEnds(after);
    }
  }

  lemma NothingToMove(r: Receiver)
    requires InBounds(r) && r.index >= r.rxIndex
    ensures Moved(r) == r.(rxIndex := 0)
  {
  }
}
