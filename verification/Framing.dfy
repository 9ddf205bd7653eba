/** Packets on a byte stream: [size(2)][id(2)][payload], both numbers little-endian
    (ServerPacketHandler::MakeSendBuffer and PacketSession::OnRecv). */
module Framing {
  import opened Sequences

  type byte = b: int | 0 <= b < 256

  const HEADER_SIZE := 4
  const MAX_PAYLOAD := 65531

  // ---------- building a packet ----------

  /** The 16-bit size that the header records for a payload of n bytes. */
  function PacketSize(n: nat): nat {
    var dataSize := n % 0x1_0000;
    (dataSize + HEADER_SIZE) % 0x1_0000
  }

  lemma {:induction false} PacketSizeIsExactIff(n: nat)
    ensures PacketSize(n) == n + HEADER_SIZE <==> n <= MAX_PAYLOAD
  {
  }

  function Frame(id: nat, payload: seq<byte>): (f: seq<byte>)
    requires id < 0x1_0000 && |payload| <= MAX_PAYLOAD
  {
    var size := PacketSize(|payload|);
    [size % 256, size / 256, id % 256, id / 256] + payload
  }

  method MakeSendBuffer(id: nat, payload: seq<byte>) returns (buffer: array<byte>)
    requires id < 0x1_0000 && |payload| <= MAX_PAYLOAD
    ensures fresh(buffer) && buffer[..] == Frame(id, payload)
  {
    var dataSize := |payload| % 0x1_0000;
    var packetSize := (dataSize + HEADER_SIZE) % 0x1_0000;
    buffer := new byte[packetSize](_ => 0);
    buffer[0], buffer[1] := packetSize % 256, packetSize / 256;
    buffer[2], buffer[3] := id % 256, id / 256;
    for i := 0 to dataSize
      invariant buffer[0] == packetSize % 256 && buffer[1] == packetSize / 256
      invariant buffer[2] == id % 256 && buffer[3] == id / 256
      invariant forall k :: 0 <= k < i ==> buffer[HEADER_SIZE + k] == payload[k]
    {
      buffer[HEADER_SIZE + i] := payload[i];
    }
  }

  // ---------- taking a stream apart ----------

  function U16(low: byte, high: byte): nat { low as int + 256 * (high as int) }

  function SizeField(bytes: seq<byte>): nat
    requires |bytes| >= HEADER_SIZE
  {
    U16(bytes[0], bytes[1])
  }

  function IdField(bytes: seq<byte>): nat
    requires |bytes| >= HEADER_SIZE
  {
    U16(bytes[2], bytes[3])
  }

  function Payload(packet: seq<byte>): seq<byte>
    requires |packet| >= HEADER_SIZE
  {
    packet[HEADER_SIZE..]
  }

  /** Enough bytes have arrived for the first packet to be handed over. */
  predicate Complete(bytes: seq<byte>) {
    |bytes| >= HEADER_SIZE && |bytes| >= SizeField(bytes)
  }

  /** `stuck` is set when a header announces size 0: the receive loop would hand out the
      same empty packet for ever. */
  datatype Parsed = Parsed(packets: seq<seq<byte>>, rest: seq<byte>, stuck: bool)

  function Parse(bytes: seq<byte>): Parsed {
    if !Complete(bytes) then Parsed([], bytes, false)
    else if SizeField(bytes) == 0 then Parsed([], bytes, true)
    else
      var size := SizeField(bytes);
      var p := Parse(bytes[size..]);
      Parsed([bytes[..size]] + p.packets, p.rest, p.stuck)
  }

  /** Earlier packets followed by the outcome of a later call. */
  function Resumed(earlier: seq<seq<byte>>, later: Parsed): Parsed {
    Parsed(earlier + later.packets, later.rest, later.stuck)
  }

  /** The loop has handed out `packets` and stands at position n. */
  ghost predicate Taken(bytes: seq<byte>, n: nat, packets: seq<seq<byte>>) {
    n <= |bytes| && Parse(bytes) == Resumed(packets, Parse(bytes[n..]))
  }

  /** Looking at the header in place. */
  lemma {:induction false} HeaderAt(bytes: seq<byte>, n: nat)
    requires n + HEADER_SIZE <= |bytes|
    ensures SizeField(bytes[n..]) == U16(bytes[n], bytes[n + 1])
  {
  }

  /** One turn of the receive loop. */
  lemma {:induction false} TakeOne(bytes: seq<byte>, n: nat, packets: seq<seq<byte>>, size: nat)
    requires Taken(bytes, n, packets) && !Parse(bytes).stuck
    requires n + HEADER_SIZE <= |bytes| && size == U16(bytes[n], bytes[n + 1]) && n + size <= |bytes|
    ensures size > 0
    ensures Taken(bytes, n + size, packets + [bytes[n..n + size]])
  {
    HeaderAt(bytes, n);
    var window := bytes[n..];
    assert window[size..] == bytes[n + size..] && window[..size] == bytes[n..n + size];
    assert packets + ([window[..size]] + Parse(window[size..]).packets)
        == packets + [window[..size]] + Parse(window[size..]).packets;
  }

  lemma {:induction false} TakenAll(bytes: seq<byte>, n: nat, packets: seq<seq<byte>>)
    requires Taken(bytes, n, packets)
    requires n + HEADER_SIZE <= |bytes| ==> n + U16(bytes[n], bytes[n + 1]) > |bytes|
    ensures Parse(bytes) == Parsed(packets, bytes[n..], false)
  {
    if n + HEADER_SIZE <= |bytes| {
      HeaderAt(bytes, n);
    }
  }

  /** `PacketSession::OnRecv` on the readable window.  `packets` is what OnRecvPacket was
      called with, in order. */
  method OnRecv(buffer: seq<byte>) returns (processLen: nat, packets: seq<seq<byte>>)
    requires !Parse(buffer).stuck
    ensures processLen <= |buffer|
    ensures Parse(buffer) == Parsed(packets, buffer[processLen..], false)
  {
    processLen, packets := 0, [];
    StartOfWindow(buffer);
    while true
      invariant Taken(buffer, processLen, packets)
      decreases |buffer| - processLen
    {
      var dataSize := |buffer| - processLen;
      if dataSize < HEADER_SIZE {
        break;
      }
      var size := U16(buffer[processLen], buffer[processLen + 1]);
      if dataSize < size {
        break;
      }
      TakeOne(buffer, processLen, packets, size);
      packets := packets + [buffer[processLen..processLen + size]];
      processLen := processLen + size;
    }
    TakenAll(buffer, processLen, packets);
  }

  lemma {:induction false} StartOfWindow(bytes: seq<byte>)
    ensures Taken(bytes, 0, [])
  {
    assert bytes[0..] == bytes;
  }

  // ---------- properties ----------

  /** The packets tile the stream up to the residue, and the residue lacks something:
      part of a header, or part of the packet that its header announces.  The one
      exception is a header of size 0, at which the receive loop would never end. */
  lemma {:induction false} PacketsTileStream(bytes: seq<byte>)
    ensures Concat(Parse(bytes).packets) + Parse(bytes).rest == bytes
    ensures Complete(Parse(bytes).rest) <==> Parse(bytes).stuck
    ensures Parse(bytes).stuck ==> SizeField(Parse(bytes).rest) == 0
    decreases |bytes|
  {
    if Complete(bytes) && SizeField(bytes) > 0 {
      var size := SizeField(bytes);
      PacketsTileStream(bytes[size..]);
      ConcatCons(bytes[..size], Parse(bytes[size..]).packets);
      Reassemble(bytes, size, Concat(Parse(bytes[size..]).packets), Parse(bytes[size..]).rest);
    }
  }

  lemma {:induction false} Reassemble(bytes: seq<byte>, size: nat, middle: seq<byte>, rest: seq<byte>)
    requires size <= |bytes| && middle + rest == bytes[size..]
    ensures bytes[..size] + middle + rest == bytes
  {
  }

  /** More bytes do not change what the first packet is. */
  lemma {:induction false} CompleteStays(a: seq<byte>, b: seq<byte>)
    requires Complete(a)
    ensures Complete(a + b) && SizeField(a + b) == SizeField(a)
    ensures (a + b)[..SizeField(a)] == a[..SizeField(a)]
    ensures (a + b)[SizeField(a)..] == a[SizeField(a)..] + b
  {
  }

  /** Whatever arrives later, a residue carried over to the next call yields the packets
      that one call on the whole stream yields. */
  lemma {:induction false} ChunksAreIndependent(a: seq<byte>, b: seq<byte>)
    ensures Parse(a).stuck ==> Parse(a + b).stuck
    ensures !Parse(a).stuck ==> Parse(a + b) == Resumed(Parse(a).packets, Parse(Parse(a).rest + b))
    decreases |a|
  {
    if Complete(a) {
      CompleteStays(a, b);
      var size := SizeField(a);
      if size > 0 {
        ChunksAreIndependent(a[size..], b);
        var p := Parse(a[size..]);
        if !p.stuck {
          var later := Parse(p.rest + b);
          assert [a[..size]] + (p.packets + later.packets) == ([a[..size]] + p.packets) + later.packets;
        }
      }
    } else {
      assert Resumed([], Parse(a + b)) == Parse(a + b);
    }
  }

  /** A well-formed packet: its header announces its own length. */
  predicate IsFrame(f: seq<byte>) {
    |f| >= HEADER_SIZE && SizeField(f) == |f|
  }

  lemma {:induction false} FrameRoundTrip(id: nat, payload: seq<byte>)
    requires id < 0x1_0000 && |payload| <= MAX_PAYLOAD
    ensures var f := Frame(id, payload);
      IsFrame(f) && IdField(f) == id && Payload(f) == payload
  {
  }

  /** The wire format: the whole length and the id, low byte first, and then the payload. */
  lemma {:induction false} FrameLayout(id: nat, payload: seq<byte>)
    requires id < 0x1_0000 && |payload| <= MAX_PAYLOAD
    ensures var f := Frame(id, payload);
      && |f| == |payload| + 4 && f[0] as int + 256 * (f[1] as int) == |f| && f[2] as int + 256 * (f[3] as int) == id
      && forall i :: 0 <= i < |payload| ==> f[i + 4] == payload[i]
  {
  }

  /** What comes off a stream first: as many bytes as its first two say, low byte first, once
      they are there, and nothing before. */
  lemma {:induction false} FirstPacket(bytes: seq<byte>, n: nat)
    requires |bytes| >= 4 && n == bytes[0] as int + 256 * (bytes[1] as int) && n > 0
    ensures n <= |bytes| ==> Parse(bytes) == Resumed([bytes[..n]], Parse(bytes[n..]))
    ensures n > |bytes| ==> Parse(bytes) == Parsed([], bytes, false)
  {
  }

  /** Parsing what was framed gives the frames back, with nothing left over. */
  lemma {:induction false} FramesRoundTrip(frames: seq<seq<byte>>)
    requires forall i :: 0 <= i < |frames| ==> IsFrame(frames[i])
    ensures Parse(Concat(frames)) == Parsed(frames, [], false)
  {
    if frames != [] {
      var f, rest := frames[0], Concat(frames[1..]);
      FramesRoundTrip(frames[1..]);
      assert SizeField(f + rest) == |f|;
      assert (f + rest)[|f|..] == rest && (f + rest)[..|f|] == f;
      assert [f] + frames[1..] == frames;
    }
  }

  /** A list of messages, framed one after the other. */
  function Framed(msgs: seq<(nat, seq<byte>)>): seq<seq<byte>>
    requires forall i :: 0 <= i < |msgs| ==> msgs[i].0 < 0x1_0000 && |msgs[i].1| <= MAX_PAYLOAD
  {
    seq(|msgs|, i requires 0 <= i < |msgs| => Frame(msgs[i].0, msgs[i].1))
  }

  /** Every list of messages comes back from the stream: as many packets, each with the
      id and the payload it was built from, and no residue. */
  lemma {:induction false} MessagesRoundTrip(msgs: seq<(nat, seq<byte>)>)
    requires forall i :: 0 <= i < |msgs| ==> msgs[i].0 < 0x1_0000 && |msgs[i].1| <= MAX_PAYLOAD
    ensures var p := Parse(Concat(Framed(msgs)));
      && p.rest == [] && !p.stuck && |p.packets| == |msgs|
      && forall i :: 0 <= i < |msgs| ==>
           |p.packets[i]| >= HEADER_SIZE && IdField(p.packets[i]) == msgs[i].0 && Payload(p.packets[i]) == msgs[i].1
  {
    forall i | 0 <= i < |msgs|
      ensures IsFrame(Framed(msgs)[i]) && IdField(Framed(msgs)[i]) == msgs[i].0 && Payload(Framed(msgs)[i]) == msgs[i].1
    {
      FrameRoundTrip(msgs[i].0, msgs[i].1);
    }
    FramesRoundTrip(Framed(msgs));
  }

  /** Every prefix of a framed stream yields a prefix of the frames. */
  lemma {:induction false} PrefixYieldsPrefix(frames: seq<seq<byte>>, n: nat)
    requires forall i :: 0 <= i < |frames| ==> IsFrame(frames[i])
    requires n <= |Concat(frames)|
    ensures !Parse(Concat(frames)[..n]).stuck
    ensures Parse(Concat(frames)[..n]).packets <= frames
  {
    var wire := Concat(frames);
    FramesRoundTrip(frames);
    ChunksAreIndependent(wire[..n], wire[n..]);
    assert wire[..n] + wire[n..] == wire;
  }
}
