/** From Send to OnRecvPacket: the send protocol, a reliable byte stream and the receive
    loop put together, for every interleaving and every way of cutting the stream. */
module EndToEnd {
  import opened Ordered
  import opened Framing
  import opened Sequences
  import SP = SendProtocol

  type Packet = seq<byte>

  /** `rcvd` counts the bytes taken off the stream; `residue` is what OnRecv left in the
      receive buffer; `delivered` is what OnRecvPacket was called with. */
  datatype Link = Link(sender: SP.State<Packet>, rcvd: nat, residue: seq<byte>, delivered: seq<Packet>) {
    /** The bytes handed to the kernel, in the order in which it takes them. */
    function Wire(): seq<byte> { Concat(sender.hist.submitted) }
  }

  datatype Label = Sender(l: SP.Label<Packet>) | Receive(n: nat)

  predicate Enabled(k: Link, l: Label) {
    match l
    case Sender(sl) => SP.Enabled(k.sender, sl) && (sl.Send? ==> IsFrame(sl.buffer))
    case Receive(n) => n > 0 && k.rcvd + n <= |k.Wire()|
  }

  function Next(k: Link, l: Label): Link
    requires Enabled(k, l)
  {
    match l
    case Sender(sl) => k.(sender := SP.Next(k.sender, sl))
    case Receive(n) =>
      var p := Parse(k.residue + k.Wire()[k.rcvd..k.rcvd + n]);
      Link(k.sender, k.rcvd + n, p.rest, k.delivered + p.packets)
  }

  const START := Link(SP.Init<Packet>(), 0, [], [])

  ghost predicate IsRun(links: seq<Link>, labels: seq<Label>) {
    && |links| == |labels| + 1
    && forall i :: 0 <= i < |labels| ==> Enabled(links[i], labels[i]) && links[i + 1] == Next(links[i], labels[i])
  }

  // ---------- the invariant ----------

  ghost predicate AllFrames(packets: seq<Packet>) {
    forall i :: 0 <= i < |packets| ==> IsFrame(packets[i])
  }

  ghost predicate CarriesFrames(s: SP.State<Packet>) {
    AllFrames(s.queue) && AllFrames(s.batch) && AllFrames(s.hist.submitted)
  }

  /** However the stream was cut, the receiver stands where one call of OnRecv on
      everything received so far would stand. */
  ghost predicate Caught(wire: seq<byte>, rcvd: nat, residue: seq<byte>, delivered: seq<Packet>) {
    rcvd <= |wire| && Parse(wire[..rcvd]) == Parsed(delivered, residue, false)
  }

  ghost predicate Inv(k: Link) {
    && SP.Inv(k.sender) && CarriesFrames(k.sender)
    && Caught(k.Wire(), k.rcvd, k.residue, k.delivered)
  }

  lemma {:induction false} SenderKeepsFrames(s: SP.State<Packet>, l: SP.Label<Packet>)
    requires CarriesFrames(s) && SP.Enabled(s, l) && (l.Send? ==> IsFrame(l.buffer))
    ensures CarriesFrames(SP.Next(s, l))
  {
  }

  /** The stream only grows at its end. */
  lemma {:induction false} WireGrows(s: SP.State<Packet>, l: SP.Label<Packet>)
    requires SP.Enabled(s, l)
    ensures Concat(s.hist.submitted) <= Concat(SP.Next(s, l).hist.submitted)
  {
    match l
    case SubmitOk(_) => ConcatAppend(s.hist.submitted, s.batch);
    case Send(_, _) =>
    case Drain(_) =>
    case _ => SP.OthersKeepHistories(s, l);
  }

  lemma {:induction false} NextChunk(frames: seq<Packet>, rcvd: nat, n: nat, residue: seq<byte>, delivered: seq<Packet>)
    requires AllFrames(frames) && rcvd + n <= |Concat(frames)|
    requires Caught(Concat(frames), rcvd, residue, delivered)
    ensures var p := Parse(residue + Concat(frames)[rcvd..rcvd + n]);
      Caught(Concat(frames), rcvd + n, p.rest, delivered + p.packets)
  {
    var wire := Concat(frames);
    ChunksAreIndependent(wire[..rcvd], wire[rcvd..rcvd + n]);
    assert wire[..rcvd] + wire[rcvd..rcvd + n] == wire[..rcvd + n];
    PrefixYieldsPrefix(frames, rcvd + n);
  }

  lemma {:induction false} LongerWire(wire: seq<byte>, wire': seq<byte>, rcvd: nat, residue: seq<byte>, delivered: seq<Packet>)
    requires Caught(wire, rcvd, residue, delivered) && wire <= wire'
    ensures Caught(wire', rcvd, residue, delivered)
  {
    assert wire'[..rcvd] == wire[..rcvd];
  }

  lemma {:induction false} SenderKeepsInv(k: Link, l: SP.Label<Packet>)
    requires Inv(k) && Enabled(k, Sender(l))
    ensures Inv(Next(k, Sender(l)))
  {
    SP.NextKeepsInv(k.sender, l);
    SenderKeepsFrames(k.sender, l);
    WireGrows(k.sender, l);
    LongerWire(k.Wire(), Next(k, Sender(l)).Wire(), k.rcvd, k.residue, k.delivered);
  }

  lemma {:induction false} ReceiveKeepsInv(k: Link, n: nat)
    requires Inv(k) && Enabled(k, Receive(n))
    ensures Inv(Next(k, Receive(n)))
  {
    NextChunk(k.sender.hist.submitted, k.rcvd, n, k.residue, k.delivered);
  }

  lemma {:induction false} RunsKeepInv(links: seq<Link>, labels: seq<Label>, i: nat)
    requires IsRun(links, labels) && links[0] == START && i < |links|
    ensures Inv(links[i])
  {
    if i > 0 {
      var j := i - 1;
      RunsKeepInv(links, labels, j);
      assert Enabled(links[j], labels[j]) && links[j + 1] == Next(links[j], labels[j]);
      match labels[j]
      case Sender(l) => SenderKeepsInv(links[j], l);
      case Receive(n) => ReceiveKeepsInv(links[j], n);
    } else {
      assert START.Wire()[..0] == [];
    }
  }

  // ---------- the theorem ----------

  /** In every run the packets delivered are a prefix of the packets handed to the kernel;
      as long as no WSASend has failed they are a prefix of the packets in the order in
      which Send enqueued them, and all of those once nothing is under way any more. */
  lemma {:induction false} DeliveredInOrder(links: seq<Link>, labels: seq<Label>, i: nat)
    requires IsRun(links, labels) && links[0] == START && i < |links|
    ensures var k := links[i];
      && k.delivered <= k.sender.hist.submitted
      && (!k.sender.failed ==> k.delivered <= k.sender.hist.enqueued)
      && (!k.sender.failed && k.sender.queue == [] && !SP.Owned(k.sender) && k.rcvd == |k.Wire()| ==>
            k.delivered == k.sender.hist.enqueued)
  {
    RunsKeepInv(links, labels, i);
    var k := links[i];
    var h := k.sender.hist;
    PrefixYieldsPrefix(h.submitted, k.rcvd);
    if !k.sender.failed {
      assert h.submitted + h.inHand + k.sender.queue == h.enqueued;
      assert h.submitted + (h.inHand + k.sender.queue) == h.enqueued;
      if k.sender.queue == [] && !SP.Owned(k.sender) && k.rcvd == |k.Wire()| {
        assert h.submitted == h.enqueued;
        assert k.Wire()[..k.rcvd] == k.Wire();
        FramesRoundTrip(h.submitted);
      }
    }
  }
}
