/** What a connected client knows: the room's messages, carried by the link, folded into
    a view. */
module ClientDelivery {
  import opened Protocol
  import opened Framing
  import opened Replica
  import opened ReplicaAgreement
  import RoomSpec
  import TilemapModel
  import EndToEnd
  import SP = SendProtocol

  /** The serialiser, reduced to what matters: it frames the messages in question, and
      the parser undoes it. */
  ghost predicate Carries(enc: Message -> seq<byte>, dec: seq<byte> -> Message, msgs: seq<Message>) {
    forall i :: 0 <= i < |msgs| ==> IsFrame(enc(msgs[i])) && dec(enc(msgs[i])) == msgs[i]
  }

  function Encoded(enc: Message -> seq<byte>, msgs: seq<Message>): seq<seq<byte>> {
    seq(|msgs|, i requires 0 <= i < |msgs| => enc(msgs[i]))
  }

  function Decoded(dec: seq<byte> -> Message, packets: seq<seq<byte>>): seq<Message> {
    seq(|packets|, i requires 0 <= i < |packets| => dec(packets[i]))
  }

  lemma {:induction false} DecodedPrefix(enc: Message -> seq<byte>, dec: seq<byte> -> Message,
                                         msgs: seq<Message>, packets: seq<seq<byte>>)
    requires Carries(enc, dec, msgs) && packets <= Encoded(enc, msgs)
    ensures Decoded(dec, packets) == msgs[..|packets|]
  {
  }

  lemma {:induction false} AddressedPrefix(msgs: seq<Message>, n: nat)
    requires Addressed(msgs) && n <= |msgs|
    ensures Addressed(msgs[..n])
    decreases |msgs|
  {
    if n == |msgs| {
      assert msgs[..n] == msgs;
    } else {
      AddressedPrefix(msgs[..|msgs| - 1], n);
      assert msgs[..|msgs| - 1][..n] == msgs[..n];
    }
  }

  /** A room and the link to one of its players, each after any run of its own, where the
      session's queue was given exactly the messages the room sent to that player, every
      departure was well told and no WSASend has failed.  The client has handled a prefix
      of those messages, in order, and none of them named an object it did not show; and
      when everything has arrived, its view agrees with the room. */
  lemma {:induction false} ClientSeesRoom(
      tilemap: TilemapModel.Tilemap, rooms: seq<RoomSpec.Room>, steps: seq<RoomSpec.Label>,
      links: seq<EndToEnd.Link>, moves: seq<EndToEnd.Label>,
      p: nat, enc: Message -> seq<byte>, dec: seq<byte> -> Message)
    requires RoomSpec.IsRun(rooms, steps) && rooms[0] == RoomSpec.Init(tilemap)
    requires WellToldRun(rooms, |steps|)
    requires EndToEnd.IsRun(links, moves) && links[0] == EndToEnd.START
    requires p in rooms[|steps|].players && Carries(enc, dec, rooms[|steps|].players[p].sent)
    requires links[|moves|].sender.hist.enqueued == Encoded(enc, rooms[|steps|].players[p].sent)
    requires !links[|moves|].sender.failed
    ensures var r, k, sent := rooms[|steps|], links[|moves|], rooms[|steps|].players[p].sent;
      var handled := Decoded(dec, k.delivered);
      && handled <= sent && Addressed(handled)
      && (k.sender.queue == [] && !SP.Owned(k.sender) && k.rcvd == |k.Wire()| ==>
            handled == sent && Agrees(Fold(handled), p, Objects(r), {}))
  {
    var r, k := rooms[|steps|], links[|moves|];
    var sent := r.players[p].sent;
    RunsAgreeIff(tilemap, rooms, steps, |steps|);
    assert AllAgree(r, {});
    EndToEnd.DeliveredInOrder(links, moves, |moves|);
    DecodedPrefix(enc, dec, sent, k.delivered);
    AddressedPrefix(sent, |k.delivered|);
    assert SessionAgrees(sent, p, Objects(r), {});
  }
}
