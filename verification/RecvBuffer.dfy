/** The receive side of a session: the byte buffer with its two cursors, and ProcessRecv. */
module Receiving {
  import opened Framing

  const BUFFER_COUNT := 10
  const BUFFER_SIZE := 0x1_0000

  class RecvBuffer {
    const bufferSize: nat
    const buffer: array<byte>
    var readPos: nat
    var writePos: nat

    ghost predicate Valid()
      reads this
    {
      buffer.Length == bufferSize * BUFFER_COUNT && readPos <= writePos <= buffer.Length
    }

    /** The bytes received and not yet read. */
    function Window(): seq<byte>
      requires Valid()
      reads this, buffer
    {
      buffer[readPos..writePos]
    }

    function DataSize(): nat
      requires Valid()
      reads this
    {
      writePos - readPos
    }

    function FreeSize(): nat
      requires Valid()
      reads this
    {
      buffer.Length - writePos
    }

    constructor (size: nat)
      ensures Valid() && fresh(buffer) && bufferSize == size
      ensures DataSize() == 0 && FreeSize() == size * BUFFER_COUNT
    {
      bufferSize := size;
      buffer := new byte[size * BUFFER_COUNT](_ => 0);
      readPos, writePos := 0, 0;
    }

    /** The kernel writes behind the write cursor, within the room that was posted. */
    method Fill(bytes: seq<byte>)
      requires Valid() && |bytes| <= FreeSize()
      modifies buffer
      ensures Window() == old(Window())
      ensures buffer[writePos..writePos + |bytes|] == bytes
    {
      forall k | 0 <= k < |bytes| {
        buffer[writePos + k] := bytes[k];
      }
    }

    method OnWrite(numOfBytes: nat) returns (ok: bool)
      requires Valid()
      modifies this`writePos
      ensures Valid() && ok == (numOfBytes <= old(FreeSize()))
      ensures if ok then Window() == old(Window()) + old(buffer[..])[old(writePos)..old(writePos) + numOfBytes]
              else Window() == old(Window())
    {
      if numOfBytes > FreeSize() {
        return false;
      }
      writePos := writePos + numOfBytes;
      return true;
    }

    method OnRead(numOfBytes: nat) returns (ok: bool)
      requires Valid()
      modifies this`readPos
      ensures Valid() && ok == (numOfBytes <= old(DataSize()))
      ensures Window() == if ok then old(Window())[numOfBytes..] else old(Window())
    {
      if numOfBytes > DataSize() {
        return false;
      }
      readPos := readPos + numOfBytes;
      return true;
    }

    /** Makes room without losing a byte.  The two stretches that memcpy works on must not
        overlap. */
    method Clean()
      requires Valid()
      requires 0 < DataSize() && FreeSize() < bufferSize ==> DataSize() <= readPos
      modifies this`readPos, this`writePos, buffer
      ensures Valid() && Window() == old(Window())
      ensures DataSize() <= (BUFFER_COUNT - 1) * bufferSize ==> bufferSize <= FreeSize()
    {
      var dataSize := DataSize();
      if dataSize == 0 {
        readPos, writePos := 0, 0;
      } else if FreeSize() < bufferSize {
        ghost var window := Window();
        forall k | 0 <= k < dataSize {
          buffer[k] := buffer[readPos + k];
        }
        readPos, writePos := 0, dataSize;
        assert buffer[0..dataSize] == window;
      }
    }
  }

  /** What OnRecv leaves behind is shorter than the largest packet. */
  lemma {:induction false} ResidueIsShort(bytes: seq<byte>)
    requires !Parse(bytes).stuck
    ensures |Parse(bytes).rest| < BUFFER_SIZE - 1
  {
    PacketsTileStream(bytes);
  }

  /** A packet session as far as it receives. */
  class PacketSession {
    const recvBuffer: RecvBuffer
    var connected: bool
    /** What OnRecvPacket was called with. */
    var delivered: seq<seq<byte>>
    /** Everything that arrived. */
    ghost var stream: seq<byte>

    /** The session stands where one call of OnRecv on the whole stream would stand, and
        there is room for at least BUFFER_SIZE more bytes. */
    ghost predicate Valid()
      reads this, recvBuffer, recvBuffer.buffer
    {
      && recvBuffer.Valid() && recvBuffer.bufferSize == BUFFER_SIZE
      && Parse(stream) == Parsed(delivered, recvBuffer.Window(), false)
      && BUFFER_SIZE <= recvBuffer.FreeSize()
    }

    constructor ()
      ensures Valid() && fresh(recvBuffer) && fresh(recvBuffer.buffer)
      ensures connected && delivered == [] && stream == []
    {
      recvBuffer := new RecvBuffer(BUFFER_SIZE);
      connected, delivered, stream := true, [], [];
    }

    /** The bytes of a completed receive join the window.  They fit the room that was posted,
        so the overflow branch is never taken. */
    method Accept(bytes: seq<byte>)
      requires recvBuffer.Valid() && |bytes| <= recvBuffer.FreeSize()
      modifies recvBuffer`writePos, recvBuffer.buffer
      ensures recvBuffer.Valid() && recvBuffer.Window() == old(recvBuffer.Window()) + bytes
    {
      recvBuffer.Fill(bytes);
      var written := recvBuffer.OnWrite(|bytes|);
      if !written {
        assert false;
      }
    }

    /** The bytes handed out are dropped and room is made again.  OnRecv never claims more
        than the window holds, so the second overflow branch is never taken either. */
    method Advance(processLen: nat)
      requires recvBuffer.Valid() && recvBuffer.bufferSize == BUFFER_SIZE
      requires processLen <= recvBuffer.DataSize() < processLen + BUFFER_SIZE - 1
      modifies recvBuffer, recvBuffer.buffer
      ensures recvBuffer.Valid() && BUFFER_SIZE <= recvBuffer.FreeSize()
      ensures recvBuffer.Window() == old(recvBuffer.Window())[processLen..]
    {
      var dataSize := recvBuffer.DataSize();
      var read := recvBuffer.OnRead(processLen);
      if dataSize < processLen || !read {
        assert false;
      }
      assert |recvBuffer.Window()| == dataSize - processLen;
      recvBuffer.Clean();
    }

    /** Hands out the packets in the window. */
    method HandOut() returns (packets: seq<seq<byte>>)
      requires recvBuffer.Valid() && recvBuffer.bufferSize == BUFFER_SIZE
      requires !Parse(recvBuffer.Window()).stuck
      modifies recvBuffer, recvBuffer.buffer
      ensures recvBuffer.Valid() && BUFFER_SIZE <= recvBuffer.FreeSize()
      ensures Parse(old(recvBuffer.Window())) == Parsed(packets, recvBuffer.Window(), false)
    {
      var processLen;
      processLen, packets := OnRecv(recvBuffer.Window());
      ResidueIsShort(recvBuffer.Window());
      Advance(processLen);
    }

    /** A receive has completed with these bytes.  Only an empty completion disconnects. */
    method ProcessRecv(bytes: seq<byte>)
      requires Valid() && connected
      requires |bytes| <= recvBuffer.FreeSize() && !Parse(stream + bytes).stuck
      modifies this, recvBuffer, recvBuffer.buffer
      ensures Valid() && stream == old(stream) + bytes && connected == (bytes != [])
      ensures var p := Parse(old(recvBuffer.Window()) + bytes);
        delivered == old(delivered) + p.packets && recvBuffer.Window() == p.rest
    {
      ChunksAreIndependent(stream, bytes);
      if |bytes| == 0 {
        connected := false;
        assert stream + bytes == stream && recvBuffer.Window() + bytes == recvBuffer.Window();
        assert delivered + [] == delivered;
        return;
      }
      stream := stream + bytes;
      Accept(bytes);
      var packets := HandOut();
      delivered := delivered + packets;
    }
  }
}
