/** The outbound side of the display channel: `OpcodeData` builds one frame in a
    growing buffer, and `RayConnection` wraps frames in packets and hands them to
    the UDP socket. The socket is modelled by the list of datagrams sent to it. */
module Display {
  import opened Bytes
  import opened Frames
  import opened Fragmentation

  /** `OpcodeData._packetSequence`: a static counter, so one object that every
      connection (and every frame they build) shares. */
  class FrameCounter {
    var last: u16

    constructor ()
      ensures last == 0
    {
      last := 0;
    }
  }

  /** One frame under construction; `data` is the `MemoryStream`. */
  class OpcodeData {
    var data: seq<byte>

    /** Takes the next frame sequence number from the shared counter and writes the header. */
    constructor (opc: byte, x: u16, y: u16, w: u16, h: u16, counter: FrameCounter)
      modifies counter
      ensures counter.last == Wrap16(old(counter.last) + 1)
      ensures data == Header(opc, counter.last, x, y, w, h)
    {
      data := [];
      new;
      W8(opc);
      W8(0);
      counter.last := Wrap16(counter.last + 1);
      W16(counter.last);
      W16(x);
      W16(y);
      W16(w);
      W16(h);
    }

    method Write(bytes: seq<byte>)
      modifies this
      ensures data == old(data) + bytes
    {
      data := data + bytes;
    }

    method W8(b: byte)
      modifies this
      ensures data == old(data) + [b]
    {
      Write([b]);
    }

    method W16(v: u16)
      modifies this
      ensures data == old(data) + BE16(v)
    {
      Write(BE16(v));
    }

    method W32(v: u32)
      modifies this
      ensures data == old(data) + BE32(v)
    {
      Write(BE32(v));
    }

    method WColor(c: u32)
      modifies this
      ensures data == old(data) + Color(c)
    {
      Write(Color(c));
    }

    /** Appends zero bytes until the length is a multiple of `off`; `off` is never 0
        in the source (a zero would throw `DivideByZeroException`). */
    method WPad(off: u32)
      requires off > 0
      modifies this
      ensures data == Padded(old(data), off)
    {
      ghost var start := data;
      PadLengthIsLeast(|start|, off);
      while |data| % off != 0
        invariant |start| <= |data| <= |start| + PadLength(|start|, off)
        invariant data == start + Zeros(|data| - |start|)
        decreases |start| + PadLength(|start|, off) - |data|
      {
        assert !Aligned(|data|, off);
        W8(0);
      }
      assert Aligned(|data|, off);
    }
  }

  /** One display connection to a terminal. */
  class RayConnection {
    const host: string
    const frames: FrameCounter
    /** The UDP port the socket is bound to. */
    var port: u16
    /** `_sequenceNumber`, the packet counter of this connection. */
    var packetSeq: u16
    /** `_packetCache`, the packet being assembled. */
    var cache: seq<byte>
    /** Every datagram passed to `SendAsync`, in order. */
    var sent: seq<seq<byte>>

    constructor (host: string, port: u16, frames: FrameCounter)
      ensures this.host == host && this.port == port && this.frames == frames
      ensures packetSeq == 0 && cache == [] && sent == []
    {
      this.host := host;
      this.port := port;
      this.frames := frames;
      packetSeq := 0;
      cache := [];
      sent := [];
    }

    /** Rebinds the socket to another port; neither counter changes. */
    method ChangePort(newPort: u16)
      modifies this`port
      ensures port == newPort
    {
      port := newPort;
    }

    /** `_write`: appends to the cache, first flushing it and opening a continuation
        packet when the bytes would push it past 1458. */
    method Write(bytes: seq<byte>)
      modifies this`cache, this`packetSeq, this`sent
      decreases if |cache| + |bytes| > MaxPacketSize then 2 else 0
      ensures port == old(port)
      ensures |old(cache)| + |bytes| > MaxPacketSize ==>
        && sent == old(sent) + [old(cache)]
        && packetSeq == Wrap16(old(packetSeq) + 1)
        && cache == PacketHeader(packetSeq, true) + bytes
      ensures |old(cache)| + |bytes| <= MaxPacketSize ==>
        sent == old(sent) && packetSeq == old(packetSeq) && cache == old(cache) + bytes
    {
      if |cache| + |bytes| > MaxPacketSize {
        EndPacket();
        BeginPacket(true);
      }
      cache := cache + bytes;
    }

    /** `_beginPacket`: empties the cache and writes the 16-byte header under the next
        packet sequence number. */
    method BeginPacket(continued: bool)
      modifies this`cache, this`packetSeq, this`sent
      decreases 1
      ensures packetSeq == Wrap16(old(packetSeq) + 1)
      ensures cache == PacketHeader(packetSeq, continued)
      ensures sent == old(sent) && port == old(port)
    {
      cache := [];
      packetSeq := Wrap16(packetSeq + 1);
      Write(BE16(packetSeq));
      assert cache == BE16(packetSeq);
      Write(BE16(if continued then 1 else 0));
      Write(BE16(1));
      Write(BE16(0));
      Write(BE16(0xF));
      Write(BE16(0xA));
      Write(BE16(0x10));
      Write(BE16(0));
    }

    /** `_endPacket`: hands the cache to the socket and empties it. */
    method EndPacket()
      modifies this`cache, this`packetSeq, this`sent
      ensures sent == old(sent) + [old(cache)] && cache == []
      ensures packetSeq == old(packetSeq) && port == old(port)
    {
      sent := sent + [cache];
      cache := [];
    }

    /** `_send`: cuts the frame into packets of at most 1442 frame bytes. Starting the
        next packet empties the cache without sending it, so `assembled` lists every
        packet built and only the last of them reaches the socket. */
    method Send(frame: seq<byte>) returns (ghost assembled: seq<seq<byte>>)
      modifies this`cache, this`packetSeq, this`sent
      ensures assembled == Packets(old(packetSeq), frame)
      ensures sent == old(sent) + [FinalDatagram(old(packetSeq), frame)]
      ensures packetSeq == Wrap16(old(packetSeq) + FragmentCount(|frame|))
      ensures cache == [] && port == old(port)
    {
      ghost var seq0 := packetSeq;
      var toGo := |frame|;
      var offset := 0;
      ghost var k: nat := 0;
      assembled := [];
      BeginPacket(false);
      SendingStart(seq0, frame);
      while toGo > 0
        invariant Sending(seq0, frame, toGo, offset, k, packetSeq, cache, assembled)
        invariant sent == old(sent)
        decreases toGo
      {
        toGo, offset, k, assembled := SendStep(frame, toGo, offset, seq0, k, assembled);
      }
      SendingDone(seq0, frame, offset, k, packetSeq, cache, assembled);
      assembled := assembled + [cache];
      EndPacket();
    }

    /** One pass of the `_send` loop: copy the next piece of the frame into the cache and,
        when more is left, begin the next packet. */
    method SendStep(frame: seq<byte>, toGo: int, offset: int, ghost seq0: u16, ghost k: nat, ghost assembled: seq<seq<byte>>)
      returns (toGo1: int, offset1: int, ghost k1: nat, ghost assembled1: seq<seq<byte>>)
      requires toGo > 0 && Sending(seq0, frame, toGo, offset, k, packetSeq, cache, assembled)
      modifies this`cache, this`packetSeq, this`sent
      ensures Sending(seq0, frame, toGo1, offset1, k1, packetSeq, cache, assembled1)
      ensures sent == old(sent) && toGo1 < toGo
    {
      var nextBlob := if toGo < MaxFragment then toGo else MaxFragment;
      if toGo > MaxFragment {
        SendingNext(seq0, frame, toGo, offset, k, packetSeq, cache, assembled);
      } else {
        SendingLast(seq0, frame, toGo, offset, k, packetSeq, cache, assembled);
      }
      cache := cache + frame[offset .. offset + nextBlob];
      toGo1 := toGo - nextBlob;
      offset1 := offset + nextBlob;
      k1, assembled1 := k, assembled;
      if toGo1 != 0 {
        assembled1 := assembled + [cache];
        BeginPacket(true);
        Wrap16Succ(seq0 + 1 + k);
        k1 := k + 1;
      }
    }

    /** What every draw command leaves behind: one frame taken from the shared counter,
        and the one datagram `Send` passes to the socket. */
    twostate predicate SentFrame(frame: seq<byte>)
      reads this, frames
    {
      && frames.last == Wrap16(old(frames.last) + 1)
      && sent == old(sent) + [FinalDatagram(old(packetSeq), frame)]
      && packetSeq == Wrap16(old(packetSeq) + FragmentCount(|frame|))
      && cache == [] && port == old(port)
    }

    method Pad()
      modifies this, frames
      ensures SentFrame(PadFrame(frames.last))
    {
      var opcode := new OpcodeData(OpPad, 0xFFFF, 0xFFFF, 0xFFFF, 0xFFFF, frames);
      opcode.W32(0xFFFF_FFFF);
      ghost var _ := Send(opcode.data);
    }

    /** Fills the rectangle with a colour given as 0x00RRGGBB. */
    method FillRect(x: u16, y: u16, w: u16, h: u16, color: u32)
      modifies this, frames
      ensures SentFrame(FillRectFrame(frames.last, x, y, w, h, color))
    {
      var opcode := new OpcodeData(OpFillRect, x, y, w, h, frames);
      opcode.WColor(color);
      ghost var _ := Send(opcode.data);
    }

    /** A one-colour bitmap with a transparent background, rows padded to whole bytes. */
    method MaskedFill(x: u16, y: u16, w: u16, h: u16, color: u32, bitmap: seq<byte>)
      modifies this, frames
      ensures SentFrame(MaskedFillFrame(frames.last, x, y, w, h, color, bitmap))
    {
      var opcode := new OpcodeData(OpMaskedFill, x, y, w, h, frames);
      opcode.WColor(color);
      opcode.Write(bitmap);
      opcode.WPad(4);
      ghost var _ := Send(opcode.data);
    }

    /** Copies the rectangle at (fromX, fromY) on screen to (x, y). */
    method CopyRect(x: u16, y: u16, w: u16, h: u16, fromX: u16, fromY: u16)
      modifies this, frames
      ensures SentFrame(CopyRectFrame(frames.last, x, y, w, h, fromX, fromY))
    {
      var opcode := new OpcodeData(OpCopyRect, x, y, w, h, frames);
      opcode.W16(fromX);
      opcode.W16(fromY);
      ghost var _ := Send(opcode.data);
    }

    /** A two-colour bitmap; its length is what the source's debug assertion demands. */
    method ExpandBitmap(x: u16, y: u16, w: u16, h: u16, bg: u32, fg: u32, bitmap: seq<byte>)
      requires |bitmap| == ExpandBitmapLength(w, h)
      modifies this, frames
      ensures SentFrame(ExpandBitmapFrame(frames.last, x, y, w, h, bg, fg, bitmap))
    {
      var opcode := new OpcodeData(OpExpandBitmap, x, y, w, h, frames);
      opcode.WColor(bg);
      opcode.WColor(fg);
      opcode.Write(bitmap);
      opcode.WPad(4);
      ghost var _ := Send(opcode.data);
    }

    /** Raw pixels in B, G, R order. */
    method BlitBitmap(x: u16, y: u16, w: u16, h: u16, data: seq<byte>)
      modifies this, frames
      ensures SentFrame(BlitBitmapFrame(frames.last, x, y, w, h, data))
    {
      var opcode := new OpcodeData(OpBlitBitmap, x, y, w, h, frames);
      opcode.Write(data);
      opcode.WPad(4);
      ghost var _ := Send(opcode.data);
    }

    method SetMouseBounds(w: u16, h: u16)
      modifies this, frames
      ensures SentFrame(MouseBoundsFrame(frames.last, w, h))
    {
      var opcode := new OpcodeData(OpSetMouseBounds, 0, 0, w, h, frames);
      ghost var _ := Send(opcode.data);
    }

    /** The cursor's colour bitmap and mask; both lengths are what the source's debug
        assertions demand. */
    method SetMouseCursor(x: u16, y: u16, w: u16, h: u16, bg: u32, fg: u32, cbitmap: seq<byte>, mbitmap: seq<byte>)
      requires |cbitmap| == CursorBitmapLength(w, h)
      requires |mbitmap| == CursorBitmapLength(w, h)
      modifies this, frames
      ensures SentFrame(MouseCursorFrame(frames.last, x, y, w, h, bg, fg, cbitmap, mbitmap))
    {
      var opcode := new OpcodeData(OpSetMouseCursor, x, y, w, h, frames);
      opcode.WColor(bg);
      opcode.WColor(fg);
      opcode.Write(cbitmap);
      opcode.Write(mbitmap);
      opcode.WPad(4);
      ghost var _ := Send(opcode.data);
    }

    method SetMousePosition(x: u16, y: u16)
      modifies this, frames
      ensures SentFrame(MousePositionFrame(frames.last, x, y))
    {
      var opcode := new OpcodeData(OpSetMousePosition, x, y, 0, 0, frames);
      ghost var _ := Send(opcode.data);
    }
  }
}
