/** The byte layout of one outbound display command (`OpcodeData` and the
    draw commands of `RayConnection`): an opcode, a zero byte, the frame
    sequence number, the rectangle, a command-specific payload and zero
    padding to a multiple of four bytes. */
module Frames {
  import opened Bytes

  const OpFillRect: byte := 0xA2
  const OpMaskedFill: byte := 0xA3
  const OpCopyRect: byte := 0xA4
  const OpExpandBitmap: byte := 0xA5
  const OpBlitBitmap: byte := 0xA6
  const OpSetMouseBounds: byte := 0xA8
  const OpSetMouseCursor: byte := 0xA9
  const OpSetMousePosition: byte := 0xAA
  const OpPad: byte := 0xAF

  /** The first twelve bytes of every frame, each field big-endian. */
  function Header(opc: byte, seqNo: u16, x: u16, y: u16, w: u16, h: u16): (r: seq<byte>)
    ensures |r| == 12
  {
    [opc, 0] + BE16(seqNo) + BE16(x) + BE16(y) + BE16(w) + BE16(h)
  }

  /** Reading the header back, big-endian, gives the opcode, a zero byte, the
      sequence number and the rectangle, in that order. */
  lemma HeaderLayout(opc: byte, seqNo: u16, x: u16, y: u16, w: u16, h: u16)
    ensures var r := Header(opc, seqNo, x, y, w, h);
      && r[0] == opc && r[1] == 0
      && Word(r[2], r[3]) == seqNo && Word(r[4], r[5]) == x && Word(r[6], r[7]) == y
      && Word(r[8], r[9]) == w && Word(r[10], r[11]) == h
  {
    WordOfBE16(seqNo);
    WordOfBE16(x);
    WordOfBE16(y);
    WordOfBE16(w);
    WordOfBE16(h);
  }

  /** `_wColor`: a zero byte, then the low three bytes of the value from the least significant up. */
  function Color(c: u32): (r: seq<byte>)
    ensures |r| == 4 && r[0] == 0
  {
    [0, c % 0x100, (c / 0x100) % 0x100, (c / 0x1_0000) % 0x100]
  }

  /** A colour given as 0x??RRGGBB goes on the wire as [0, BB, GG, RR]; the top byte is dropped. */
  lemma ColorLayout(top: byte, red: byte, green: byte, blue: byte)
    ensures Color(top * 0x100_0000 + red * 0x1_0000 + green * 0x100 + blue) == [0, blue, green, red]
  {
    var high := top * 0x100 + red;
    var mid := high * 0x100 + green;
    DivModOfMultiplePlus(mid, 0x100, blue);
    DivModOfMultiplePlus(high, 0x100, green);
    DivModOfMultiplePlus(high, 0x1_0000, green * 0x100 + blue);
    DivModOfMultiplePlus(top, 0x100, red);
  }

  /** How many zero bytes `_wPad(off)` appends to data of length `len`. */
  function PadLength(len: nat, off: nat): nat
    requires off > 0
  {
    (off - len % off) % off
  }

  predicate Aligned(n: nat, off: nat)
    requires off > 0
  {
    n % off == 0
  }

  /** The two cases of `PadLength`: nothing on an aligned length, otherwise what is
      missing to the next multiple. */
  lemma PadCases(len: nat, off: nat)
    requires off > 0
    ensures len % off == 0 ==> PadLength(len, off) == 0
    ensures len % off != 0 ==> PadLength(len, off) == off - len % off
  {
    var r := len % off;
    if r == 0 {
      DivModOfMultiplePlus(1, off, 0);
    } else {
      DivModOfMultiplePlus(0, off, off - r);
    }
  }

  /** Each length strictly between `len` and the next multiple of `off` is unaligned. */
  lemma UnalignedBeforePad(len: nat, off: nat, n: nat)
    requires off > 0 && len % off != 0 && len <= n < len + (off - len % off)
    ensures !Aligned(n, off)
  {
    var q, r := len / off, len % off;
    assert n == q * off + (r + (n - len));
    DivModOfMultiplePlus(q, off, r + (n - len));
  }

  /** Adding what is missing to the next multiple of `off` aligns the length. */
  lemma AlignedAfterPad(len: nat, off: nat)
    requires off > 0 && len % off != 0
    ensures Aligned(len + (off - len % off), off)
  {
    var q := len / off;
    assert len + (off - len % off) == (q + 1) * off;
    DivModOfMultiplePlus(q + 1, off, 0);
  }

  /** `_wPad` stops at the first length that is a multiple of `off`: fewer than `off`
      bytes are added, none when the length is already aligned. */
  lemma PadLengthIsLeast(len: nat, off: nat)
    requires off > 0
    ensures PadLength(len, off) < off
    ensures Aligned(len + PadLength(len, off), off)
    ensures forall n: nat :: len <= n < len + PadLength(len, off) ==> !Aligned(n, off)
    ensures Aligned(len, off) <==> PadLength(len, off) == 0
  {
    PadCases(len, off);
    if len % off != 0 {
      AlignedAfterPad(len, off);
      forall n: nat | len <= n < len + PadLength(len, off)
        ensures !Aligned(n, off)
      {
        UnalignedBeforePad(len, off, n);
      }
    }
  }

  /** The quotient and remainder of `q * off + s` are `q` and `s` when `s` lies in [0, off). */
  lemma DivModOfMultiplePlus(q: int, off: nat, s: nat)
    requires off > 0 && s < off
    ensures (q * off + s) / off == q && (q * off + s) % off == s
  {
    var x := q * off + s;
    var d, m := x / off, x % off;
    assert (d - q) * off == s - m;
    MulSign(d - q, off);
  }

  /** A nonzero multiple of `off` is at least `off` away from zero. */
  lemma MulSign(k: int, off: nat)
    requires off > 0
    ensures k > 0 ==> k * off >= off
    ensures k < 0 ==> k * off + off <= 0
  {
    if k > 0 {
      MulAtLeast(k, off);
    } else if k < 0 {
      MulAtLeast(-k, off);
      assert k * off == -((-k) * off);
    }
  }

  lemma MulAtLeast(k: int, off: nat)
    requires k >= 1
    ensures k * off >= off
  {
  }

  /** The bytes `d` followed by `_wPad(off)`. */
  function Padded(d: seq<byte>, off: nat): (r: seq<byte>)
    requires off > 0
    ensures |r| % off == 0 && |d| <= |r| < |d| + off && r[..|d|] == d
    ensures forall i :: |d| <= i < |r| ==> r[i] == 0
    ensures |d| % off == 0 ==> r == d
  {
    PadLengthIsLeast(|d|, off);
    d + Zeros(PadLength(|d|, off))
  }

  /** What every frame is: the header, the payload, then fewer than four zero bytes
      making the length a multiple of four. */
  ghost predicate IsFrame(r: seq<byte>, opc: byte, seqNo: u16, x: u16, y: u16, w: u16, h: u16, payload: seq<byte>)
  {
    && |r| % 4 == 0
    && 12 + |payload| <= |r| < 12 + |payload| + 4
    && r[..12] == Header(opc, seqNo, x, y, w, h)
    && r[12..12 + |payload|] == payload
    && (forall i :: 12 + |payload| <= i < |r| ==> r[i] == 0)
  }

  /** A header and payload followed by `_wPad(4)` form a frame. */
  lemma PaddedIsFrame(opc: byte, seqNo: u16, x: u16, y: u16, w: u16, h: u16, payload: seq<byte>)
    ensures IsFrame(Padded(Header(opc, seqNo, x, y, w, h) + payload, 4), opc, seqNo, x, y, w, h, payload)
  {
    var hd := Header(opc, seqNo, x, y, w, h);
    var r := Padded(hd + payload, 4);
    assert r[..|hd + payload|] == hd + payload;
    assert r[..12] == (hd + payload)[..12] == hd;
    assert r[12..12 + |payload|] == (hd + payload)[12..] == payload;
  }

  /** A header followed by a payload whose length is already a multiple of four is a frame. */
  lemma AlignedIsFrame(opc: byte, seqNo: u16, x: u16, y: u16, w: u16, h: u16, payload: seq<byte>)
    requires |payload| % 4 == 0
    ensures IsFrame(Header(opc, seqNo, x, y, w, h) + payload, opc, seqNo, x, y, w, h, payload)
  {
    var r := Header(opc, seqNo, x, y, w, h) + payload;
    assert r[..12] == Header(opc, seqNo, x, y, w, h);
  }

  // The frames the draw commands build, one function per command.

  function PadFrame(seqNo: u16): (r: seq<byte>)
    ensures |r| == 16 && IsFrame(r, OpPad, seqNo, 0xFFFF, 0xFFFF, 0xFFFF, 0xFFFF, [0xFF, 0xFF, 0xFF, 0xFF])
  {
    AlignedIsFrame(OpPad, seqNo, 0xFFFF, 0xFFFF, 0xFFFF, 0xFFFF, BE32(0xFFFF_FFFF));
    Header(OpPad, seqNo, 0xFFFF, 0xFFFF, 0xFFFF, 0xFFFF) + BE32(0xFFFF_FFFF)
  }

  function FillRectFrame(seqNo: u16, x: u16, y: u16, w: u16, h: u16, color: u32): (r: seq<byte>)
    ensures |r| == 16 && IsFrame(r, OpFillRect, seqNo, x, y, w, h, Color(color))
  {
    AlignedIsFrame(OpFillRect, seqNo, x, y, w, h, Color(color));
    Header(OpFillRect, seqNo, x, y, w, h) + Color(color)
  }

  function MaskedFillFrame(seqNo: u16, x: u16, y: u16, w: u16, h: u16, color: u32, bitmap: seq<byte>): (r: seq<byte>)
    ensures IsFrame(r, OpMaskedFill, seqNo, x, y, w, h, Color(color) + bitmap)
  {
    PaddedIsFrame(OpMaskedFill, seqNo, x, y, w, h, Color(color) + bitmap);
    assert Header(OpMaskedFill, seqNo, x, y, w, h) + Color(color) + bitmap
        == Header(OpMaskedFill, seqNo, x, y, w, h) + (Color(color) + bitmap);
    Padded(Header(OpMaskedFill, seqNo, x, y, w, h) + Color(color) + bitmap, 4)
  }

  function CopyRectFrame(seqNo: u16, x: u16, y: u16, w: u16, h: u16, fromX: u16, fromY: u16): (r: seq<byte>)
    ensures |r| == 16 && IsFrame(r, OpCopyRect, seqNo, x, y, w, h, BE16(fromX) + BE16(fromY))
  {
    AlignedIsFrame(OpCopyRect, seqNo, x, y, w, h, BE16(fromX) + BE16(fromY));
    assert Header(OpCopyRect, seqNo, x, y, w, h) + BE16(fromX) + BE16(fromY)
        == Header(OpCopyRect, seqNo, x, y, w, h) + (BE16(fromX) + BE16(fromY));
    Header(OpCopyRect, seqNo, x, y, w, h) + BE16(fromX) + BE16(fromY)
  }

  /** The bitmap length `ExpandBitmap` asserts: rows padded out to whole bytes. */
  function ExpandBitmapLength(w: u16, h: u16): nat {
    (w + 7) / 8 * h
  }

  function ExpandBitmapFrame(seqNo: u16, x: u16, y: u16, w: u16, h: u16, bg: u32, fg: u32, bitmap: seq<byte>): (r: seq<byte>)
    ensures IsFrame(r, OpExpandBitmap, seqNo, x, y, w, h, Color(bg) + Color(fg) + bitmap)
  {
    PaddedIsFrame(OpExpandBitmap, seqNo, x, y, w, h, Color(bg) + Color(fg) + bitmap);
    assert Header(OpExpandBitmap, seqNo, x, y, w, h) + Color(bg) + Color(fg) + bitmap
        == Header(OpExpandBitmap, seqNo, x, y, w, h) + (Color(bg) + Color(fg) + bitmap);
    Padded(Header(OpExpandBitmap, seqNo, x, y, w, h) + Color(bg) + Color(fg) + bitmap, 4)
  }

  function BlitBitmapFrame(seqNo: u16, x: u16, y: u16, w: u16, h: u16, data: seq<byte>): (r: seq<byte>)
    ensures IsFrame(r, OpBlitBitmap, seqNo, x, y, w, h, data)
  {
    PaddedIsFrame(OpBlitBitmap, seqNo, x, y, w, h, data);
    Padded(Header(OpBlitBitmap, seqNo, x, y, w, h) + data, 4)
  }

  function MouseBoundsFrame(seqNo: u16, w: u16, h: u16): (r: seq<byte>)
    ensures |r| == 12 && IsFrame(r, OpSetMouseBounds, seqNo, 0, 0, w, h, [])
  {
    AlignedIsFrame(OpSetMouseBounds, seqNo, 0, 0, w, h, []);
    Header(OpSetMouseBounds, seqNo, 0, 0, w, h)
  }

  /** The length `SetMouseCursor` asserts for each bitmap, `(w * h) >> 4`, where the
      product is a C# `int` and wraps, and `>>` shifts arithmetically. */
  function CursorBitmapLength(w: u16, h: u16): int {
    WrapI32(w * h) / 16
  }

  /** For cursors of fewer than 2^31 pixels the asserted length is w*h/16 bytes; for
      larger ones the product wraps negative and no bitmap can pass the assertion. */
  lemma CursorBitmapLengthCases(w: u16, h: u16)
    ensures w * h < 0x8000_0000 ==> CursorBitmapLength(w, h) == w * h / 16
    ensures w * h >= 0x8000_0000 ==> CursorBitmapLength(w, h) < 0
  {
    if w * h >= 0x8000_0000 {
      assert w * h < 0x1_0000_0000 by {
        assert w <= 0xFFFF && h <= 0xFFFF;
        MulBound(w, h);
      }
      assert WrapI32(w * h) == w * h - 0x1_0000_0000;
    }
  }

  lemma MulBound(w: nat, h: nat)
    requires w <= 0xFFFF && h <= 0xFFFF
    ensures w * h <= 0xFFFF * 0xFFFF
  {
    assert w * h <= 0xFFFF * h;
    assert 0xFFFF * h <= 0xFFFF * 0xFFFF;
  }

  function MouseCursorFrame(seqNo: u16, x: u16, y: u16, w: u16, h: u16, bg: u32, fg: u32,
                            cbitmap: seq<byte>, mbitmap: seq<byte>): (r: seq<byte>)
    ensures IsFrame(r, OpSetMouseCursor, seqNo, x, y, w, h, Color(bg) + Color(fg) + cbitmap + mbitmap)
  {
    PaddedIsFrame(OpSetMouseCursor, seqNo, x, y, w, h, Color(bg) + Color(fg) + cbitmap + mbitmap);
    assert Header(OpSetMouseCursor, seqNo, x, y, w, h) + Color(bg) + Color(fg) + cbitmap + mbitmap
        == Header(OpSetMouseCursor, seqNo, x, y, w, h) + (Color(bg) + Color(fg) + cbitmap + mbitmap);
    Padded(Header(OpSetMouseCursor, seqNo, x, y, w, h) + Color(bg) + Color(fg) + cbitmap + mbitmap, 4)
  }

  function MousePositionFrame(seqNo: u16, x: u16, y: u16): (r: seq<byte>)
    ensures |r| == 12 && IsFrame(r, OpSetMousePosition, seqNo, x, y, 0, 0, [])
  {
    AlignedIsFrame(OpSetMousePosition, seqNo, x, y, 0, 0, []);
    assert Header(OpSetMousePosition, seqNo, x, y, 0, 0) + [] == Header(OpSetMousePosition, seqNo, x, y, 0, 0);
    Header(OpSetMousePosition, seqNo, x, y, 0, 0)
  }
}
