/** Fixed-width integers of the C# code and the big-endian encodings that both
    wire protocols use. */
module Bytes {

  type byte = x: int | 0 <= x < 0x100
  type u16 = x: int | 0 <= x < 0x1_0000
  type u32 = x: int | 0 <= x < 0x1_0000_0000
  type i32 = x: int | -0x8000_0000 <= x < 0x8000_0000

  /** `++` on a C# `ushort`: the value wraps modulo 2^16. */
  function Wrap16(x: int): (r: u16)
    ensures 0 <= x < 0x1_0000 ==> r == x
    ensures x == 0x1_0000 ==> r == 0
  {
    x % 0x1_0000
  }

  /** Incrementing a wrapped counter is wrapping the incremented value. */
  lemma Wrap16Succ(x: int)
    ensures Wrap16(Wrap16(x) + 1) == Wrap16(x + 1)
  {
  }

  /** Unchecked arithmetic on a C# `int`: the value wraps into the signed 32-bit range. */
  function WrapI32(x: int): (r: i32)
    ensures -0x8000_0000 <= x < 0x8000_0000 ==> r == x
    ensures (x - r) % 0x1_0000_0000 == 0
  {
    var m := x % 0x1_0000_0000;
    if m < 0x8000_0000 then m else m - 0x1_0000_0000
  }

  /** The value of two bytes read big-endian, `(hi << 8) | lo`. */
  function Word(hi: byte, lo: byte): u16 {
    hi * 0x100 + lo
  }

  /** `(byte)(v >> 8), (byte)(v & 0xFF)`: a `ushort` written big-endian. */
  function BE16(v: u16): (r: seq<byte>)
    ensures |r| == 2
  {
    [v / 0x100, v % 0x100]
  }

  /** Reading back what `BE16` wrote gives the value. */
  lemma WordOfBE16(v: u16)
    ensures Word(BE16(v)[0], BE16(v)[1]) == v
  {
  }

  /** `BE16` undoes `Word`: two bytes are the big-endian form of the value they encode. */
  lemma BE16OfWord(hi: byte, lo: byte)
    ensures BE16(Word(hi, lo)) == [hi, lo]
  {
  }

  /** `(byte)(v >> 24), (byte)(v >> 16), (byte)(v >> 8), (byte)(v & 0xFF)`: a `uint` written big-endian. */
  function BE32(v: u32): (r: seq<byte>)
    ensures |r| == 4
  {
    [v / 0x100_0000, (v / 0x1_0000) % 0x100, (v / 0x100) % 0x100, v % 0x100]
  }

  /** Reading back what `BE32` wrote, as two big-endian words, gives the value. */
  lemma WordsOfBE32(v: u32)
    ensures var r := BE32(v); Word(r[0], r[1]) * 0x1_0000 + Word(r[2], r[3]) == v
  {
    var hi := v / 0x1_0000;
    var lo := v % 0x1_0000;
    assert v == hi * 0x1_0000 + lo;
    assert v / 0x100_0000 == hi / 0x100;
    assert hi % 0x100 == (v / 0x1_0000) % 0x100;
    assert v / 0x100 == hi * 0x100 + lo / 0x100;
    assert (v / 0x100) % 0x100 == lo / 0x100;
    assert v % 0x100 == lo % 0x100;
  }

  function Zeros(n: nat): (r: seq<byte>)
    ensures |r| == n && forall i :: 0 <= i < n ==> r[i] == 0
  {
    seq(n, _ => 0)
  }

  /** A sequence of byte sequences laid end to end. */
  function Flatten(parts: seq<seq<byte>>): (r: seq<byte>)
  {
    if parts == [] then [] else parts[0] + Flatten(parts[1..])
  }

  lemma {:induction false} FlattenAppend(parts: seq<seq<byte>>, last: seq<byte>)
    ensures Flatten(parts + [last]) == Flatten(parts) + last
  {
    if parts == [] {
      assert parts + [last] == [last];
    } else {
      assert (parts + [last])[1..] == parts[1..] + [last];
      FlattenAppend(parts[1..], last);
    }
  }
}
