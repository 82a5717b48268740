/** How `RayConnection` cuts a frame into UDP packets (`_beginPacket`, `_send`):
    each packet is a 16-byte header followed by at most 1442 bytes of the frame,
    so that no packet exceeds 1458 bytes. */
module Fragmentation {
  import opened Bytes

  const MaxPacketSize: nat := 1458
  const PacketHeaderSize: nat := 16
  /** `MAX_PACKET_SIZE - 16`, the largest piece of a frame one packet carries. */
  const MaxFragment: nat := MaxPacketSize - PacketHeaderSize

  function Min(a: int, b: int): int {
    if a <= b then a else b
  }

  /** What `_beginPacket(continued)` writes after emptying the cache: eight big-endian words. */
  function PacketHeader(seqNo: u16, continued: bool): (r: seq<byte>)
    ensures |r| == PacketHeaderSize
  {
    BE16(seqNo) + BE16(if continued then 1 else 0) + BE16(1) + BE16(0)
      + BE16(0xF) + BE16(0xA) + BE16(0x10) + BE16(0)
  }

  /** The header starts with the packet sequence number and the continuation flag;
      the remaining six words are the constants 1, 0, 0xF, 0xA, 0x10, 0. */
  lemma PacketHeaderLayout(seqNo: u16, continued: bool)
    ensures var r := PacketHeader(seqNo, continued);
      && Word(r[0], r[1]) == seqNo
      && Word(r[2], r[3]) == (if continued then 1 else 0)
      && r[4..] == [0, 1, 0, 0, 0, 0x0F, 0, 0x0A, 0, 0x10, 0, 0]
  {
    WordOfBE16(seqNo);
    WordOfBE16(if continued then 1 else 0);
  }

  /** The number of packets `_send` opens for an n-byte frame: one for each started
      block of 1442 bytes, and one even for an empty frame. */
  function FragmentCount(n: nat): (k: nat)
    ensures k >= 1
  {
    if n == 0 then 1 else (n + MaxFragment - 1) / MaxFragment
  }

  /** For a non-empty frame the count is the ceiling of n / 1442. */
  lemma FragmentCountIsCeiling(n: nat)
    requires n > 0
    ensures (FragmentCount(n) - 1) * MaxFragment < n <= FragmentCount(n) * MaxFragment
  {
    var k := FragmentCount(n);
    var m := (n + MaxFragment - 1) % MaxFragment;
    assert k * MaxFragment + m == n + MaxFragment - 1;
  }

  /** The k-th fragment (k >= 1) is the last one exactly when the frame ends within it. */
  lemma FragmentCountOf(n: nat, k: nat)
    requires k * MaxFragment < n <= k * MaxFragment + MaxFragment
    ensures FragmentCount(n) == k + 1
  {
    FragmentCountIsCeiling(n);
  }

  /** The bytes of the frame the k-th packet carries. */
  function Fragment(frame: seq<byte>, k: nat): (r: seq<byte>)
    ensures |r| <= MaxFragment
  {
    frame[Min(|frame|, k * MaxFragment) .. Min(|frame|, k * MaxFragment + MaxFragment)]
  }

  function Fragments(frame: seq<byte>): (r: seq<seq<byte>>)
    ensures |r| == FragmentCount(|frame|)
  {
    seq(FragmentCount(|frame|), k requires 0 <= k => Fragment(frame, k))
  }

  /** Every packet `_send` assembles for `frame`, in order, when the packet counter
      starts at `seq0`: the first has the continuation flag clear, the others set. */
  function Packets(seq0: u16, frame: seq<byte>): (r: seq<seq<byte>>)
    ensures |r| == FragmentCount(|frame|)
  {
    seq(FragmentCount(|frame|), k requires 0 <= k => Packet(seq0, frame, k))
  }

  /** The k-th packet: the header under sequence number seq0 + 1 + k, then the k-th fragment. */
  function Packet(seq0: u16, frame: seq<byte>, k: nat): seq<byte> {
    PacketHeader(Wrap16(seq0 + 1 + k), k > 0) + Fragment(frame, k)
  }

  /** The fragments laid end to end are the frame. */
  lemma {:induction false} FragmentsReassemble(frame: seq<byte>)
    ensures Flatten(Fragments(frame)) == frame
  {
    var n := |frame|;
    var fs := Fragments(frame);
    if n == 0 {
      assert fs == [[]];
    } else {
      FragmentCountIsCeiling(n);
      FlattenPrefix(frame, |fs|);
      assert fs[..|fs|] == fs;
    }
  }

  lemma {:induction false} FlattenPrefix(frame: seq<byte>, j: nat)
    requires j <= FragmentCount(|frame|)
    ensures Flatten(Fragments(frame)[..j]) == frame[..Min(|frame|, j * MaxFragment)]
  {
    var fs := Fragments(frame);
    if j == 0 {
      assert fs[..0] == [];
    } else {
      FlattenPrefix(frame, j - 1);
      assert fs[..j] == fs[..j - 1] + [fs[j - 1]];
      FlattenAppend(fs[..j - 1], fs[j - 1]);
      var lo := Min(|frame|, (j - 1) * MaxFragment);
      var hi := Min(|frame|, (j - 1) * MaxFragment + MaxFragment);
      assert fs[j - 1] == frame[lo..hi];
      MulSucc(j - 1, MaxFragment);
      SliceJoin(frame, lo, hi);
    }
  }

  lemma SliceJoin(s: seq<byte>, lo: nat, hi: nat)
    requires lo <= hi <= |s|
    ensures s[..lo] + s[lo..hi] == s[..hi]
  {
  }

  /** Each packet is the header plus a fragment: it holds at least the 16-byte header and
      never more than 1458 bytes; all but the last packet are full. */
  lemma PacketsBounded(seq0: u16, frame: seq<byte>, k: nat)
    requires k < FragmentCount(|frame|)
    ensures var p := Packets(seq0, frame)[k];
      && PacketHeaderSize <= |p| <= MaxPacketSize
      && p[..PacketHeaderSize] == PacketHeader(Wrap16(seq0 + 1 + k), k > 0)
      && p[PacketHeaderSize..] == Fragments(frame)[k]
      && (k + 1 < FragmentCount(|frame|) ==> |p| == MaxPacketSize)
      && (|frame| > 0 ==> |p| > PacketHeaderSize)
  {
    var p := Packets(seq0, frame)[k];
    assert p == Packet(seq0, frame, k);
    assert Fragments(frame)[k] == Fragment(frame, k);
    if |frame| > 0 {
      var n := FragmentCount(|frame|);
      FragmentCountIsCeiling(|frame|);
      MulMono(k, n - 1, MaxFragment);
      if k + 1 < n {
        MulMono(k + 1, n - 1, MaxFragment);
        MulSucc(k, MaxFragment);
      }
    }
  }

  lemma MulSucc(k: nat, m: nat)
    ensures (k + 1) * m == k * m + m
  {
  }

  lemma MulMono(a: nat, b: nat, m: nat)
    requires a <= b
    ensures a * m <= b * m
  {
  }

  /** A packet starts with its sequence number. */
  lemma PacketNumber(seq0: u16, frame: seq<byte>, k: nat)
    ensures var p := Packet(seq0, frame, k);
      |p| >= 2 && Word(p[0], p[1]) == Wrap16(seq0 + 1 + k)
  {
    var h := PacketHeader(Wrap16(seq0 + 1 + k), k > 0);
    PacketHeaderLayout(Wrap16(seq0 + 1 + k), k > 0);
    var p := Packet(seq0, frame, k);
    assert p[0] == h[0] && p[1] == h[1];
  }

  /** Consecutive packets carry consecutive sequence numbers, modulo 2^16. */
  lemma PacketsNumbered(seq0: u16, frame: seq<byte>, k: nat)
    requires k + 1 < FragmentCount(|frame|)
    ensures var ps := Packets(seq0, frame);
      && |ps[k]| >= 2 && |ps[k + 1]| >= 2
      && Word(ps[k + 1][0], ps[k + 1][1]) == Wrap16(Word(ps[k][0], ps[k][1]) + 1)
  {
    var ps := Packets(seq0, frame);
    assert ps[k] == Packet(seq0, frame, k) && ps[k + 1] == Packet(seq0, frame, k + 1);
    PacketNumber(seq0, frame, k);
    PacketNumber(seq0, frame, k + 1);
    Wrap16Succ(seq0 + 1 + k);
  }

  /** A full fragment that is not the last one: the k-th packet is its header and the
      next 1442 bytes from k * 1442. */
  lemma PacketFull(seq0: u16, frame: seq<byte>, k: nat)
    requires k * MaxFragment + MaxFragment < |frame|
    ensures k + 1 < FragmentCount(|frame|)
    ensures Packet(seq0, frame, k)
         == PacketHeader(Wrap16(seq0 + 1 + k), k > 0) + frame[k * MaxFragment .. k * MaxFragment + MaxFragment]
    ensures Packets(seq0, frame)[..k + 1] == Packets(seq0, frame)[..k] + [Packet(seq0, frame, k)]
  {
    FragmentCountIsCeiling(|frame|);
    assert (k + 1) * MaxFragment < |frame|;
  }

  /** The fragment that reaches the end of the frame is the one of the last packet. */
  lemma PacketLast(seq0: u16, frame: seq<byte>, k: nat)
    requires k * MaxFragment <= |frame| <= k * MaxFragment + MaxFragment
    requires k == FragmentCount(|frame|) - 1
    ensures Packet(seq0, frame, k) == PacketHeader(Wrap16(seq0 + 1 + k), k > 0) + frame[k * MaxFragment ..]
    ensures Packets(seq0, frame)[..k] + [Packet(seq0, frame, k)] == Packets(seq0, frame)
  {
  }

  /** The state of the `_send` loop: `toGo` bytes of the frame are left from `offset`,
      `k` packets have been assembled before the one in the cache, and the cache holds
      the header of that packet, followed by its fragment once the frame is used up. */
  ghost predicate Sending(seq0: u16, frame: seq<byte>, toGo: int, offset: int, k: nat, packetSeq: u16,
                          cache: seq<byte>, assembled: seq<seq<byte>>)
  {
    && 0 <= toGo && offset + toGo == |frame|
    && k * MaxFragment <= offset <= k * MaxFragment + MaxFragment
    && k < FragmentCount(|frame|)
    && packetSeq == Wrap16(seq0 + 1 + k)
    && assembled == Packets(seq0, frame)[..k]
    && (toGo > 0 ==> offset == k * MaxFragment && cache == PacketHeader(packetSeq, k > 0))
    && (toGo == 0 ==>
          k == FragmentCount(|frame|) - 1 && cache == PacketHeader(packetSeq, k > 0) + frame[k * MaxFragment .. offset])
  }

  /** After `_beginPacket(false)`. */
  lemma SendingStart(seq0: u16, frame: seq<byte>)
    ensures Sending(seq0, frame, |frame|, 0, 0, Wrap16(seq0 + 1), PacketHeader(Wrap16(seq0 + 1), false), [])
  {
    if |frame| == 0 {
      assert frame[0..0] == [];
    }
  }

  /** A full fragment is copied and the next packet is begun. */
  lemma SendingNext(seq0: u16, frame: seq<byte>, toGo: int, offset: int, k: nat, packetSeq: u16,
                    cache: seq<byte>, assembled: seq<seq<byte>>)
    requires Sending(seq0, frame, toGo, offset, k, packetSeq, cache, assembled) && toGo > MaxFragment
    ensures var full := cache + frame[offset .. offset + MaxFragment];
            var next := Wrap16(seq0 + 1 + (k + 1));
            Sending(seq0, frame, toGo - MaxFragment, offset + MaxFragment, k + 1, next,
                    PacketHeader(next, true), assembled + [full])
  {
    PacketFull(seq0, frame, k);
    MulSucc(k, MaxFragment);
  }

  /** The rest of the frame fits: it is copied and the loop ends. */
  lemma SendingLast(seq0: u16, frame: seq<byte>, toGo: int, offset: int, k: nat, packetSeq: u16,
                    cache: seq<byte>, assembled: seq<seq<byte>>)
    requires Sending(seq0, frame, toGo, offset, k, packetSeq, cache, assembled) && 0 < toGo <= MaxFragment
    ensures Sending(seq0, frame, 0, offset + toGo, k, packetSeq, cache + frame[offset .. offset + toGo], assembled)
  {
    FragmentCountOf(|frame|, k);
  }

  /** When the loop ends the cache holds the last packet. */
  lemma SendingDone(seq0: u16, frame: seq<byte>, offset: int, k: nat, packetSeq: u16,
                    cache: seq<byte>, assembled: seq<seq<byte>>)
    requires Sending(seq0, frame, 0, offset, k, packetSeq, cache, assembled)
    ensures k + 1 == FragmentCount(|frame|) && packetSeq == Wrap16(seq0 + FragmentCount(|frame|))
    ensures cache == FinalDatagram(seq0, frame)
    ensures assembled + [cache] == Packets(seq0, frame)
  {
    PacketLast(seq0, frame, k);
    assert frame[k * MaxFragment .. offset] == frame[k * MaxFragment ..];
  }

  /** The datagram `_send` hands to the socket: only the last packet it assembled. */
  function FinalDatagram(seq0: u16, frame: seq<byte>): (r: seq<byte>)
    ensures r == Packets(seq0, frame)[|Packets(seq0, frame)| - 1]
  {
    Packet(seq0, frame, FragmentCount(|frame|) - 1)
  }

  /** A frame of at most 1442 bytes travels whole in one packet with the flag clear.
      A longer frame does not: the datagram that is sent carries only its last
      fragment, and the bytes before it never reach the socket. */
  lemma FinalDatagramContents(seq0: u16, frame: seq<byte>)
    ensures |frame| <= MaxFragment ==>
      FinalDatagram(seq0, frame) == PacketHeader(Wrap16(seq0 + 1), false) + frame
    ensures |frame| > MaxFragment ==>
      var skipped := (FragmentCount(|frame|) - 1) * MaxFragment;
      && 0 < skipped < |frame|
      && FinalDatagram(seq0, frame) == PacketHeader(Wrap16(seq0 + FragmentCount(|frame|)), true) + frame[skipped..]
  {
    if |frame| > MaxFragment {
      FinalDatagramLong(seq0, frame);
    } else {
      FinalDatagramShort(seq0, frame);
    }
  }

  lemma FinalDatagramShort(seq0: u16, frame: seq<byte>)
    requires |frame| <= MaxFragment
    ensures FinalDatagram(seq0, frame) == PacketHeader(Wrap16(seq0 + 1), false) + frame
  {
    assert FragmentCount(|frame|) == 1;
    PacketLast(seq0, frame, 0);
    assert frame[0..] == frame;
  }

  lemma FinalDatagramLong(seq0: u16, frame: seq<byte>)
    requires |frame| > MaxFragment
    ensures var skipped := (FragmentCount(|frame|) - 1) * MaxFragment;
      && 0 < skipped < |frame|
      && FinalDatagram(seq0, frame) == PacketHeader(Wrap16(seq0 + FragmentCount(|frame|)), true) + frame[skipped..]
  {
    var n := |frame|;
    var k := FragmentCount(n) - 1;
    FragmentCountIsCeiling(n);
    MulSucc(k, MaxFragment);
    assert k >= 1;
    MulMono(1, k, MaxFragment);
    PacketLast(seq0, frame, k);
  }
}
