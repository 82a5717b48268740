/** The inbound side of the display channel: the body of `RayConnection._readLoop`,
    which walks one received datagram record by record and publishes the mouse and
    keyboard events it finds. */
module Events {
  import opened Bytes

  /** Received datagrams start with a header the decoder skips. */
  const DatagramHeaderSize: nat := 16

  const OpKeyboard: byte := 0xC1
  const OpMouse: byte := 0xC2
  const OpNack: byte := 0xC4
  const OpC5: byte := 0xC5
  const OpVariable: byte := 0xC6
  const OpC7: byte := 0xC7

  datatype Event =
    | Mouse(buttons: u16, x: u16, y: u16, unknown: u16)
    | Keyboard(shift: u16, keys: seq<byte>, unknown1: u16, unknown2: u16)

  /** The events published for one datagram. `Truncated` is a datagram that ends inside
      a mouse record, a keyboard record or the length of a 0xC6 record: the source
      indexes past the end of the buffer and throws once `events` have been published. */
  datatype Decoded = Complete(events: seq<Event>) | Truncated(events: seq<Event>)

  function Prepend(es: seq<Event>, d: Decoded): (r: Decoded)
    ensures r.Complete? == d.Complete? && r.events == es + d.events
  {
    match d
    case Complete(rest) => Complete(es + rest)
    case Truncated(rest) => Truncated(es + rest)
  }

  predicate KnownOpcode(op: byte) {
    op == OpKeyboard || op == OpMouse || op == OpNack || op == OpC5 || op == OpVariable || op == OpC7
  }

  /** `(ushort)((b[i] << 6) | b[i + 7])`: a bitwise or, so bits 6 and 7 overlap. */
  function MouseUnknown(b0: byte, b7: byte): u16 {
    (((b0 as bv16) << 6) | (b7 as bv16)) as int
  }

  /** The mouse event read from the 8 bytes after a record's opcode and reserved bytes. */
  function MouseEvent(body: seq<byte>): Event
    requires |body| >= 8
  {
    Mouse(Word(body[0], body[1]), Word(body[2], body[3]), Word(body[4], body[5]), MouseUnknown(body[0], body[7]))
  }

  /** The keyboard event read from the 12 bytes after a record's opcode and reserved bytes. */
  function KeyboardEvent(body: seq<byte>): Event
    requires |body| >= 12
  {
    Keyboard(Word(body[2], body[3]), body[4..10], Word(body[0], body[1]), Word(body[10], body[11]))
  }

  /** The number of bytes the cursor advances over a record of a known opcode. */
  function RecordSize(s: seq<byte>): (n: nat)
    requires |s| > 0 && KnownOpcode(s[0])
    requires s[0] == OpVariable ==> |s| >= 7
    ensures n >= 7
  {
    var op := s[0];
    if op == OpMouse then 5 + 8
    else if op == OpKeyboard then 5 + 12
    else if op == OpNack then 5 + 12
    else if op == OpC5 then 5 + 4
    else if op == OpVariable then 5 + 2 + Word(s[5], s[6])
    else 5 + 3 * 8
  }

  /** Whether the datagram ends before every byte the record at the start of `s` reads. */
  predicate CutShort(s: seq<byte>)
    requires |s| > 0
  {
    || (s[0] == OpMouse && |s| < 5 + 8)
    || (s[0] == OpKeyboard && |s| < 5 + 12)
    || (s[0] == OpVariable && |s| < 5 + 2)
  }

  /** The events the record at the start of `s` publishes. */
  function RecordEvents(s: seq<byte>): seq<Event>
    requires |s| > 0 && !CutShort(s)
  {
    if s[0] == OpMouse then [MouseEvent(s[5..13])]
    else if s[0] == OpKeyboard then [KeyboardEvent(s[5..17])]
    else []
  }

  /** The reference decoding of the bytes from the cursor to the end of the datagram. */
  function Records(s: seq<byte>): Decoded
    decreases |s|
  {
    if |s| == 0 || !KnownOpcode(s[0]) then Complete([])
    else if CutShort(s) then Truncated([])
    else
      var n := RecordSize(s);
      if n >= |s| then Complete(RecordEvents(s)) else Prepend(RecordEvents(s), Records(s[n..]))
  }

  /** The records of a datagram start after its 16-byte header. */
  function Decode(b: seq<byte>): Decoded {
    if |b| <= DatagramHeaderSize then Complete([]) else Records(b[DatagramHeaderSize..])
  }

  /** The rest of the datagram from cursor `i` on. */
  function RecordsFrom(b: seq<byte>, i: nat): Decoded {
    if i >= |b| then Complete([]) else Records(b[i..])
  }

  lemma PrependAppend(a: seq<Event>, c: seq<Event>, d: Decoded)
    ensures Prepend(a, Prepend(c, d)) == Prepend(a + c, d)
  {
    assert a + (c + d.events) == (a + c) + d.events;
  }

  /** A record that fits publishes its events, and decoding resumes after it. */
  lemma RecordsFromNext(b: seq<byte>, i: nat)
    requires i < |b| && KnownOpcode(b[i]) && !CutShort(b[i..])
    ensures RecordsFrom(b, i) == Prepend(RecordEvents(b[i..]), RecordsFrom(b, i + RecordSize(b[i..])))
  {
    var s := b[i..];
    var n := RecordSize(s);
    if n >= |s| {
      assert RecordEvents(s) + [] == RecordEvents(s);
    } else {
      assert s[n..] == b[i + n..];
    }
  }

  /** A record cut short publishes nothing more and fails. */
  lemma RecordsFromCut(b: seq<byte>, i: nat, events: seq<Event>)
    requires i < |b| && CutShort(b[i..])
    ensures Prepend(events, RecordsFrom(b, i)) == Truncated(events)
  {
    assert events + [] == events;
  }

  /** An unknown opcode ends the datagram. */
  lemma RecordsFromUnknown(b: seq<byte>, i: nat, events: seq<Event>)
    requires i < |b| && !KnownOpcode(b[i])
    ensures Prepend(events, RecordsFrom(b, i)) == Complete(events)
  {
    assert events + [] == events;
  }

  /** The mouse record at cursor `j`, read field by field from the datagram. */
  lemma MouseAt(b: seq<byte>, j: nat)
    requires j + 13 <= |b| && b[j] == OpMouse
    ensures RecordsFrom(b, j)
         == Prepend([Mouse(Word(b[j + 5], b[j + 6]), Word(b[j + 7], b[j + 8]), Word(b[j + 9], b[j + 10]),
                           MouseUnknown(b[j + 5], b[j + 12]))], RecordsFrom(b, j + 13))
  {
    assert b[j..][5..13] == b[j + 5 .. j + 13];
    RecordsFromNext(b, j);
  }

  /** The keyboard record at cursor `j`, read field by field from the datagram. */
  lemma KeyboardAt(b: seq<byte>, j: nat)
    requires j + 17 <= |b| && b[j] == OpKeyboard
    ensures RecordsFrom(b, j)
         == Prepend([Keyboard(Word(b[j + 7], b[j + 8]), b[j + 9 .. j + 15], Word(b[j + 5], b[j + 6]),
                              Word(b[j + 15], b[j + 16]))], RecordsFrom(b, j + 17))
  {
    var body := b[j..][5..17];
    assert body == b[j + 5 .. j + 17];
    assert forall k :: 0 <= k < 6 ==> body[4..10][k] == body[4 + k] == b[j + 9 + k] == b[j + 9 .. j + 15][k];
    assert body[4..10] == b[j + 9 .. j + 15];
    assert body[0] == b[j + 5] && body[1] == b[j + 6] && body[2] == b[j + 7] && body[3] == b[j + 8];
    assert body[10] == b[j + 15] && body[11] == b[j + 16];
    RecordsFromNext(b, j);
  }

  /** The records that publish nothing, and how far each moves the cursor. */
  lemma SilentAt(b: seq<byte>, j: nat)
    requires j < |b| && KnownOpcode(b[j]) && b[j] != OpMouse && b[j] != OpKeyboard
    requires b[j] == OpVariable ==> j + 7 <= |b|
    ensures var size := if b[j] == OpNack then 17
                        else if b[j] == OpC5 then 9
                        else if b[j] == OpVariable then 7 + Word(b[j + 5], b[j + 6])
                        else 29;
            RecordsFrom(b, j) == RecordsFrom(b, j + size)
  {
    var s := b[j..];
    assert s[0] == b[j] && RecordEvents(s) == [];
    if b[j] == OpVariable {
      assert s[5] == b[j + 5] && s[6] == b[j + 6];
    }
    RecordsFromNext(b, j);
    var d := RecordsFrom(b, j + RecordSize(s));
    assert [] + d.events == d.events;
  }

  /** One turn of the `_readLoop` cursor loop: the `switch` on the opcode at `start`,
      which publishes the record's event and advances the cursor past it, or ends the
      datagram (`done`) with the decoding `r` of everything from `start` on. */
  method DecodeRecord(b: seq<byte>, start: nat, events: seq<Event>)
    returns (events1: seq<Event>, next: nat, done: bool, r: Decoded)
    requires start < |b|
    ensures done ==> r == Prepend(events, RecordsFrom(b, start))
    ensures !done ==> start < next && Prepend(events1, RecordsFrom(b, next)) == Prepend(events, RecordsFrom(b, start))
  {
    events1, r := events, Complete([]);
    var opcode := b[start];
    var i := start + 1 + 4;
    if opcode == OpMouse {
      if i + 7 >= |b| {
        RecordsFromCut(b, start, events);
        return events, start, true, Truncated(events);
      }
      MouseAt(b, start);
      var ev := Mouse(Word(b[i], b[i + 1]), Word(b[i + 2], b[i + 3]), Word(b[i + 4], b[i + 5]),
                      MouseUnknown(b[i], b[i + 7]));
      events1 := events + [ev];
      i := i + 8;
      PrependAppend(events, [ev], RecordsFrom(b, i));
    } else if opcode == OpKeyboard {
      if i + 11 >= |b| {
        RecordsFromCut(b, start, events);
        return events, start, true, Truncated(events);
      }
      KeyboardAt(b, start);
      var ev := Keyboard(Word(b[i + 2], b[i + 3]), b[i + 4 .. i + 10], Word(b[i], b[i + 1]),
                         Word(b[i + 10], b[i + 11]));
      events1 := events + [ev];
      i := i + 12;
      PrependAppend(events, [ev], RecordsFrom(b, i));
    } else if opcode == OpNack {
      SilentAt(b, start);
      i := i + 12;
    } else if opcode == OpC5 {
      SilentAt(b, start);
      i := i + 4;
    } else if opcode == OpVariable {
      if i + 1 >= |b| {
        RecordsFromCut(b, start, events);
        return events, start, true, Truncated(events);
      }
      SilentAt(b, start);
      var len := Word(b[i], b[i + 1]);
      i := i + len + 2;
    } else if opcode == OpC7 {
      SilentAt(b, start);
      i := i + 3 * 8;
    } else {
      RecordsFromUnknown(b, start, events);
      return events, start, true, Complete(events);
    }
    return events1, i, false, r;
  }

  /** One pass of `_readLoop` over a received datagram, as the source writes it. */
  method DecodeDatagram(b: seq<byte>) returns (r: Decoded)
    ensures r == Decode(b)
  {
    var i := DatagramHeaderSize;
    var events: seq<Event> := [];
    while i < |b|
      invariant DatagramHeaderSize <= i
      invariant Prepend(events, RecordsFrom(b, i)) == Decode(b)
      decreases |b| - i
    {
      var done: bool;
      events, i, done, r := DecodeRecord(b, i, events);
      if done {
        return r;
      }
    }
    return Complete(events);
  }

  // ---------------------------------------------------------------------------
  // The records a terminal sends, as an encoder, and what decoding them yields.

  /** One input record: an opcode, 4 reserved bytes, and the opcode's body. */
  datatype Record = Record(opcode: byte, reserved: seq<byte>, body: seq<byte>)

  /** The body length each known opcode takes; a 0xC6 body is its own BE16 length and
      that many bytes. */
  predicate WellFormed(r: Record) {
    && |r.reserved| == 4
    && KnownOpcode(r.opcode)
    && (r.opcode == OpMouse ==> |r.body| == 8)
    && (r.opcode == OpKeyboard ==> |r.body| == 12)
    && (r.opcode == OpNack ==> |r.body| == 12)
    && (r.opcode == OpC5 ==> |r.body| == 4)
    && (r.opcode == OpC7 ==> |r.body| == 24)
    && (r.opcode == OpVariable ==> |r.body| >= 2 && |r.body| == 2 + Word(r.body[0], r.body[1]))
  }

  function RecordBytes(r: Record): (b: seq<byte>)
    ensures |b| == 1 + |r.reserved| + |r.body|
  {
    [r.opcode] + r.reserved + r.body
  }

  function EncodeRecords(rs: seq<Record>): (b: seq<byte>)
    ensures rs != [] ==> |b| > 0
  {
    if rs == [] then [] else RecordBytes(rs[0]) + EncodeRecords(rs[1..])
  }

  /** The events a record should produce: one for mouse and keyboard, none otherwise. */
  function EventsOf(r: Record): seq<Event>
    requires WellFormed(r)
  {
    if r.opcode == OpMouse then [MouseEvent(r.body)]
    else if r.opcode == OpKeyboard then [KeyboardEvent(r.body)]
    else []
  }

  function AllEvents(rs: seq<Record>): seq<Event>
    requires forall k :: 0 <= k < |rs| ==> WellFormed(rs[k])
  {
    if rs == [] then [] else EventsOf(rs[0]) + AllEvents(rs[1..])
  }

  /** The decoder consumes exactly one well-formed record and yields its events. */
  lemma RecordStep(r: Record, rest: seq<byte>)
    requires WellFormed(r)
    ensures Records(RecordBytes(r) + rest) == Prepend(EventsOf(r), Records(rest))
  {
    var s := RecordBytes(r) + rest;
    assert s[0] == r.opcode;
    assert s[5..5 + |r.body|] == r.body;
    if r.opcode == OpVariable {
      assert s[5] == r.body[0] && s[6] == r.body[1];
    }
    assert !CutShort(s);
    assert RecordSize(s) == |RecordBytes(r)|;
    assert RecordEvents(s) == EventsOf(r);
    if |rest| == 0 {
      assert Records(rest) == Complete([]);
      assert EventsOf(r) + [] == EventsOf(r);
    } else {
      assert s[RecordSize(s)..] == rest;
    }
  }

  /** Decoding a run of well-formed records yields their events in record order,
      followed by whatever the bytes after them decode to. */
  lemma {:induction false} RecordsAppend(rs: seq<Record>, tail: seq<byte>)
    requires forall k :: 0 <= k < |rs| ==> WellFormed(rs[k])
    ensures Records(EncodeRecords(rs) + tail) == Prepend(AllEvents(rs), Records(tail))
  {
    if rs == [] {
      assert EncodeRecords(rs) + tail == tail;
      assert [] + Records(tail).events == Records(tail).events;
    } else {
      var rest := EncodeRecords(rs[1..]) + tail;
      assert EncodeRecords(rs) + tail == RecordBytes(rs[0]) + rest;
      RecordStep(rs[0], rest);
      RecordsAppend(rs[1..], tail);
      PrependAppend(EventsOf(rs[0]), AllEvents(rs[1..]), Records(tail));
    }
  }

  /** The records start right after the datagram header. */
  lemma DecodeAfterHeader(header: seq<byte>, s: seq<byte>)
    requires |header| == DatagramHeaderSize
    ensures Decode(header + s) == Records(s)
  {
    if |s| > 0 {
      assert (header + s)[DatagramHeaderSize..] == s;
    }
  }

  /** A datagram of well-formed records that ends, or stops at an unknown opcode,
      publishes exactly the mouse and keyboard events of its records, in order. */
  lemma DecodeComplete(header: seq<byte>, rs: seq<Record>, tail: seq<byte>)
    requires |header| == DatagramHeaderSize
    requires forall k :: 0 <= k < |rs| ==> WellFormed(rs[k])
    requires tail == [] || !KnownOpcode(tail[0])
    ensures Decode(header + (EncodeRecords(rs) + tail)) == Complete(AllEvents(rs))
  {
    DecodeAfterHeader(header, EncodeRecords(rs) + tail);
    RecordsAppend(rs, tail);
    EndComplete(tail);
    CompletePrepend(AllEvents(rs));
  }

  lemma EndComplete(tail: seq<byte>)
    requires tail == [] || !KnownOpcode(tail[0])
    ensures Records(tail) == Complete([])
  {
  }

  lemma CompletePrepend(es: seq<Event>)
    ensures Prepend(es, Complete([])) == Complete(es)
  {
    assert es + [] == es;
  }

  lemma CutShortTruncates(cut: seq<byte>)
    requires |cut| > 0 && CutShort(cut)
    ensures Records(cut) == Truncated([])
  {
  }

  lemma TruncatedPrepend(es: seq<Event>)
    ensures Prepend(es, Truncated([])) == Truncated(es)
  {
    assert es + [] == es;
  }

  /** A datagram that ends inside a mouse record, a keyboard record or a 0xC6 length
      has published the events of the records before it and then fails. */
  lemma DecodeCutShort(header: seq<byte>, rs: seq<Record>, cut: seq<byte>)
    requires |header| == DatagramHeaderSize
    requires forall k :: 0 <= k < |rs| ==> WellFormed(rs[k])
    requires |cut| > 0 && CutShort(cut)
    ensures Decode(header + (EncodeRecords(rs) + cut)) == Truncated(AllEvents(rs))
  {
    DecodeAfterHeader(header, EncodeRecords(rs) + cut);
    RecordsAppend(rs, cut);
    CutShortTruncates(cut);
    TruncatedPrepend(AllEvents(rs));
  }

  /** Mouse fields are the big-endian words at bytes 0-5 of the record body. */
  lemma MouseFields(buttons: u16, x: u16, y: u16, e0: byte, e1: byte)
    ensures MouseEvent(BE16(buttons) + BE16(x) + BE16(y) + [e0, e1])
         == Mouse(buttons, x, y, MouseUnknown(buttons / 0x100, e1))
  {
    var body := BE16(buttons) + BE16(x) + BE16(y) + [e0, e1];
    WordOfBE16(buttons);
    WordOfBE16(x);
    WordOfBE16(y);
    assert body[0] == BE16(buttons)[0] && body[1] == BE16(buttons)[1];
    assert body[2] == BE16(x)[0] && body[3] == BE16(x)[1];
    assert body[4] == BE16(y)[0] && body[5] == BE16(y)[1];
  }

  /** Keyboard fields: Unknown1 at bytes 0-1, Shift at 2-3, the six keys at 4-9 and
      Unknown2 at 10-11 of the record body. */
  lemma KeyboardFields(unknown1: u16, shift: u16, keys: seq<byte>, unknown2: u16)
    requires |keys| == 6
    ensures KeyboardEvent(BE16(unknown1) + BE16(shift) + keys + BE16(unknown2))
         == Keyboard(shift, keys, unknown1, unknown2)
  {
    var body := BE16(unknown1) + BE16(shift) + keys + BE16(unknown2);
    WordOfBE16(unknown1);
    WordOfBE16(shift);
    WordOfBE16(unknown2);
    assert body[0] == BE16(unknown1)[0] && body[1] == BE16(unknown1)[1];
    assert body[2] == BE16(shift)[0] && body[3] == BE16(shift)[1];
    assert body[4..10] == keys;
    assert body[10] == BE16(unknown2)[0] && body[11] == BE16(unknown2)[1];
  }

  /** A datagram whose records are one mouse record followed by the unknown opcode 0xFF
      yields exactly that one mouse event and stops cleanly. */
  lemma OneMouseThenUnknown(header: seq<byte>, mouse: seq<byte>)
    requires |header| == DatagramHeaderSize && |mouse| == 8
    ensures Decode(header + [OpMouse, 0, 0, 0, 0] + mouse + [0xFF]) == Complete([MouseEvent(mouse)])
  {
    var r := Record(OpMouse, [0, 0, 0, 0], mouse);
    assert EncodeRecords([r]) == [OpMouse, 0, 0, 0, 0] + mouse;
    assert header + [OpMouse, 0, 0, 0, 0] + mouse + [0xFF] == header + (EncodeRecords([r]) + [0xFF]);
    DecodeComplete(header, [r], [0xFF]);
    assert AllEvents([r]) == [MouseEvent(mouse)];
  }
}
