/** The smart-card APDU exchange of `ConnectionServerClient.SendAPDU`: the
    `controlSmartCard` request it sends and the decoding of the `infoSmartCard` reply. */
module Apdu {
  import opened Basics
  import opened Bytes
  import opened Text
  import opened Dict
  import opened Codec

  const TagPrefix := "gungay:"

  /** The tag of the request sent when `_tagCounter` has just been incremented to `n`. */
  function Tag(n: int): string {
    TagPrefix + IntString(n)
  }

  /** `++_tagCounter` on a C# `int`, which wraps around. */
  function NextCounter(counter: i32): i32 {
    WrapI32(counter + 1)
  }

  /** The `head` value: the `X2` digits of cla, ins, p1 and p2. */
  function Head(cla: byte, ins: byte, p1: byte, p2: byte): string {
    HexString([cla, ins, p1, p2])
  }

  /** The request message. `p1p2` is an array the source indexes at 0 and 1. */
  function Request(tag: string, cla: byte, ins: byte, p1p2: seq<byte>, data: seq<byte>, expectedLength: i32)
    : (r: Result<Message>)
    ensures r.Ok? <==> |p1p2| >= 2
    ensures r.Throws? ==> r.ex == IndexOutOfRange
  {
    if |p1p2| < 2 then Throws(IndexOutOfRange)
    else Ok(Message("controlSmartCard", [
      ("tag", tag),
      ("command", "apduInf"),
      ("head", Head(cla, ins, p1p2[0], p1p2[1])),
      ("tdata", HexString(data)),
      ("rlen", IntString(expectedLength))]))
  }

  datatype ApduResponse = ApduResponse(data: seq<byte>, sw1: byte, sw2: byte, receivedLength: i32)

  /** One status byte: `status.Substring(at, 2)` read as hexadecimal. */
  function StatusByte(status: string, at: nat): (r: Result<byte>)
    ensures |status| < at + 2 ==> r == Throws(ArgumentOutOfRange)
  {
    if |status| < at + 2 then Throws(ArgumentOutOfRange) else ParseHexPair(status[at], status[at + 1])
  }

  /** The reply as `SendAPDU` decodes it once its future has been completed: `None` unless
      `apdu_result` is `1`, otherwise the hex-decoded `rec_data`, the two status bytes
      and the decimal `rec_len`, each failing as the .NET call on it would. */
  function DecodeReply(reply: Message): Result<Option<ApduResponse>> {
    match Get(reply.data, "apdu_result")
    case Throws(e) => Throws(e)
    case Ok(result) =>
      if result != "1" then Ok(None)
      else
        match Get(reply.data, "rec_data")
        case Throws(e) => Throws(e)
        case Ok(recData) =>
          match HexDecode(recData)
          case Throws(e) => Throws(e)
          case Ok(bytes) =>
            match Get(reply.data, "status")
            case Throws(e) => Throws(e)
            case Ok(status) =>
              match StatusByte(status, 0)
              case Throws(e) => Throws(e)
              case Ok(sw1) =>
                match StatusByte(status, 2)
                case Throws(e) => Throws(e)
                case Ok(sw2) =>
                  match Get(reply.data, "rec_len")
                  case Throws(e) => Throws(e)
                  case Ok(recLen) =>
                    match ParseInt32(recLen)
                    case Throws(e) => Throws(e)
                    case Ok(n) => Ok(Some(ApduResponse(bytes, sw1, sw2, n)))
  }

  /** `bs` put in front of the bytes of a successful decoding. */
  function PrependBytes(bs: seq<byte>, d: Result<seq<byte>>): (r: Result<seq<byte>>)
    ensures r.Ok? == d.Ok?
    ensures r.Ok? ==> r.value == bs + d.value
    ensures r.Throws? ==> r.ex == d.ex
  {
    match d
    case Ok(rest) => Ok(bs + rest)
    case Throws(e) => Throws(e)
  }

  /** The `for` loop that hex-decodes `rec_data` into a `List<byte>`. */
  method HexDecodeLoop(s: string) returns (r: Result<seq<byte>>)
    ensures r == HexDecode(s)
  {
    var bytes: seq<byte> := [];
    var i := 0;
    PrependNothing(s);
    while i < |s|
      invariant 0 <= i <= |s| && i % 2 == 0
      invariant HexDecode(s) == PrependBytes(bytes, HexDecode(s[i..]))
      decreases |s| - i
    {
      if i + 2 > |s| {
        return Throws(ArgumentOutOfRange);
      }
      var b := ParseHexPair(s[i], s[i + 1]);
      if b.Throws? {
        return Throws(b.ex);
      }
      HexDecodeAt(s, i, b.value);
      PrependTwice(bytes, b.value, HexDecode(s[i + 2..]));
      bytes := bytes + [b.value];
      i := i + 2;
    }
    PrependAll(s, bytes);
    return Ok(bytes);
  }

  lemma PrependNothing(s: string)
    ensures PrependBytes([], HexDecode(s[0..])) == HexDecode(s)
  {
    assert s[0..] == s;
    if HexDecode(s).Ok? {
      assert [] + HexDecode(s).value == HexDecode(s).value;
    }
  }

  /** One pair of digits decoded off the front of `s[i..]`. */
  lemma HexDecodeAt(s: string, i: nat, b: byte)
    requires i + 2 <= |s| && ParseHexPair(s[i], s[i + 1]) == Ok(b)
    ensures HexDecode(s[i..]) == PrependBytes([b], HexDecode(s[i + 2..]))
  {
    assert s[i..][2..] == s[i + 2..];
  }

  lemma PrependTwice(bytes: seq<byte>, b: byte, d: Result<seq<byte>>)
    ensures PrependBytes(bytes, PrependBytes([b], d)) == PrependBytes(bytes + [b], d)
  {
    if d.Ok? {
      assert bytes + ([b] + d.value) == (bytes + [b]) + d.value;
    }
  }

  lemma PrependAll(s: string, bytes: seq<byte>)
    ensures PrependBytes(bytes, HexDecode(s[|s|..])) == Ok(bytes)
  {
    assert s[|s|..] == [];
    assert bytes + [] == bytes;
  }

  // ---------------------------------------------------------------------------
  // Properties

  /** The `head` is the eight upper-case hex digits of the four bytes, which decode back. */
  lemma HeadDecodes(cla: byte, ins: byte, p1: byte, p2: byte)
    ensures |Head(cla, ins, p1, p2)| == 8
    ensures HexDecode(Head(cla, ins, p1, p2)) == Ok([cla, ins, p1, p2])
  {
    HexDecodeString([cla, ins, p1, p2]);
  }

  /** The request carries the tag, the command, the head, the data as two hex digits per
      byte and the expected length in decimal; each can be read back, and the line the
      request is written as parses back to it. */
  lemma RequestFields(tag: string, cla: byte, ins: byte, p1p2: seq<byte>, data: seq<byte>, expectedLength: i32)
    requires |p1p2| >= 2
    ensures var m := Request(tag, cla, ins, p1p2, data, expectedLength).value;
            && m.typ == "controlSmartCard"
            && Lookup(m.data, "tag") == Some(tag)
            && Lookup(m.data, "command") == Some("apduInf")
            && Lookup(m.data, "head").Some? && HexDecode(Lookup(m.data, "head").value) == Ok([cla, ins, p1p2[0], p1p2[1]])
            && Lookup(m.data, "tdata").Some? && HexDecode(Lookup(m.data, "tdata").value) == Ok(data)
            && Lookup(m.data, "rlen").Some? && ParseInt32(Lookup(m.data, "rlen").value) == Ok(expectedLength)
  {
    var d := Request(tag, cla, ins, p1p2, data, expectedLength).value.data;
    LookupDistinct(d, 0);
    LookupDistinct(d, 1);
    LookupDistinct(d, 2);
    LookupDistinct(d, 3);
    LookupDistinct(d, 4);
    HeadDecodes(cla, ins, p1p2[0], p1p2[1]);
    HexDecodeString(data);
    ParseInt32OfIntString(expectedLength);
  }

  /** The reply decodes to a response once each of its fields has been read. */
  lemma DecodeReplyFields(reply: Message, recData: string, status: string, recLen: string, resp: ApduResponse)
    requires Get(reply.data, "apdu_result") == Ok("1")
    requires Get(reply.data, "rec_data") == Ok(recData) && HexDecode(recData) == Ok(resp.data)
    requires Get(reply.data, "status") == Ok(status)
    requires StatusByte(status, 0) == Ok(resp.sw1) && StatusByte(status, 2) == Ok(resp.sw2)
    requires Get(reply.data, "rec_len") == Ok(recLen) && ParseInt32(recLen) == Ok(resp.receivedLength)
    ensures DecodeReply(reply) == Ok(Some(resp))
  {
  }

  /** The reply a terminal sends for a successful exchange. */
  function ReplyFor(tag: string, resp: ApduResponse): Message {
    Message("infoSmartCard", [
      ("tag", tag),
      ("apdu_result", "1"),
      ("rec_data", HexString(resp.data)),
      ("status", HexByte(resp.sw1) + HexByte(resp.sw2)),
      ("rec_len", IntString(resp.receivedLength))])
  }

  lemma ReplyForLookups(tag: string, resp: ApduResponse)
    ensures var d := ReplyFor(tag, resp).data;
            && Get(d, "apdu_result") == Ok("1")
            && Get(d, "rec_data") == Ok(HexString(resp.data))
            && Get(d, "status") == Ok(HexByte(resp.sw1) + HexByte(resp.sw2))
            && Get(d, "rec_len") == Ok(IntString(resp.receivedLength))
  {
    var d := ReplyFor(tag, resp).data;
    assert DistinctKeys(d);
    LookupDistinct(d, 1);
    LookupDistinct(d, 2);
    LookupDistinct(d, 3);
    LookupDistinct(d, 4);
  }

  /** Decoding the reply of a successful exchange gives back its data, status bytes and
      received length. */
  lemma DecodeReplyFor(tag: string, resp: ApduResponse)
    ensures DecodeReply(ReplyFor(tag, resp)) == Ok(Some(resp))
  {
    ReplyForLookups(tag, resp);
    HexDecodeString(resp.data);
    ParseInt32OfIntString(resp.receivedLength);
    var status := HexByte(resp.sw1) + HexByte(resp.sw2);
    StatusBytesOf(resp.sw1, resp.sw2);
    DecodeReplyFields(ReplyFor(tag, resp), HexString(resp.data), status, IntString(resp.receivedLength), resp);
  }

  /** The two status bytes read back from their `X2` digits. */
  lemma StatusBytesOf(sw1: byte, sw2: byte)
    ensures StatusByte(HexByte(sw1) + HexByte(sw2), 0) == Ok(sw1)
    ensures StatusByte(HexByte(sw1) + HexByte(sw2), 2) == Ok(sw2)
  {
    var status := HexByte(sw1) + HexByte(sw2);
    ParseHexByte(sw1);
    ParseHexByte(sw2);
    assert status[0] == HexByte(sw1)[0] && status[1] == HexByte(sw1)[1];
    assert status[2] == HexByte(sw2)[0] && status[3] == HexByte(sw2)[1];
  }

  /** A status of `9000` gives SW1 0x90 and SW2 0x00. */
  lemma Status9000(reply: Message, recData: string, recLen: string)
    requires Get(reply.data, "apdu_result") == Ok("1") && Get(reply.data, "status") == Ok("9000")
    requires Get(reply.data, "rec_data") == Ok(recData) && HexDecode(recData).Ok?
    requires Get(reply.data, "rec_len") == Ok(recLen) && ParseInt32(recLen).Ok?
    ensures DecodeReply(reply).Ok? && DecodeReply(reply).value.Some?
    ensures DecodeReply(reply).value.value.sw1 == 0x90 && DecodeReply(reply).value.value.sw2 == 0x00
  {
    Status9000Bytes();
    var resp := ApduResponse(HexDecode(recData).value, 0x90, 0x00, ParseInt32(recLen).value);
    DecodeReplyFields(reply, recData, "9000", recLen, resp);
  }

  lemma Status9000Bytes()
    ensures StatusByte("9000", 0) == Ok(0x90) && StatusByte("9000", 2) == Ok(0x00)
  {
    assert "9000"[0] == '9' && "9000"[1] == '0' && "9000"[2] == '0' && "9000"[3] == '0';
  }

  /** A reply with status `9000`, empty `rec_data` and `rec_len` 0 decodes to SW1 0x90,
      SW2 0x00, no data and a received length of 0. */
  lemma EmptyDataReply(tag: string)
    ensures DecodeReply(Message("infoSmartCard", [("tag", tag), ("apdu_result", "1"), ("status", "9000"),
                                                  ("rec_data", ""), ("rec_len", "0")]))
         == Ok(Some(ApduResponse([], 0x90, 0x00, 0)))
  {
    var reply := Message("infoSmartCard", [("tag", tag), ("apdu_result", "1"), ("status", "9000"),
                                           ("rec_data", ""), ("rec_len", "0")]);
    assert DistinctKeys(reply.data);
    LookupDistinct(reply.data, 1);
    LookupDistinct(reply.data, 2);
    LookupDistinct(reply.data, 3);
    LookupDistinct(reply.data, 4);
    Status9000Bytes();
    ParseInt32OfIntString(0);
    assert IntString(0) == "0";
    DecodeReplyFields(reply, "", "9000", "0", ApduResponse([], 0x90, 0x00, 0));
  }

  /** A reply whose data and status bytes decode but which lacks `rec_len` throws the
      indexer's `KeyNotFoundException`. */
  lemma DecodeReplyWithoutLength(reply: Message, recData: string, status: string)
    requires Get(reply.data, "apdu_result") == Ok("1")
    requires Get(reply.data, "rec_data") == Ok(recData) && HexDecode(recData).Ok?
    requires Get(reply.data, "status") == Ok(status)
    requires StatusByte(status, 0).Ok? && StatusByte(status, 2).Ok?
    requires !HasKey(reply.data, "rec_len")
    ensures DecodeReply(reply) == Throws(KeyNotFound("rec_len"))
  {
  }

  /** The example reply without `rec_len`: its lookups. */
  lemma NoLengthLookups(tag: string)
    ensures var d := [("tag", tag), ("apdu_result", "1"), ("status", "9000"), ("rec_data", "")];
            && Get(d, "apdu_result") == Ok("1")
            && Get(d, "status") == Ok("9000")
            && Get(d, "rec_data") == Ok("")
            && Lookup(d, "rec_len") == None
  {
    var d := [("tag", tag), ("apdu_result", "1"), ("status", "9000"), ("rec_data", "")];
    assert DistinctKeys(d);
    LookupDistinct(d, 1);
    LookupDistinct(d, 2);
    LookupDistinct(d, 3);
  }

  /** Without `rec_len` a successful reply makes the indexer throw once the data and the
      status bytes have been read. */
  lemma MissingReceivedLength(tag: string)
    ensures DecodeReply(Message("infoSmartCard", [("tag", tag), ("apdu_result", "1"), ("status", "9000"),
                                                  ("rec_data", "")]))
         == Throws(KeyNotFound("rec_len"))
  {
    var reply := Message("infoSmartCard", [("tag", tag), ("apdu_result", "1"), ("status", "9000"),
                                           ("rec_data", "")]);
    NoLengthLookups(tag);
    Status9000Bytes();
    DecodeReplyWithoutLength(reply, "", "9000");
  }

  /** Any `apdu_result` other than `1` gives no response, and only then is the result
      `null`. */
  lemma NotOneGivesNone(reply: Message)
    ensures DecodeReply(reply) == Ok(None)
        <==> Lookup(reply.data, "apdu_result").Some? && Lookup(reply.data, "apdu_result").value != "1"
  {
  }

  /** A status shorter than four characters fails in `Substring`. */
  lemma ShortStatusFails(reply: Message, recData: string, status: string)
    requires Lookup(reply.data, "apdu_result") == Some("1")
    requires Lookup(reply.data, "rec_data") == Some(recData) && HexDecode(recData).Ok?
    requires Lookup(reply.data, "status") == Some(status) && |status| < 4
    requires |status| >= 2 ==> ParseHexPair(status[0], status[1]).Ok?
    ensures DecodeReply(reply) == Throws(ArgumentOutOfRange)
  {
  }

  /** Successive increments of the counter, fewer than 2^32 of them, give distinct tags. */
  lemma TagsDistinct(counter: i32, j: nat, k: nat)
    requires 0 < j < k <= 0x1_0000_0000
    ensures Tag(WrapI32(counter + j)) != Tag(WrapI32(counter + k))
  {
    var a := WrapI32(counter + j);
    var b := WrapI32(counter + k);
    IntStringInjective(a, b);
    assert Tag(a)[|TagPrefix|..] == IntString(a);
    assert Tag(b)[|TagPrefix|..] == IntString(b);
  }

  /** The counter after `k` increments is the wrapped sum. */
  lemma NextCounterSteps(counter: i32, k: nat)
    ensures NextCounter(WrapI32(counter + k)) == WrapI32(counter + k + 1)
  {
    var a := WrapI32(counter + k);
    WrapI32Congruent(a as int + 1, counter + k + 1);
  }

  lemma WrapI32Congruent(x: int, y: int)
    requires (x - y) % 0x1_0000_0000 == 0
    ensures WrapI32(x) == WrapI32(y)
  {
  }
}
