# GunGay protocol engines in Dafny

GunGay is a server for Sun Ray thin clients. It talks to each terminal over two
channels, and this project models both and proves properties of them.

**The session channel** (`ConnectionServer.ConnectionServerClient`) is a
line-oriented TCP text protocol. Each message has a type and `key=value` tokens. The
server:
- decodes the lines it reads (`_readMessage`);
- writes its own (`_writeMessage`);
- copies whitelisted attributes of every message into the client object (`_parse`);
- dispatches on the message type in the `Do` loop.

The `Do` loop covers:
- the first `infoReq` greeting;
- the `keepAliveReq` reply;
- the `connRsp` and `discRsp` response slots;
- the tag-keyed table of pending smart-card requests.

`SendAPDU` sends a `controlSmartCard` request under a fresh tag and decodes the
`infoSmartCard` reply. `AllowAccess`, `Disconnect` and `Redirect` send
`connInf`, `discInf` and `redirectInf`.

**The display channel** (`RayConnection`) is a UDP protocol.
- *Outbound*, `OpcodeData` builds one draw command frame. The frame holds:
  - the opcode and a zero byte;
  - the process-wide 16-bit frame counter;
  - x, y, w and h, big-endian;
  - a payload;
  - zero padding to a multiple of four.

  `RayConnection` cuts the frame into packets of at most 1458 bytes. Each packet has a
  16-byte header carrying the channel's own packet counter and a continuation flag.
- *Inbound*, `_readLoop` walks a received datagram record by record and publishes
  the mouse and keyboard events it finds.

## How the model is laid out

- **`basics.dfy`** has `Option`, and `Result`, whose error case is the .NET exception
  the C# code would raise.
- **`bytes.dfy`** has the fixed-width integer types, `ushort` and `int` wrap-around,
  and the big-endian encodings.
- **`text.dfy`** has the .NET string operations the session channel relies on:
  - `TrimStart`, `Split`, `Join` and `IndexOf`;
  - the `X2` format of `ToString` with `Convert.ToByte(…, 16)`;
  - decimal `ToString` with `int.Parse` and `ushort.Parse`.
- **`dict.dfy`** models `Dictionary<string, V>` as an association list in insertion
  order.
- **`codec.dfy`** is the line format. It includes the `foreach` loop of
  `_readMessage` as a method.
- **`apdu.dfy`** is the APDU request and the reply decoding. It includes the hex
  decoding `for` loop as a method.
- **`session.dfy`** is the session channel as a state machine:
  - `Step(state, input, subscribers)` gives the new state, the callbacks made and how
    the turn ended: it continues, stops quietly, or an exception escapes `Do`.
  - `Run` covers a sequence of inputs.
  - It also holds the outgoing messages and the halves of `SendAPDU`, `AllowAccess`,
    `Disconnect` and `Redirect`.
- **`client.dfy`** is the class `ConnectionServerClient`. Its fields are those the C#
  object updates in place, and each of its methods is proved against the functions
  of `Session`.
- **`frames.dfy`** is the byte layout of every draw command frame.
- **`fragmentation.dfy`** is the packet layout and the loop invariant of `_send`.
- **`display.dfy`** holds three classes:
  - `FrameCounter`, the static `_packetSequence`, shared by reference;
  - `OpcodeData`, with its `MemoryStream` as a growing `seq<byte>`;
  - `RayConnection`, with the packet cache, the packet counter and the list of
    datagrams passed to the socket.
- **`events.dfy`** is the datagram decoder, both as the cursor loop of `_readLoop`
  and as a specification function, with an encoder of well-formed records to
  prove it against.

## Behaviour modelled as the code has it

These quirks are modelled exactly as the code behaves, and each is stated by a lemma
or a contract:

- **Only the last fragment is sent.** In `_send`, `_beginPacket(true)` clears the
  packet cache without sending it. For a frame of more than 1442 bytes, every
  fragment is assembled but only the last packet reaches the socket
  (`Display.RayConnection.Send`, `Fragmentation.FinalDatagramLong`).
- **The frame counter is shared.** It is `static`, so every connection draws on one
  counter, not one per channel.
- **A second response crashes the loop.**
  - A second `connRsp` or `discRsp` for a slot that is already completed calls
    `SetResult` twice. Those slots are never cleared, so this happens whenever the
    terminal answers twice. `SetResult` then throws `InvalidOperationException`.
  - A second `infoSmartCard` for the same tag throws in the same way, but only while
    the completed entry is still in the table. With the default task options,
    `SetResult` resumes `SendAPDU` on the spot, and that removes the entry before `Do`
    reads the next line. The duplicate is then unmatched and ignored
    (`Session.InfoSmartCardUnmatched`). The crash (`Session.InfoSmartCardTwice`)
    needs that continuation to be deferred.
  - `Do` catches only `IOException`, so the exception escapes and ends the
    session's loop. The response is not discarded.
- **Pending requests are not released on close.** When the connection stops, the
  pending futures are left waiting.
- **Malformed lines end the loop.** A token without `=` is one example; an empty
  token from a trailing or doubled space is another. `Substring(0, -1)` throws
  `ArgumentOutOfRangeException` and ends the loop. In particular, a message with
  empty data is written with a trailing space, and reading it back fails this way
  (`Codec.EmptyDataRejected`). The `keepAliveInf` line is `"keepAliveInf "`.
- **A reply without `rec_len` throws.** An `infoSmartCard` reply with
  `apdu_result=1` but no `rec_len` makes the dictionary indexer throw
  `KeyNotFoundException` (`Apdu.MissingReceivedLength`).
- **The keyboard record puts `Unknown1` before `Shift`.** `Unknown1` is in bytes 0–1
  and `Shift` in bytes 2–3.
- **The mouse `Unknown` field is computed oddly.** It is `(b[i] << 6) | b[i + 7]`.
- **The cursor bitmap length wraps.** `SetMouseCursor` asserts a bitmap length of
  `(w * h) >> 4` on a 32-bit `int`, which is negative once `w * h` reaches 2^31.

## Model

| member | source | states |
|---|---|---|
| Bytes.Wrap16 | GunGay/RayConnection.cs:22 | `++` on a `ushort` keeps values below 2^16 and wraps 2^16 to 0 |
| Bytes.Wrap16Succ | GunGay/RayConnection.cs:158 | incrementing a wrapped counter equals wrapping the incremented value, so counters can be advanced several steps at once |
| Bytes.WrapI32 | GunGay/ConnectionServer.cs:147 | `++` on an `int` is the identity inside the 32-bit range and otherwise congruent modulo 2^32 |
| Bytes.WordOfBE16 | GunGay/RayConnection.cs:31 | reading back the two big-endian bytes of a `ushort` gives the value |
| Bytes.BE16OfWord | GunGay/RayConnection.cs:101-103 | two bytes read as a big-endian word and written out again are the same two bytes |
| Bytes.BE32 | GunGay/RayConnection.cs:32 | `_w32` writes exactly four bytes |
| Bytes.WordsOfBE32 | GunGay/RayConnection.cs:32 | the four bytes `_w32` writes, read back as two big-endian words, give the value |
| Bytes.Zeros | GunGay/RayConnection.cs:34 | the padding appended is `n` zero bytes |
| Bytes.FlattenAppend | GunGay/RayConnection.cs:177 | concatenating packets one more at a time is concatenation of the whole list |
| Text.TrimStart | GunGay/ConnectionServer.cs:125 | the result is a suffix of the input that drops exactly the leading white space |
| Text.IndexOf | GunGay/ConnectionServer.cs:114 | -1 exactly when the character is absent, otherwise the position of its first occurrence |
| Text.IndexOfAfter | GunGay/ConnectionServer.cs:114 | in `a + [c] + b` with `c` not in `a`, the first `c` is at the length of `a` |
| Text.Split | GunGay/ConnectionServer.cs:104 | `Split` returns at least one piece and no piece contains the separator |
| Text.SplitCons | GunGay/ConnectionServer.cs:104 | splitting at the first separator gives the first piece followed by the split of the rest |
| Text.SplitJoin | GunGay/ConnectionServer.cs:104 | `Split` inverts `string.Join` for pieces free of the separator |
| Text.JoinSplit | GunGay/ConnectionServer.cs:104 | `string.Join` inverts `Split` on every string |
| Text.JoinLacks | GunGay/ConnectionServer.cs:125 | a character that is neither the separator nor in any piece is not in the joined string |
| Text.HexValueOfDigit | GunGay/ConnectionServer.cs:170 | every upper-case hex digit written by `X2` parses back to its value |
| Text.HexByte | GunGay/ConnectionServer.cs:155-156 | `ToString("X2")` of a byte is two characters |
| Text.ParseHexPair | GunGay/ConnectionServer.cs:170-175 | the idealised `Convert.ToByte(s, 16)`, which accepts only hex digits, succeeds on two characters exactly when both are hex digits |
| Text.ParseHexByte | GunGay/ConnectionServer.cs:155-170 | parsing the two `X2` digits of a byte gives the byte back |
| Text.HexString | GunGay/ConnectionServer.cs:156 | the hex string of `n` bytes has `2n` characters |
| Text.HexDecode | GunGay/ConnectionServer.cs:168-170 | a successful pairwise hex decode yields half as many bytes as characters |
| Text.HexDecodeString | GunGay/ConnectionServer.cs:156-170 | decoding the `X2` string of a byte array gives the bytes back |
| Text.HexDecodeOk | GunGay/ConnectionServer.cs:169-170 | with the idealised `Convert.ToByte`, the decode succeeds exactly when the length is even and every character is a hex digit |
| Text.NatString | GunGay/ConnectionServer.cs:157 | decimal `ToString` of a natural number is a non-empty string of digits |
| Text.DigitsValueOfNatString | GunGay/ConnectionServer.cs:157 | the digits of a number read back as the number |
| Text.ParseInt32 | GunGay/ConnectionServer.cs:74-75 | `int.Parse` succeeds exactly when the text is an integer inside the 32-bit range |
| Text.ParseUInt16 | GunGay/ConnectionServer.cs:261 | `ushort.Parse` succeeds exactly when the text is an integer in 0..65535 |
| Text.ParseIntegerOfIntString | GunGay/ConnectionServer.cs:254 | the decimal form of any integer parses back to it |
| Text.ParseNatural | GunGay/ConnectionServer.cs:157 | the decimal form of a natural number parses back to it |
| Text.ParseNegative | GunGay/ConnectionServer.cs:157 | a minus sign before the digits of `n` parses to `-n` |
| Text.ParseInt32OfIntString | GunGay/ConnectionServer.cs:176 | `int.Parse` inverts `ToString` of any 32-bit integer |
| Text.ParseUInt16OfNatString | GunGay/ConnectionServer.cs:276 | `ushort.Parse` inverts `ToString` of any `ushort` |
| Text.IntStringInjective | GunGay/ConnectionServer.cs:147 | distinct integers have distinct decimal forms |
| Dict.Keys | GunGay/ConnectionServer.cs:125 | the keys in enumeration order, one per entry |
| Dict.Lookup | GunGay/ConnectionServer.cs:229 | `TryGetValue` finds a value exactly when the key is present, and the value is stored under that key |
| Dict.Get | GunGay/ConnectionServer.cs:67-85 | the indexer returns a value exactly when the key is present and otherwise throws `KeyNotFoundException` for that key |
| Dict.Insert | GunGay/ConnectionServer.cs:117 | assigning an existing key keeps every entry's key in place; a new key is appended; no other key appears |
| Dict.Remove | GunGay/ConnectionServer.cs:164 | after `Remove` the key is absent and every remaining entry was there before |
| Dict.InsertLookup | GunGay/ConnectionServer.cs:117 | after `d[k] = v`, `k` maps to `v` and every other key to what it mapped to before |
| Dict.InsertDistinct | GunGay/ConnectionServer.cs:117 | the indexer assignment keeps keys unique |
| Dict.LookupDistinct | GunGay/ConnectionServer.cs:229 | with unique keys, looking up an entry's key yields that entry's value |
| Dict.RemoveLookup | GunGay/ConnectionServer.cs:164 | after `Remove(k)`, `k` is absent and every other key keeps its value |
| Codec.Tokens | GunGay/ConnectionServer.cs:125 | one `key=value` token per entry |
| Codec.ParseToken | GunGay/ConnectionServer.cs:114-116 | a token splits exactly when it holds `=`, at its first `=`, into key and value that rebuild it; otherwise `Substring` throws `ArgumentOutOfRangeException` |
| Codec.ParseData | GunGay/ConnectionServer.cs:112-118 | the only failure while filling the dictionary is `ArgumentOutOfRangeException` |
| Codec.ReadMessage | GunGay/ConnectionServer.cs:100-121 | the `foreach` loop over the tokens computes the message of the line, or the exception the line raises |
| Codec.ParseDataOk | GunGay/ConnectionServer.cs:112-118 | the tokens are accepted exactly when every one holds `=` |
| Codec.ParseLineOk | GunGay/ConnectionServer.cs:104-118 | a line decodes exactly when every token after the type holds `=`, and otherwise throws `ArgumentOutOfRangeException` |
| Codec.ParseDataDistinct | GunGay/ConnectionServer.cs:117 | the decoded dictionary has unique keys |
| Codec.EmptyLastPiece | GunGay/ConnectionServer.cs:104 | a line ending in a space splits into a last piece that is empty |
| Codec.TrailingSpaceRejected | GunGay/ConnectionServer.cs:104-118 | a line with a trailing space throws `ArgumentOutOfRangeException` |
| Codec.EmptyDataRejected | GunGay/ConnectionServer.cs:104-125 | a message with no data is written as its type followed by a space, and that line does not read back |
| Codec.ParseTokenOf | GunGay/ConnectionServer.cs:114-125 | a `key=value` token with `=` not in the key splits back into that key and value |
| Codec.ParseLineOf | GunGay/ConnectionServer.cs:104-118 | a line made of a type and space-free tokens decodes to the type and the data its tokens give |
| Codec.DuplicateKeyLastWins | GunGay/ConnectionServer.cs:117 | when a key appears twice on a line, the later value overwrites the earlier |
| Codec.TokensLack | GunGay/ConnectionServer.cs:125 | a character other than `=` that is in no key and no value is in no token |
| Codec.ParseDataTokens | GunGay/ConnectionServer.cs:112-125 | reading back the tokens of distinct `=`-free keys rebuilds the entries in order |
| Codec.InsertFresh | GunGay/ConnectionServer.cs:117 | inserting a key not yet present appends it |
| Codec.RoundTrip | GunGay/ConnectionServer.cs:104-125 | the line written for an encodable message has no line break, so it is read back as one line, and that line parses to the message |
| Apdu.Request | GunGay/ConnectionServer.cs:148-159 | the `controlSmartCard` request is built exactly when `p1p2` has two bytes, and otherwise indexing throws |
| Apdu.StatusByte | GunGay/ConnectionServer.cs:174-175 | a status too short for the two characters read throws `ArgumentOutOfRangeException` |
| Apdu.HexDecodeLoop | GunGay/ConnectionServer.cs:168-170 | the `for` loop filling a `List<byte>` computes the pairwise hex decode of `rec_data`, failures included |
| Apdu.HeadDecodes | GunGay/ConnectionServer.cs:155 | `head` is eight hex digits that decode to cla, ins, p1, p2 |
| Apdu.RequestFields | GunGay/ConnectionServer.cs:147-159 | the request carries the tag and `command=apduInf`, and its `head`, `tdata` and `rlen` decode to the command header, the data and the expected length |
| Apdu.DecodeReplyFields | GunGay/ConnectionServer.cs:166-177 | a reply whose fields all read decodes to the response they give |
| Apdu.ReplyForLookups | GunGay/ConnectionServer.cs:166-177 | the reply a terminal sends for a response carries its fields under the keys the decoder reads |
| Apdu.DecodeReplyFor | GunGay/ConnectionServer.cs:166-177 | decoding the reply sent for any response gives that response back |
| Apdu.StatusBytesOf | GunGay/ConnectionServer.cs:174-175 | the status `X2(sw1) + X2(sw2)` yields `sw1` from characters 0–1 and `sw2` from 2–3 |
| Apdu.Status9000 | GunGay/ConnectionServer.cs:174-175 | a successful reply with status `9000` gives SW1 0x90 and SW2 0x00 |
| Apdu.EmptyDataReply | GunGay/ConnectionServer.cs:166-177 | the reply with `apdu_result=1`, `status=9000`, empty `rec_data` and `rec_len=0` gives no data, 0x90, 0x00 and 0 |
| Apdu.DecodeReplyWithoutLength | GunGay/ConnectionServer.cs:176 | a reply whose data and status decode but which has no `rec_len` throws `KeyNotFoundException` for `rec_len` |
| Apdu.MissingReceivedLength | GunGay/ConnectionServer.cs:176 | the `9000` reply with empty data but no `rec_len` throws `KeyNotFoundException` |
| Apdu.NotOneGivesNone | GunGay/ConnectionServer.cs:166 | the result is `null` exactly when `apdu_result` is present and not `1` |
| Apdu.ShortStatusFails | GunGay/ConnectionServer.cs:174-175 | a status of fewer than four characters throws `ArgumentOutOfRangeException` |
| Apdu.TagsDistinct | GunGay/ConnectionServer.cs:147 | any 2^32 successive tags are pairwise distinct, even across `int` wrap-around |
| Apdu.NextCounterSteps | GunGay/ConnectionServer.cs:147 | `++_tagCounter` applied once more after `k` increments is `k + 1` increments, wrapped |
| Apdu.WrapI32Congruent | GunGay/ConnectionServer.cs:147 | counters congruent modulo 2^32 wrap to the same `int` |
| Session.ParseRealIP | GunGay/ConnectionServer.cs:78 | `realIP` parses exactly when it is a non-empty hex number below 2^32 |
| Session.PortStep | GunGay/ConnectionServer.cs:74 | `pn`, when present, sets `Port` to its parsed value or raises the parse error; nothing else changes |
| Session.TokenStep | GunGay/ConnectionServer.cs:75 | `tokenSeq`, when present, sets `TokenSequence` to its parsed value or raises the parse error; nothing else changes |
| Session.RealIPStep | GunGay/ConnectionServer.cs:76-79 | `realIP`, when present, sets `ActualIP` or raises the parse error; nothing else changes |
| Session.AtrStep | GunGay/ConnectionServer.cs:81-86 | `atr` sets `ATR`, and needs `atr.hist_len` (parsed) and `atr.hs`, throwing `KeyNotFoundException` when `atr.hist_len` is missing; nothing else changes |
| Session.ParseSucceeds | GunGay/ConnectionServer.cs:65-87 | `_parse` completes exactly when every present numeric key parses and `atr` comes with its companions |
| Session.ParseStringProperties | GunGay/ConnectionServer.cs:67-73 | each string property takes the value of its key when present and is otherwise unchanged |
| Session.ParseOtherProperties | GunGay/ConnectionServer.cs:74-86 | when `_parse` completes, `Port`, `TokenSequence`, `ActualIP` and the ATR fields take their parsed values when present and are otherwise unchanged |
| Session.ParseIgnoresOtherKeys | GunGay/ConnectionServer.cs:65-87 | a message without whitelisted keys changes nothing and raises nothing |
| Session.AtrWithoutHistLength | GunGay/ConnectionServer.cs:83-84 | `atr` without `atr.hist_len` throws after `ATR` has been assigned |
| Session.SetResult | GunGay/ConnectionServer.cs:221-230 | `SetResult` completes a waiting future with the message and throws `InvalidOperationException` on a completed one |
| Session.KeepAliveLine | GunGay/ConnectionServer.cs:218 | the `keepAliveInf` message is written as `"keepAliveInf "` |
| Session.StepReads | GunGay/ConnectionServer.cs:200-201 | a line that decodes and parses goes to the dispatch with the updated attributes |
| Session.DispatchOther | GunGay/ConnectionServer.cs:217-231 | messages other than `infoReq` make no callback and leave the first flag, attributes and tag counter alone |
| Session.DispatchInfoReq | GunGay/ConnectionServer.cs:203-216 | `infoReq` greets on the first one, clears the first flag, throws without `event`, and raises the insert or remove callback only when subscribed |
| Session.DispatchGreetsOnce | GunGay/ConnectionServer.cs:203-210 | the first flag clears on `infoReq`; `OnClientConnect` and the keepalive start happen exactly on the first `infoReq` |
| Session.InfoReqGreetsOnce | GunGay/ConnectionServer.cs:200-210 | the same for a turn of the loop that reads an `infoReq` line |
| Session.StepNotFirst | GunGay/ConnectionServer.cs:196-232 | once the first flag is clear, no turn sets it again or greets |
| Session.ReceiveNotFirst | GunGay/ConnectionServer.cs:201-232 | once the first flag is clear, parsing and dispatching a message neither sets it nor greets |
| Session.NotFirstForGood | GunGay/ConnectionServer.cs:196-232 | once the first flag is clear, no later sequence of inputs sets it again or greets |
| Session.InfoReqNeedsEvent | GunGay/ConnectionServer.cs:212 | an `infoReq` without `event` throws `KeyNotFoundException` out of the loop |
| Session.DispatchCardEvents | GunGay/ConnectionServer.cs:212-215 | `OnCardInsert` fires exactly on `event=insert` with a subscriber, `OnCardRemove` exactly on `event=remove` with a subscriber |
| Session.InfoReqCardEvents | GunGay/ConnectionServer.cs:200-215 | the same for a turn of the loop |
| Session.KeepAliveAnswered | GunGay/ConnectionServer.cs:217-218 | `keepAliveReq` writes exactly one `keepAliveInf` line with empty data and changes nothing else |
| Session.DispatchConnRsp | GunGay/ConnectionServer.cs:219-222 | `connRsp` is ignored with no slot, completes a waiting slot, and throws on a completed slot |
| Session.DispatchDiscRsp | GunGay/ConnectionServer.cs:223-226 | `discRsp` is ignored with no slot, completes a waiting slot, and throws on a completed slot |
| Session.ConnRspResolves | GunGay/ConnectionServer.cs:200-222 | the same for a turn of the loop, which changes only the attributes and the slot |
| Session.DiscRspResolves | GunGay/ConnectionServer.cs:200-226 | the same for a turn of the loop, which changes only the attributes and the slot |
| Session.DispatchInfoSmartCard | GunGay/ConnectionServer.cs:227-231 | an untagged or unmatched reply leaves the table alone; a matching waiting entry is completed; a matching completed entry throws |
| Session.InfoSmartCardUnmatched | GunGay/ConnectionServer.cs:227-231 | an untagged or unmatched `infoSmartCard` leaves the pending table unchanged |
| Session.InfoSmartCardMatched | GunGay/ConnectionServer.cs:227-231 | a matching tag completes only that entry and keeps the tags unique |
| Session.InfoSmartCardTwice | GunGay/ConnectionServer.cs:229-233 | a reply for an entry that is already completed throws out of the loop |
| Session.DispatchKeepsAttributes | GunGay/ConnectionServer.cs:203-231 | the dispatch changes no attribute or tag counter and writes at most one `keepAliveInf` line |
| Session.StepFrame | GunGay/ConnectionServer.cs:196-233 | a turn never changes the tag counter and writes at most one `keepAliveInf` line |
| Session.DispatchNeverStops | GunGay/ConnectionServer.cs:203-231 | the dispatch never leaves the loop quietly |
| Session.LineNeverStops | GunGay/ConnectionServer.cs:200-233 | a line that does not decode throws `ArgumentOutOfRangeException`, and no line leaves the loop quietly |
| Session.StepEnds | GunGay/ConnectionServer.cs:198-233 | the loop leaves quietly exactly on a lost connection or an `IOException`; end of stream throws `NullReferenceException` |
| Session.ResponsePort | GunGay/ConnectionServer.cs:261 | `ushort.Parse(msg.Data["pn"])` succeeds exactly when `pn` is present and a `ushort` |
| Session.DigitsHaveNoSeparator | GunGay/ConnectionServer.cs:254 | decimal digits contain no space, no line break and no `=` |
| Session.IntStringHasNoSeparator | GunGay/ConnectionServer.cs:254 | the decimal form of any integer contains no space and no line break |
| Session.ConnInfFields | GunGay/ConnectionServer.cs:249-258 | `connInf` carries the token sequence, the module and `access=allowed` |
| Session.ConnInfEncodable | GunGay/ConnectionServer.cs:249-258 | `connInf` with a module free of spaces and line breaks survives the line format |
| Session.ConnInfMessage | GunGay/ConnectionServer.cs:249-258 | `connInf` carries its fields; with a module free of spaces and line breaks it goes out as one line that the terminal's decoder reads back unchanged |
| Session.DiscInfFields | GunGay/ConnectionServer.cs:290-299 | `discInf` carries the token sequence, the cause and `access=denied` |
| Session.DiscInfEncodable | GunGay/ConnectionServer.cs:290-299 | `discInf` with a cause free of spaces and line breaks survives the line format |
| Session.DiscInfMessage | GunGay/ConnectionServer.cs:290-299 | `discInf` carries its fields; with a cause free of spaces and line breaks it goes out as one line that reads back unchanged |
| Session.TokenEcho | GunGay/ConnectionServer.cs:75 | after a `tokenSeq` has been parsed, `connInf` and `discInf` send back the same number |
| Session.RedirectFields | GunGay/ConnectionServer.cs:269-277 | `authipa` is eight hex digits decoding to the four address bytes, and `authport` parses back to the port |
| Session.ResponsePortOf | GunGay/ConnectionServer.cs:261 | a response carrying `pn` as the digits of a `ushort` yields that port |
| Session.BeginApduStores | GunGay/ConnectionServer.cs:147-162 | `SendAPDU` bumps the counter, stores a waiting entry under the new tag without touching other tags, and writes the request line; nothing else changes |
| Session.BeginApduShortP1P2 | GunGay/ConnectionServer.cs:147-155 | with fewer than two `p1p2` bytes, the counter is bumped and `IndexOutOfRangeException` is raised before anything is stored or written |
| Session.FinishApduRemoves | GunGay/ConnectionServer.cs:163-177 | after the reply, the entry is removed, other entries are kept, and the result is the decoded reply |
| Session.TwoApdusIndependent | GunGay/ConnectionServer.cs:147-164 | two requests in flight get distinct tags, and a reply to the first completes only the first |
| Session.AllowAccessThenResponse | GunGay/ConnectionServer.cs:245-261 | `AllowAccess` writes `connInf` and opens the slot, the next `connRsp` completes it, and the port returned is that reply's `pn` |
| Client.RunStops | GunGay/ConnectionServer.cs:196-233 | a turn that does not continue is the last one |
| Client.RunContinues | GunGay/ConnectionServer.cs:196-232 | a turn that continues is followed by the run over the remaining input |
| Client.ConnectionServerClient.constructor | GunGay/ConnectionServer.cs:89-98 | a fresh client is in the initial session state |
| Client.ConnectionServerClient.WriteMessage | GunGay/ConnectionServer.cs:123-126 | one line with the message's encoding is written |
| Client.ConnectionServerClient.AssignVersions | GunGay/ConnectionServer.cs:67-70 | the `fw`, `hw`, `id` and `sn` assignments update exactly those properties |
| Client.ConnectionServerClient.AssignDisplay | GunGay/ConnectionServer.cs:72-73 | the `startRes` and `type` assignments |
| Client.ConnectionServerClient.AssignStrings | GunGay/ConnectionServer.cs:67-73 | all string assignments of `_parse` |
| Client.ConnectionServerClient.AssignPort | GunGay/ConnectionServer.cs:74 | the `pn` assignment, or its parse error |
| Client.ConnectionServerClient.AssignTokenSequence | GunGay/ConnectionServer.cs:75 | the `tokenSeq` assignment, or its parse error |
| Client.ConnectionServerClient.AssignRealIP | GunGay/ConnectionServer.cs:76-79 | the `realIP` assignment, or its parse error |
| Client.ConnectionServerClient.AssignAtr | GunGay/ConnectionServer.cs:81-86 | the ATR assignments in order, stopping at the first missing or unparsable companion |
| Client.ConnectionServerClient.Parse | GunGay/ConnectionServer.cs:65-87 | `_parse` changes the properties as `Session.ApplyParse` says and raises the same exception |
| Client.ConnectionServerClient.OnInfoReq | GunGay/ConnectionServer.cs:203-216 | the `infoReq` branch updates the first flag and yields the callbacks and outcome of the dispatch |
| Client.ConnectionServerClient.OnKeepAliveReq | GunGay/ConnectionServer.cs:217-218 | the `keepAliveReq` branch |
| Client.ConnectionServerClient.OnConnRsp | GunGay/ConnectionServer.cs:219-222 | the `connRsp` branch |
| Client.ConnectionServerClient.OnDiscRsp | GunGay/ConnectionServer.cs:223-226 | the `discRsp` branch |
| Client.ConnectionServerClient.OnInfoSmartCard | GunGay/ConnectionServer.cs:227-231 | the `infoSmartCard` branch |
| Client.ConnectionServerClient.DispatchMessage | GunGay/ConnectionServer.cs:203-231 | the dispatch on the message type |
| Client.ConnectionServerClient.Receive | GunGay/ConnectionServer.cs:201-231 | `_parse` followed by the dispatch, stopping at a parse exception |
| Client.ConnectionServerClient.HandleLine | GunGay/ConnectionServer.cs:200-233 | one line read: decoded, parsed and dispatched, or the exception it raises |
| Client.ConnectionServerClient.HandleInput | GunGay/ConnectionServer.cs:196-233 | one turn of the loop for any input, including a lost connection, end of stream and a read error |
| Client.ConnectionServerClient.Do | GunGay/ConnectionServer.cs:191-237 | the `while` loop over the inputs takes the client through the states, callbacks and outcome of `Session.Run` |
| Client.ConnectionServerClient.KeepaliveTick | GunGay/ConnectionServer.cs:187 | one keepalive tick writes one `keepAliveInf` line |
| Client.ConnectionServerClient.NextTag | GunGay/ConnectionServer.cs:147 | `++_tagCounter` and the tag built from the new value |
| Client.ConnectionServerClient.SendApdu | GunGay/ConnectionServer.cs:145-162 | the counter, pending table, written lines and tag are those of `Session.BeginApdu` |
| Client.ConnectionServerClient.ApduResult | GunGay/ConnectionServer.cs:163-177 | the entry is removed and the reply decoded as `Session.FinishApdu` says |
| Client.ConnectionServerClient.AllowAccess | GunGay/ConnectionServer.cs:245-258 | the slot is opened and `connInf` written as `Session.AllowAccess` says |
| Client.ConnectionServerClient.AllowAccessResult | GunGay/ConnectionServer.cs:260-261 | the port is `pn` of the completed reply, parsed as a `ushort` |
| Client.ConnectionServerClient.Disconnect | GunGay/ConnectionServer.cs:286-299 | the slot is opened and `discInf` written as `Session.Disconnect` says |
| Client.ConnectionServerClient.DisconnectResult | GunGay/ConnectionServer.cs:300-301 | the port is `pn` of the completed reply, parsed as a `ushort` |
| Client.ConnectionServerClient.Redirect | GunGay/ConnectionServer.cs:267-278 | `redirectInf` is written as `Session.Redirect` says |
| Frames.Header | GunGay/RayConnection.cs:17-27 | every frame header is 12 bytes |
| Frames.HeaderLayout | GunGay/RayConnection.cs:17-31 | the header is the opcode, a zero, then the sequence number, x, y, w and h as big-endian words |
| Frames.Color | GunGay/RayConnection.cs:33 | a color is four bytes starting with zero |
| Frames.ColorLayout | GunGay/RayConnection.cs:33 | `_wColor(0xTTRRGGBB)` writes `[0, BB, GG, RR]`, dropping the top byte |
| Frames.PadCases | GunGay/RayConnection.cs:34 | `_wPad` appends nothing to an aligned buffer and `off - len % off` bytes otherwise |
| Frames.UnalignedBeforePad | GunGay/RayConnection.cs:34 | every length before the padding ends is unaligned, so the loop continues |
| Frames.AlignedAfterPad | GunGay/RayConnection.cs:34 | the length after padding is aligned, so the loop stops |
| Frames.PadLengthIsLeast | GunGay/RayConnection.cs:34 | the padding is fewer than `off` bytes, is the least that aligns the buffer, and is zero exactly when it is already aligned |
| Frames.Padded | GunGay/RayConnection.cs:34 | padding keeps the contents, appends fewer than `off` zero bytes, aligns the length, and leaves an aligned buffer unchanged |
| Frames.PaddedIsFrame | GunGay/RayConnection.cs:17-34 | a header, a payload and `_wPad(4)` make a well-formed frame |
| Frames.AlignedIsFrame | GunGay/RayConnection.cs:17-27 | a header and a payload whose length is a multiple of four already make a well-formed frame |
| Frames.PadFrame | GunGay/RayConnection.cs:186-191 | the `Pad` frame is 16 bytes: opcode 0xAF, four 0xFFFF words and four 0xFF bytes |
| Frames.FillRectFrame | GunGay/RayConnection.cs:196-201 | the `FillRect` frame is 16 bytes: the header and the color |
| Frames.MaskedFillFrame | GunGay/RayConnection.cs:206-213 | the `MaskedFill` frame is the header, the color, the bitmap and padding to four |
| Frames.CopyRectFrame | GunGay/RayConnection.cs:218-224 | the `CopyRect` frame is 16 bytes: the header and the source position |
| Frames.ExpandBitmapFrame | GunGay/RayConnection.cs:229-239 | the `ExpandBitmap` frame is the header, both colors, the bitmap and padding to four |
| Frames.BlitBitmapFrame | GunGay/RayConnection.cs:244-252 | the `BlitBitmap` frame is the header, the pixels and padding to four |
| Frames.MouseBoundsFrame | GunGay/RayConnection.cs:257-260 | the `SetMouseBounds` frame is the 12-byte header with x = y = 0 |
| Frames.CursorBitmapLengthCases | GunGay/RayConnection.cs:267-268 | `(w * h) >> 4` is `w * h / 16` below 2^31 and negative from 2^31, where `int` wraps |
| Frames.MouseCursorFrame | GunGay/RayConnection.cs:265-277 | the `SetMouseCursor` frame is the header, both colors, both bitmaps and padding to four |
| Frames.MousePositionFrame | GunGay/RayConnection.cs:282-285 | the `SetMousePosition` frame is the 12-byte header with w = h = 0 |
| Fragmentation.PacketHeader | GunGay/RayConnection.cs:154-166 | a packet header is 16 bytes |
| Fragmentation.PacketHeaderLayout | GunGay/RayConnection.cs:154-166 | the header is the sequence number, the flag as 1 or 0, then 1, 0, 0xF, 0xA, 0x10, 0, all big-endian words |
| Fragmentation.FragmentCount | GunGay/RayConnection.cs:173-182 | a send always uses at least one packet |
| Fragmentation.FragmentCountIsCeiling | GunGay/RayConnection.cs:174-182 | a frame of `n > 0` bytes takes ceil(n / 1442) packets |
| Fragmentation.FragmentCountOf | GunGay/RayConnection.cs:174-182 | a frame of more than `1442 k` but at most `1442 (k + 1)` bytes takes `k + 1` packets |
| Fragmentation.Fragment | GunGay/RayConnection.cs:176 | no fragment exceeds 1442 bytes |
| Fragmentation.Fragments | GunGay/RayConnection.cs:174-182 | the frame is cut into one fragment per packet |
| Fragmentation.Packets | GunGay/RayConnection.cs:173-183 | one packet is assembled per fragment |
| Fragmentation.FragmentsReassemble | GunGay/RayConnection.cs:174-182 | the fragments concatenate to the frame |
| Fragmentation.FlattenPrefix | GunGay/RayConnection.cs:174-182 | the first `j` fragments are the first `1442 j` bytes of the frame |
| Fragmentation.PacketsBounded | GunGay/RayConnection.cs:154-182 | every packet is 16 to 1458 bytes, with header number `seq + 1 + k`, the flag set exactly after the first, and fragment `k` as body; all but the last are full, and every packet of a non-empty frame carries data |
| Fragmentation.PacketNumber | GunGay/RayConnection.cs:158 | packet `k` of a send is numbered `seq + 1 + k` modulo 2^16 |
| Fragmentation.PacketsNumbered | GunGay/RayConnection.cs:158-181 | successive packets of one send carry successive numbers modulo 2^16 |
| Fragmentation.PacketFull | GunGay/RayConnection.cs:176-181 | while more than one fragment remains, the packet carries 1442 bytes and another packet follows |
| Fragmentation.PacketLast | GunGay/RayConnection.cs:176-183 | the final packet carries what remains of the frame and completes the list |
| Fragmentation.SendingStart | GunGay/RayConnection.cs:170-173 | the loop invariant holds after the first `_beginPacket(false)` |
| Fragmentation.SendingNext | GunGay/RayConnection.cs:176-181 | a full fragment followed by `_beginPacket(true)` keeps the loop invariant |
| Fragmentation.SendingLast | GunGay/RayConnection.cs:176-180 | the last fragment keeps the loop invariant and leaves nothing to go |
| Fragmentation.SendingDone | GunGay/RayConnection.cs:174-183 | when the loop ends, every packet has been assembled, the counter has advanced by the packet count, and the cache holds the final packet |
| Fragmentation.FinalDatagram | GunGay/RayConnection.cs:287-291 | the one datagram `_endPacket` sends is the last packet assembled |
| Fragmentation.FinalDatagramContents | GunGay/RayConnection.cs:168-184 | a short frame goes out whole in one unflagged packet; a long frame loses all but its last fragment, which goes out flagged |
| Fragmentation.FinalDatagramShort | GunGay/RayConnection.cs:173-183 | a frame of at most 1442 bytes goes out whole in one unflagged packet |
| Fragmentation.FinalDatagramLong | GunGay/RayConnection.cs:156-181 | a frame of more than 1442 bytes reaches the socket only as its last fragment, flagged as a continuation |
| Display.FrameCounter.constructor | GunGay/RayConnection.cs:15 | the static counter starts at zero |
| Display.OpcodeData.constructor | GunGay/RayConnection.cs:17-27 | the shared counter advances by one modulo 2^16, and the buffer is the header with the new value |
| Display.OpcodeData.Write | GunGay/RayConnection.cs:29 | `_write` appends the bytes |
| Display.OpcodeData.W8 | GunGay/RayConnection.cs:30 | `_w8` appends one byte |
| Display.OpcodeData.W16 | GunGay/RayConnection.cs:31 | `_w16` appends the big-endian word |
| Display.OpcodeData.W32 | GunGay/RayConnection.cs:32 | `_w32` appends the big-endian double word |
| Display.OpcodeData.WColor | GunGay/RayConnection.cs:33 | `_wColor` appends the color bytes |
| Display.OpcodeData.WPad | GunGay/RayConnection.cs:34 | the `while` loop leaves the buffer padded with zeros to a multiple of `off` |
| Display.RayConnection.constructor | GunGay/RayConnection.cs:293-298 | a new channel has packet counter 0, an empty cache and nothing sent |
| Display.RayConnection.ChangePort | GunGay/RayConnection.cs:143-147 | only the port changes: both counters, the cache and the datagrams sent are untouched |
| Display.RayConnection.Write | GunGay/RayConnection.cs:70-79 | bytes that do not fit flush the cache as one datagram and start a flagged packet with them; otherwise they are appended |
| Display.RayConnection.BeginPacket | GunGay/RayConnection.cs:154-166 | the cache is replaced by a header with the next packet number and the flag, without sending |
| Display.RayConnection.EndPacket | GunGay/RayConnection.cs:287-291 | the cache is sent as one datagram and emptied |
| Display.RayConnection.Send | GunGay/RayConnection.cs:168-184 | every packet of the frame is assembled, only the final one is sent, and the counter advances by the packet count |
| Display.RayConnection.SendStep | GunGay/RayConnection.cs:176-181 | one iteration of the `_send` loop keeps its invariant, sends nothing and decreases what is left to go |
| Display.RayConnection.Pad | GunGay/RayConnection.cs:186-191 | one `Pad` frame is taken from the shared counter and sent |
| Display.RayConnection.FillRect | GunGay/RayConnection.cs:196-201 | one `FillRect` frame is sent |
| Display.RayConnection.MaskedFill | GunGay/RayConnection.cs:206-213 | one `MaskedFill` frame is sent |
| Display.RayConnection.CopyRect | GunGay/RayConnection.cs:218-224 | one `CopyRect` frame is sent |
| Display.RayConnection.ExpandBitmap | GunGay/RayConnection.cs:229-239 | given a bitmap of `(w + 7) / 8 * h` bytes, one `ExpandBitmap` frame is sent |
| Display.RayConnection.BlitBitmap | GunGay/RayConnection.cs:244-252 | one `BlitBitmap` frame is sent |
| Display.RayConnection.SetMouseBounds | GunGay/RayConnection.cs:257-260 | one `SetMouseBounds` frame is sent |
| Display.RayConnection.SetMouseCursor | GunGay/RayConnection.cs:265-277 | given bitmaps of `(w * h) >> 4` bytes, one `SetMouseCursor` frame is sent |
| Display.RayConnection.SetMousePosition | GunGay/RayConnection.cs:282-285 | one `SetMousePosition` frame is sent |
| Events.Prepend | GunGay/RayConnection.cs:99-115 | events published earlier come before those of the rest of the datagram, and the way decoding ends is kept |
| Events.RecordSize | GunGay/RayConnection.cs:94-131 | every known record takes at least seven bytes, so the cursor always moves forward |
| Events.PrependAppend | GunGay/RayConnection.cs:99-115 | publishing in two batches is publishing their concatenation |
| Events.RecordsFromNext | GunGay/RayConnection.cs:91-135 | a complete known record publishes its events, then decoding continues after it |
| Events.RecordsFromCut | GunGay/RayConnection.cs:101-126 | a record cut short ends decoding as truncated, after the events published so far |
| Events.RecordsFromUnknown | GunGay/RayConnection.cs:132-134 | an unknown opcode ends decoding cleanly |
| Events.MouseAt | GunGay/RayConnection.cs:98-107 | a 0xC2 record publishes buttons, x and y as big-endian words from bytes 0–5 and `Unknown` as byte 0 shifted left by six, or-ed with byte 7, then skips 13 bytes |
| Events.KeyboardAt | GunGay/RayConnection.cs:108-117 | a 0xC1 record publishes `Unknown1` from bytes 0–1, `Shift` from 2–3, six keys from 4–9 and `Unknown2` from 10–11, then skips 17 bytes |
| Events.SilentAt | GunGay/RayConnection.cs:118-131 | 0xC4, 0xC5, 0xC6 and 0xC7 records publish nothing and skip 17, 9, 7 plus their length word, and 29 bytes |
| Events.DecodeRecord | GunGay/RayConnection.cs:93-135 | one pass of the loop body either ends the decoding with the same result or advances the cursor without changing what remains to publish |
| Events.DecodeDatagram | GunGay/RayConnection.cs:89-136 | the cursor loop publishes exactly the events of the datagram and ends as it does |
| Events.RecordBytes | GunGay/RayConnection.cs:93-131 | a record is its opcode, its reserved bytes and its body |
| Events.EncodeRecords | GunGay/RayConnection.cs:91-135 | a non-empty list of records has a non-empty encoding |
| Events.RecordStep | GunGay/RayConnection.cs:93-135 | a well-formed record publishes its events and hands the rest to the next record |
| Events.RecordsAppend | GunGay/RayConnection.cs:91-135 | a sequence of well-formed records publishes their events in order |
| Events.DecodeAfterHeader | GunGay/RayConnection.cs:89 | decoding starts after the 16-byte datagram header |
| Events.DecodeComplete | GunGay/RayConnection.cs:89-136 | a datagram of well-formed records followed by nothing or an unknown opcode decodes completely to their events in order |
| Events.EndComplete | GunGay/RayConnection.cs:132-134 | the end of the datagram or an unknown opcode ends decoding cleanly |
| Events.CompletePrepend | GunGay/RayConnection.cs:91-135 | a clean end keeps the events published before it |
| Events.CutShortTruncates | GunGay/RayConnection.cs:101-126 | a record cut short decodes as truncated with no events of its own |
| Events.TruncatedPrepend | GunGay/RayConnection.cs:101-126 | a truncated end keeps the events published before it |
| Events.DecodeCutShort | GunGay/RayConnection.cs:89-136 | well-formed records followed by one cut short publish their events, then decoding is truncated |
| Events.MouseFields | GunGay/RayConnection.cs:101-104 | a mouse body decodes to the big-endian buttons, x and y it was built from |
| Events.KeyboardFields | GunGay/RayConnection.cs:111-114 | a keyboard body decodes to the `Unknown1`, `Shift`, keys and `Unknown2` it was built from |
| Events.OneMouseThenUnknown | GunGay/RayConnection.cs:89-135 | a datagram holding one mouse record followed by 0xFF yields exactly that one mouse event and ends cleanly |

## Left out

- Sockets and streams are left out. `UdpClient`, `TcpClient`, `StreamReader` and `StreamWriter` are not modelled. The datagrams passed to `SendAsync` are the list `sent`. The lines written are the list `written`. What `ReadLineAsync` returns, or the way it fails, is an `Input` value. `Console.WriteLine` is dropped.
- `async` scheduling is left out. `SendAPDU`, `AllowAccess` and `Disconnect` are each split at their `await` into two members: one writes the request and opens the future; the other reads the completed future. Which other turns of `Do` run in between is left to the caller.
- `_keepalive` is modelled only as one tick that writes `keepAliveInf`. The one-second `Task.Delay`, its loop and its `Connected` test are left out. Starting the keepalive is a notice of the turn.
- The events `OnClientConnect`, `OnCardInsert`, `OnCardRemove` and `OnEvent` are not modelled as delegates:
  - Which of them have subscribers is an input.
  - Invoking them is a notice in the turn's list.
  - Awaiting a card handler and exceptions thrown by handlers are left out.
  - `_readLoop` publishes its events as the returned list instead of calling `OnEvent`.
- The outer loop of `_readLoop` is left out: the model decodes one datagram.
- `_client.Connected` is not read from a socket; a lost connection is the input `NotConnected`.
- Decoding a truncated datagram is modelled as a result, not a throw. In C# it throws `IndexOutOfRangeException` after the earlier records' events have been published, which ends the receive loop. The model returns `Truncated` with those events.
- `ChangePort` does not model disposing and re-creating the UDP client; only the destination port changes.
- `IPAddress.Parse("0x" + realIP)` is modelled as one hexadecimal number below 2^32. The dotted and IPv6 forms the .NET parser also accepts are left out.
- Client.ConnectionServerClient.Redirect: requires a 4-byte address. `MapToIPv4` is left out, and so is `_client.Close()` after the write.
- `int.Parse` and `ushort.Parse` accept only an optional `-` followed by ASCII digits. Culture, surrounding white space, a leading `+` and thousands separators are left out.
- `Convert.ToByte(s, 16)` accepts only hex digits. A leading `+`, which .NET skips, is left out. So is the `ArgumentException` .NET throws on a leading `-`.
- The line framing of `ReadLineAsync` and `WriteLineAsync` is left out. `Codec.ParseLine` takes one line's text. A value containing `\n` or `\r` would be split into two lines. `Codec.Encodable` and the `connInf`/`discInf` lemmas therefore exclude line breaks, and `Codec.RoundTrip` proves the written line has none.
- `null` message types and data are not modelled. `_keepalive` sends `keepAliveInf` with `Data = null`. `Client.ConnectionServerClient.KeepaliveTick` models that tick with empty data, which `_writeMessage` encodes identically, as `"keepAliveInf "`. A `null` `Type` never occurs in the code.
- `Dict.Remove` keeps the remaining entries in order. After a removal, a .NET `Dictionary` may reuse the freed slot, which changes its enumeration order. The only dictionary the model removes from, `_smartcardInfo`, is never enumerated.
- Display.OpcodeData.WPad: requires `off > 0`. In C#, `% 0` throws `DivideByZeroException`, and every caller passes 4.
- Display.RayConnection.ExpandBitmap: requires the bitmap length its `Debug.Assert` checks. A release build, where the assertion is absent, is not modelled.
- Display.RayConnection.SetMouseCursor: requires the bitmap lengths its two `Debug.Assert` calls check. For the same reason, the model does not cover a release build that skips them.
- Client.ConnectionServerClient.SendApdu: the `ensures` names only the three fields it modifies. Every other field is unchanged because of the method's `modifies` frame, not because of its `ensures`.
- Pending futures are not released when the connection ends. The code does not do this, and neither does the model.
- The inline continuation of `SendAPDU` is not modelled. Completing a pending entry (`Session.Dispatch` on `infoSmartCard`) never runs `Session.FinishApdu` in the same turn. The caller runs it between turns, so the model also covers a completed entry that is still in the table, which the default scheduler removes at once.
- DeviceServer and the GodRay demo client are outside the two protocol engines.

