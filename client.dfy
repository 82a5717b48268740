/** `ConnectionServer.ConnectionServerClient`: the per-terminal object whose methods read
    and write session lines and update its properties, futures and tag counter in place.
    Each method is proved against the state machine of `Session`. */
module Client {
  import opened Basics
  import opened Bytes
  import opened Text
  import opened Dict
  import opened Codec
  import opened Apdu
  import opened Session

  /** A turn that ends the loop is the whole of `Run` from there. */
  lemma RunStops(st: State, inputs: seq<Input>, i: nat, subs: Subscribers)
    requires i < |inputs| && Step(st, inputs[i], subs).outcome != Continue
    ensures Run(st, inputs[i..], subs) == Step(st, inputs[i], subs)
  {
    assert inputs[i..][0] == inputs[i];
  }

  /** A turn that continues is followed by `Run` on the remaining inputs. */
  lemma RunContinues(st: State, inputs: seq<Input>, i: nat, subs: Subscribers)
    requires i < |inputs| && Step(st, inputs[i], subs).outcome == Continue
    ensures var t := Step(st, inputs[i], subs);
            var rest := Run(t.state, inputs[i + 1..], subs);
            Run(st, inputs[i..], subs) == Turn(rest.state, t.notices + rest.notices, rest.outcome)
  {
    assert inputs[i..][0] == inputs[i] && inputs[i..][1..] == inputs[i + 1..];
  }

  class ConnectionServerClient {
    var actualIP: Option<u32>
    var firmware: Option<string>
    var hardware: Option<string>
    var startResolution: Option<string>
    var port: i32
    var serialNumber: Option<string>
    var cardType: Option<string>
    var cardId: Option<string>
    var atr: Option<string>
    var atrHistoricLength: i32
    var atrhs: Option<string>
    var tokenSequence: i32

    var isFirst: bool
    var connectionResponse: Option<Future>
    var disconnectionResponse: Option<Future>
    var smartcardInfo: Dict<Future>
    var tagCounter: i32
    /** The lines `_writer` has been given, oldest first. */
    var written: seq<string>

    function Attrs(): Attributes
      reads this`actualIP, this`firmware, this`hardware, this`startResolution, this`port, this`serialNumber
      reads this`cardType, this`cardId, this`atr, this`atrHistoricLength, this`atrhs, this`tokenSequence
    {
      Attributes(actualIP, firmware, hardware, startResolution, port, serialNumber, cardType, cardId,
                 atr, atrHistoricLength, atrhs, tokenSequence)
    }

    function Snapshot(): State
      reads this
    {
      State(Attrs(), isFirst, connectionResponse, disconnectionResponse, smartcardInfo, tagCounter, written)
    }

    constructor()
      ensures Snapshot() == Initial
    {
      actualIP, firmware, hardware, startResolution := None, None, None, None;
      port, serialNumber, cardType, cardId := 0, None, None, None;
      atr, atrHistoricLength, atrhs, tokenSequence := None, 0, None, 0;
      isFirst := true;
      connectionResponse, disconnectionResponse := None, None;
      smartcardInfo, tagCounter, written := [], 0, [];
    }

    /** `_writeMessage`. */
    method WriteMessage(m: Message)
      modifies this`written
      ensures written == old(written) + [EncodeLine(m)]
    {
      written := written + [EncodeLine(m)];
    }

    /** The first four string properties of `_parse`, which cannot throw. */
    method AssignVersions(d: Dict<string>)
      modifies this`firmware, this`hardware, this`cardId, this`serialNumber
      ensures Attrs() == ParseVersions(old(Attrs()), d)
    {
      var fw, hw, id, sn := Lookup(d, "fw"), Lookup(d, "hw"), Lookup(d, "id"), Lookup(d, "sn");
      if fw.Some? { firmware := fw; }
      if hw.Some? { hardware := hw; }
      if id.Some? { cardId := id; }
      if sn.Some? { serialNumber := sn; }
    }

    /** The other two string properties of `_parse`. */
    method AssignDisplay(d: Dict<string>)
      modifies this`startResolution, this`cardType
      ensures Attrs() == ParseDisplay(old(Attrs()), d)
    {
      var startRes, typ := Lookup(d, "startRes"), Lookup(d, "type");
      if startRes.Some? { startResolution := startRes; }
      if typ.Some? { cardType := typ; }
    }

    /** The six string properties of `_parse`, which cannot throw. */
    method AssignStrings(d: Dict<string>)
      modifies this`firmware, this`hardware, this`cardId, this`serialNumber, this`startResolution, this`cardType
      ensures Attrs() == ParseStrings(old(Attrs()), d)
    {
      AssignVersions(d);
      AssignDisplay(d);
    }

    /** `Port = int.Parse(...)` when `pn` is present. */
    method AssignPort(d: Dict<string>) returns (error: Option<Exception>)
      modifies this`port
      ensures PortStep(ParseOutcome(old(Attrs()), None), d) == ParseOutcome(Attrs(), error)
    {
      error := None;
      if Lookup(d, "pn").Some? {
        var pn := ParseInt32(Lookup(d, "pn").value);
        if pn.Throws? {
          return Some(pn.ex);
        }
        port := pn.value;
      }
    }

    /** `TokenSequence = int.Parse(...)` when `tokenSeq` is present. */
    method AssignTokenSequence(d: Dict<string>) returns (error: Option<Exception>)
      modifies this`tokenSequence
      ensures TokenStep(ParseOutcome(old(Attrs()), None), d) == ParseOutcome(Attrs(), error)
    {
      error := None;
      if Lookup(d, "tokenSeq").Some? {
        var ts := ParseInt32(Lookup(d, "tokenSeq").value);
        if ts.Throws? {
          return Some(ts.ex);
        }
        tokenSequence := ts.value;
      }
    }

    /** `ActualIP = IPAddress.Parse("0x" + ...)` when `realIP` is present. */
    method AssignRealIP(d: Dict<string>) returns (error: Option<Exception>)
      modifies this`actualIP
      ensures RealIPStep(ParseOutcome(old(Attrs()), None), d) == ParseOutcome(Attrs(), error)
    {
      error := None;
      if Lookup(d, "realIP").Some? {
        var ip := ParseRealIP(Lookup(d, "realIP").value);
        if ip.Throws? {
          return Some(ip.ex);
        }
        actualIP := Some(ip.value);
      }
    }

    /** `ATR`, then `ATRHistoricLength` and `ATRHS`, when `atr` is present. */
    method AssignAtr(d: Dict<string>) returns (error: Option<Exception>)
      modifies this`atr, this`atrHistoricLength, this`atrhs
      ensures AtrStep(ParseOutcome(old(Attrs()), None), d) == ParseOutcome(Attrs(), error)
    {
      error := None;
      if Lookup(d, "atr").Some? {
        atr := Lookup(d, "atr");
        var histLen := Get(d, "atr.hist_len");
        if histLen.Throws? {
          return Some(histLen.ex);
        }
        var n := ParseInt32(histLen.value);
        if n.Throws? {
          return Some(n.ex);
        }
        atrHistoricLength := n.value;
        var hs := Get(d, "atr.hs");
        if hs.Throws? {
          return Some(hs.ex);
        }
        atrhs := Some(hs.value);
      }
    }

    /** `_parse`: each whitelisted key that is present is assigned in turn; an exception
        leaves the earlier assignments made. */
    method Parse(msg: Message) returns (error: Option<Exception>)
      modifies this`actualIP, this`firmware, this`hardware, this`startResolution, this`port, this`serialNumber
      modifies this`cardType, this`cardId, this`atr, this`atrHistoricLength, this`atrhs, this`tokenSequence
      ensures ApplyParse(old(Attrs()), msg.data) == ParseOutcome(Attrs(), error)
    {
      var d := msg.data;
      AssignStrings(d);
      error := AssignPort(d);
      if error.Some? {
        return;
      }
      error := AssignTokenSequence(d);
      if error.Some? {
        return;
      }
      error := AssignRealIP(d);
      if error.Some? {
        return;
      }
      error := AssignAtr(d);
    }

    /** The `infoReq` branch of `Do`. */
    method OnInfoReq(msg: Message, subs: Subscribers) returns (notices: seq<Notice>, outcome: Outcome)
      requires msg.typ == "infoReq"
      modifies this`isFirst
      ensures Dispatch(old(Snapshot()), msg, subs) == Turn(Snapshot(), notices, outcome)
    {
      DispatchInfoReq(Snapshot(), msg, subs);
      notices := [];
      if isFirst {
        if subs.connect {
          notices := [ClientConnected];
        }
        notices := notices + [KeepaliveStarted];
      }
      isFirst := false;
      var event := Get(msg.data, "event");
      if event.Throws? {
        return notices, Crashed(event.ex);
      }
      if event.value == "insert" && subs.insert {
        notices := notices + [CardInserted];
      } else if event.value == "remove" && subs.remove {
        notices := notices + [CardRemoved];
      }
      return notices, Continue;
    }

    /** The `keepAliveReq` branch of `Do`. */
    method OnKeepAliveReq(msg: Message, subs: Subscribers)
      requires msg.typ == "keepAliveReq"
      modifies this`written
      ensures Dispatch(old(Snapshot()), msg, subs) == Turn(Snapshot(), [], Continue)
    {
      WriteMessage(KeepAliveInf);
    }

    /** The `connRsp` branch of `Do`. */
    method OnConnRsp(msg: Message, subs: Subscribers) returns (outcome: Outcome)
      requires msg.typ == "connRsp"
      modifies this`connectionResponse
      ensures Dispatch(old(Snapshot()), msg, subs) == Turn(Snapshot(), [], outcome)
    {
      DispatchConnRsp(Snapshot(), msg, subs);
      if connectionResponse.Some? {
        var f := SetResult(connectionResponse.value, msg);
        if f.Throws? {
          return Crashed(f.ex);
        }
        connectionResponse := Some(f.value);
      }
      return Continue;
    }

    /** The `discRsp` branch of `Do`. */
    method OnDiscRsp(msg: Message, subs: Subscribers) returns (outcome: Outcome)
      requires msg.typ == "discRsp"
      modifies this`disconnectionResponse
      ensures Dispatch(old(Snapshot()), msg, subs) == Turn(Snapshot(), [], outcome)
    {
      DispatchDiscRsp(Snapshot(), msg, subs);
      if disconnectionResponse.Some? {
        var f := SetResult(disconnectionResponse.value, msg);
        if f.Throws? {
          return Crashed(f.ex);
        }
        disconnectionResponse := Some(f.value);
      }
      return Continue;
    }

    /** The `infoSmartCard` branch of `Do`. */
    method OnInfoSmartCard(msg: Message, subs: Subscribers) returns (outcome: Outcome)
      requires msg.typ == "infoSmartCard"
      modifies this`smartcardInfo
      ensures Dispatch(old(Snapshot()), msg, subs) == Turn(Snapshot(), [], outcome)
    {
      DispatchInfoSmartCard(Snapshot(), msg, subs);
      var tag := Lookup(msg.data, "tag");
      if tag.Some? {
        var entry := Lookup(smartcardInfo, tag.value);
        if entry.Some? {
          var f := SetResult(entry.value, msg);
          if f.Throws? {
            return Crashed(f.ex);
          }
          smartcardInfo := Insert(smartcardInfo, tag.value, f.value);
        }
      }
      return Continue;
    }

    /** The `switch (msg.Type)` of `Do`. */
    method DispatchMessage(msg: Message, subs: Subscribers) returns (notices: seq<Notice>, outcome: Outcome)
      modifies this`isFirst, this`written, this`connectionResponse, this`disconnectionResponse, this`smartcardInfo
      ensures Dispatch(old(Snapshot()), msg, subs) == Turn(Snapshot(), notices, outcome)
    {
      notices, outcome := [], Continue;
      if msg.typ == "infoReq" {
        notices, outcome := OnInfoReq(msg, subs);
      } else if msg.typ == "keepAliveReq" {
        OnKeepAliveReq(msg, subs);
      } else if msg.typ == "connRsp" {
        outcome := OnConnRsp(msg, subs);
      } else if msg.typ == "discRsp" {
        outcome := OnDiscRsp(msg, subs);
      } else if msg.typ == "infoSmartCard" {
        outcome := OnInfoSmartCard(msg, subs);
      }
    }

    /** What the loop does with a message it has read: parse its data into the
        properties, then dispatch on its type. */
    method Receive(msg: Message, subs: Subscribers) returns (notices: seq<Notice>, outcome: Outcome)
      modifies this
      ensures Session.Receive(old(Snapshot()), msg, subs) == Turn(Snapshot(), notices, outcome)
    {
      ghost var st := Snapshot();
      var error := Parse(msg);
      ghost var st1 := Snapshot();
      assert st1 == st.(attrs := ApplyParse(st.attrs, msg.data).attrs);
      if error.Some? {
        return [], Crashed(error.value);
      }
      notices, outcome := DispatchMessage(msg, subs);
    }

    /** A turn on a line that has been read: parse it into a message, then receive it. */
    method HandleLine(text: string, subs: Subscribers) returns (notices: seq<Notice>, outcome: Outcome)
      modifies this
      ensures Step(old(Snapshot()), Line(text), subs) == Turn(Snapshot(), notices, outcome)
    {
      var read := ReadMessage(text);
      if read.Throws? {
        return [], Crashed(read.ex);
      }
      notices, outcome := Receive(read.value, subs);
    }

    /** One turn of `Do`: the connection test, then the read. */
    method HandleInput(input: Input, subs: Subscribers) returns (notices: seq<Notice>, outcome: Outcome)
      modifies this
      ensures Step(old(Snapshot()), input, subs) == Turn(Snapshot(), notices, outcome)
    {
      match input
      case NotConnected => return [], Stopped;
      case ReadFailed => return [], Stopped;
      case EndOfStream => return [], Crashed(NullReference);
      case Line(text) => notices, outcome := HandleLine(text, subs);
    }

    /** The `Do` loop over the inputs it is given, until one of them ends it. */
    method Do(inputs: seq<Input>, subs: Subscribers) returns (notices: seq<Notice>, outcome: Outcome)
      modifies this
      ensures Run(old(Snapshot()), inputs, subs) == Turn(Snapshot(), notices, outcome)
    {
      ghost var whole := Run(Snapshot(), inputs, subs);
      ghost var current := Snapshot();
      notices := [];
      var i := 0;
      while i < |inputs|
        invariant 0 <= i <= |inputs|
        invariant current == Snapshot()
        invariant Run(current, inputs[i..], subs).state == whole.state
        invariant whole.notices == notices + Run(current, inputs[i..], subs).notices
        invariant Run(current, inputs[i..], subs).outcome == whole.outcome
      {
        var n, o := HandleInput(inputs[i], subs);
        ghost var next := Snapshot();
        if o != Continue {
          RunStops(current, inputs, i, subs);
          return notices + n, o;
        }
        RunContinues(current, inputs, i, subs);
        ghost var r := Run(next, inputs[i + 1..], subs);
        assert notices + (n + r.notices) == (notices + n) + r.notices;
        notices := notices + n;
        current := next;
        i := i + 1;
      }
      assert inputs[i..] == [];
      assert notices + [] == notices;
      return notices, Continue;
    }

    /** A tick of `_keepalive`: a `keepAliveInf` with no data. */
    method KeepaliveTick()
      modifies this`written
      ensures written == old(written) + ["keepAliveInf "]
    {
      KeepAliveLine();
      WriteMessage(KeepAliveInf);
    }

    /** `"gungay:" + (++_tagCounter)`. */
    method NextTag() returns (t: string)
      modifies this`tagCounter
      ensures tagCounter == NextCounter(old(tagCounter)) && t == Tag(tagCounter)
    {
      tagCounter := NextCounter(tagCounter);
      t := Tag(tagCounter);
    }

    /** The part of `SendAPDU` before its `await` on the reply: bump the counter, build
        the request, store a waiting entry under its tag and write it. The three fields
        take their values in `BeginApdu`, and the modifies clause keeps every other one. */
    method SendApdu(cla: byte, ins: byte, p1p2: seq<byte>, data: seq<byte>, expectedLength: i32)
      returns (tag: Result<string>)
      modifies this`tagCounter, this`smartcardInfo, this`written
      ensures var r := BeginApdu(old(Snapshot()), cla, ins, p1p2, data, expectedLength);
              && tagCounter == r.state.tagCounter && smartcardInfo == r.state.pending && written == r.state.written
              && tag == r.tag
    {
      var t := NextTag();
      var request := Request(t, cla, ins, p1p2, data, expectedLength);
      if request.Throws? {
        return Throws(request.ex);
      }
      smartcardInfo := Insert(smartcardInfo, t, Waiting);
      WriteMessage(request.value);
      return Ok(t);
    }

    /** The part of `SendAPDU` after its future has been completed: remove the entry and
        decode the reply. */
    method ApduResult(tag: string) returns (r: Result<Option<ApduResponse>>)
      requires Lookup(smartcardInfo, tag).Some? && Lookup(smartcardInfo, tag).value.Completed?
      modifies this`smartcardInfo
      ensures Snapshot() == FinishApdu(old(Snapshot()), tag).state
      ensures r == FinishApdu(old(Snapshot()), tag).response
    {
      var reply := Lookup(smartcardInfo, tag).value.reply;
      smartcardInfo := Remove(smartcardInfo, tag);
      var result := Get(reply.data, "apdu_result");
      if result.Throws? {
        return Throws(result.ex);
      }
      if result.value != "1" {
        return Ok(None);
      }
      var recData := Get(reply.data, "rec_data");
      if recData.Throws? {
        return Throws(recData.ex);
      }
      var bytes := HexDecodeLoop(recData.value);
      if bytes.Throws? {
        return Throws(bytes.ex);
      }
      var status := Get(reply.data, "status");
      if status.Throws? {
        return Throws(status.ex);
      }
      var sw1 := StatusByte(status.value, 0);
      if sw1.Throws? {
        return Throws(sw1.ex);
      }
      var sw2 := StatusByte(status.value, 2);
      if sw2.Throws? {
        return Throws(sw2.ex);
      }
      var recLen := Get(reply.data, "rec_len");
      if recLen.Throws? {
        return Throws(recLen.ex);
      }
      var n := ParseInt32(recLen.value);
      if n.Throws? {
        return Throws(n.ex);
      }
      return Ok(Some(ApduResponse(bytes.value, sw1.value, sw2.value, n.value)));
    }

    /** The part of `AllowAccess` before its `await`: a new slot and the `connInf` line. */
    method AllowAccess(moduleName: string)
      modifies this
      ensures Snapshot() == Session.AllowAccess(old(Snapshot()), moduleName)
    {
      connectionResponse := Some(Waiting);
      WriteMessage(Message("connInf", [("tokenSeq", IntString(tokenSequence)), ("module", moduleName),
                                       ("access", "allowed")]));
    }

    /** The port `AllowAccess` returns once its slot has been completed. */
    method AllowAccessResult() returns (r: Result<u16>)
      requires connectionResponse.Some? && connectionResponse.value.Completed?
      ensures r == ResponsePort(connectionResponse.value.reply)
    {
      var pn := Get(connectionResponse.value.reply.data, "pn");
      if pn.Throws? {
        return Throws(pn.ex);
      }
      return ParseUInt16(pn.value);
    }

    /** The part of `Disconnect` before its `await`: a new slot and the `discInf` line. */
    method Disconnect(cause: string)
      modifies this
      ensures Snapshot() == Session.Disconnect(old(Snapshot()), cause)
    {
      disconnectionResponse := Some(Waiting);
      WriteMessage(Message("discInf", [("tokenSeq", IntString(tokenSequence)), ("cause", cause),
                                       ("access", "denied")]));
    }

    /** The port `Disconnect` returns once its slot has been completed. */
    method DisconnectResult() returns (r: Result<u16>)
      requires disconnectionResponse.Some? && disconnectionResponse.value.Completed?
      ensures r == ResponsePort(disconnectionResponse.value.reply)
    {
      var pn := Get(disconnectionResponse.value.reply.data, "pn");
      if pn.Throws? {
        return Throws(pn.ex);
      }
      return ParseUInt16(pn.value);
    }

    /** `Redirect`, given the four bytes of the IPv4 address. */
    method Redirect(address: seq<byte>, authport: u16)
      requires |address| == 4
      modifies this`written
      ensures Snapshot() == Session.Redirect(old(Snapshot()), address, authport)
    {
      WriteMessage(Message("redirectInf", [("authipa", HexString(address)), ("authport", NatString(authport))]));
    }
  }
}
