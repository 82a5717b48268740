/** The session channel of one terminal (`ConnectionServer.ConnectionServerClient`) as
    a state machine: what `_parse` does to the terminal's attributes, what one turn of
    the `Do` loop does with a line it has read, and the messages `AllowAccess`,
    `Disconnect`, `Redirect` and `SendAPDU` write. */
module Session {
  import opened Basics
  import opened Bytes
  import opened Text
  import opened Dict
  import opened Codec
  import opened Apdu

  // ---------------------------------------------------------------------------
  // Attributes and `_parse`

  /** The public properties `_parse` assigns, plus the private `TokenSequence`. A string
      property that was never assigned is `null`, an `int` one is 0. */
  datatype Attributes = Attributes(
    actualIP: Option<u32>,
    firmware: Option<string>,
    hardware: Option<string>,
    startResolution: Option<string>,
    port: i32,
    serialNumber: Option<string>,
    cardType: Option<string>,
    cardId: Option<string>,
    atr: Option<string>,
    atrHistoricLength: i32,
    atrhs: Option<string>,
    tokenSequence: i32)

  const Unset := Attributes(None, None, None, None, 0, None, None, None, None, 0, None, 0)

  /** The attributes after `_parse`, and the exception that stopped it part way, if any:
      the assignments made before the exception stay made. */
  datatype ParseOutcome = ParseOutcome(attrs: Attributes, error: Option<Exception>)

  /** `IPAddress.Parse("0x" + s)`, read as one hexadecimal number of at most 32 bits. */
  function ParseRealIP(s: string): (r: Result<u32>)
    ensures r.Ok? <==> |s| > 0 && (forall i :: 0 <= i < |s| ==> IsHexDigit(s[i])) && HexDigitsValue(s) < 0x1_0000_0000
  {
    if |s| > 0 && forall i :: 0 <= i < |s| ==> IsHexDigit(s[i]) then
      var v := HexDigitsValue(s);
      if v < 0x1_0000_0000 then Ok(v) else Throws(Format)
    else Throws(Format)
  }

  /** A string property: the value under `key` when the key is present. */
  function StringField(d: Dict<string>, key: string, current: Option<string>): Option<string> {
    match Lookup(d, key)
    case Some(v) => Some(v)
    case None => current
  }

  /** An `int` property: `int.Parse` of the value under `key` when the key is present. */
  function IntField(d: Dict<string>, key: string, current: i32): Result<i32> {
    match Lookup(d, key)
    case Some(v) => ParseInt32(v)
    case None => Ok(current)
  }

  function RealIPField(d: Dict<string>, current: Option<u32>): Result<Option<u32>> {
    match Lookup(d, "realIP")
    case Some(v) => (match ParseRealIP(v) case Ok(ip) => Ok(Some(ip)) case Throws(e) => Throws(e))
    case None => Ok(current)
  }

  /** The string properties, which `_parse` assigns first and which cannot fail. */
  function ParseStrings(a: Attributes, d: Dict<string>): Attributes {
    ParseDisplay(ParseVersions(a, d), d)
  }

  /** `fw`, `hw`, `id` and `sn`. */
  function ParseVersions(a: Attributes, d: Dict<string>): Attributes {
    a.(firmware := StringField(d, "fw", a.firmware),
       hardware := StringField(d, "hw", a.hardware),
       cardId := StringField(d, "id", a.cardId),
       serialNumber := StringField(d, "sn", a.serialNumber))
  }

  /** `startRes` and `type`. */
  function ParseDisplay(a: Attributes, d: Dict<string>): Attributes {
    a.(startResolution := StringField(d, "startRes", a.startResolution),
       cardType := StringField(d, "type", a.cardType))
  }

  /** `pn`, unless an earlier step has thrown. */
  function PortStep(o: ParseOutcome, d: Dict<string>): (r: ParseOutcome)
    ensures o.error.Some? ==> r == o
    ensures r.attrs == o.attrs.(port := r.attrs.port)
    ensures o.error.None? ==> (r.error.None? <==> (HasKey(d, "pn") ==> ParseInt32(Lookup(d, "pn").value).Ok?))
    ensures o.error.None? && r.error.None? ==>
              r.attrs.port == if HasKey(d, "pn") then ParseInt32(Lookup(d, "pn").value).value else o.attrs.port
  {
    if o.error.Some? then o
    else
      match IntField(d, "pn", o.attrs.port)
      case Throws(e) => ParseOutcome(o.attrs, Some(e))
      case Ok(pn) => ParseOutcome(o.attrs.(port := pn), None)
  }

  /** `tokenSeq`, unless an earlier step has thrown. */
  function TokenStep(o: ParseOutcome, d: Dict<string>): (r: ParseOutcome)
    ensures o.error.Some? ==> r == o
    ensures r.attrs == o.attrs.(tokenSequence := r.attrs.tokenSequence)
    ensures o.error.None? ==> (r.error.None? <==> (HasKey(d, "tokenSeq") ==> ParseInt32(Lookup(d, "tokenSeq").value).Ok?))
    ensures o.error.None? && r.error.None? ==>
              r.attrs.tokenSequence
              == if HasKey(d, "tokenSeq") then ParseInt32(Lookup(d, "tokenSeq").value).value else o.attrs.tokenSequence
  {
    if o.error.Some? then o
    else
      match IntField(d, "tokenSeq", o.attrs.tokenSequence)
      case Throws(e) => ParseOutcome(o.attrs, Some(e))
      case Ok(ts) => ParseOutcome(o.attrs.(tokenSequence := ts), None)
  }

  /** `realIP`, unless an earlier step has thrown. */
  function RealIPStep(o: ParseOutcome, d: Dict<string>): (r: ParseOutcome)
    ensures o.error.Some? ==> r == o
    ensures r.attrs == o.attrs.(actualIP := r.attrs.actualIP)
    ensures o.error.None? ==> (r.error.None? <==> (HasKey(d, "realIP") ==> ParseRealIP(Lookup(d, "realIP").value).Ok?))
    ensures o.error.None? && r.error.None? ==>
              r.attrs.actualIP
              == if HasKey(d, "realIP") then Some(ParseRealIP(Lookup(d, "realIP").value).value) else o.attrs.actualIP
  {
    if o.error.Some? then o
    else
      match RealIPField(d, o.attrs.actualIP)
      case Throws(e) => ParseOutcome(o.attrs, Some(e))
      case Ok(ip) => ParseOutcome(o.attrs.(actualIP := ip), None)
  }

  /** `atr`, then the `atr.hist_len` and `atr.hs` the source reads without checking,
      unless an earlier step has thrown. */
  function AtrStep(o: ParseOutcome, d: Dict<string>): (r: ParseOutcome)
    ensures o.error.Some? ==> r == o
    ensures r.attrs == o.attrs.(atr := r.attrs.atr, atrHistoricLength := r.attrs.atrHistoricLength, atrhs := r.attrs.atrhs)
    ensures o.error.None? ==> (r.error.None? <==>
              (HasKey(d, "atr") ==> HasKey(d, "atr.hist_len") && ParseInt32(Lookup(d, "atr.hist_len").value).Ok? && HasKey(d, "atr.hs")))
    ensures o.error.None? ==> r.attrs.atr == if HasKey(d, "atr") then Lookup(d, "atr") else o.attrs.atr
    ensures o.error.None? && r.error.None? && HasKey(d, "atr") ==>
              r.attrs.atrHistoricLength == ParseInt32(Lookup(d, "atr.hist_len").value).value
              && r.attrs.atrhs == Lookup(d, "atr.hs")
    ensures o.error.None? && HasKey(d, "atr") && !HasKey(d, "atr.hist_len") ==> r.error == Some(KeyNotFound("atr.hist_len"))
  {
    if o.error.Some? then o
    else
      match Lookup(d, "atr")
      case None => o
      case Some(atr) =>
        var a1 := o.attrs.(atr := Some(atr));
        match Get(d, "atr.hist_len")
        case Throws(e) => ParseOutcome(a1, Some(e))
        case Ok(h) =>
          match ParseInt32(h)
          case Throws(e) => ParseOutcome(a1, Some(e))
          case Ok(n) =>
            var a2 := a1.(atrHistoricLength := n);
            match Get(d, "atr.hs")
            case Throws(e) => ParseOutcome(a2, Some(e))
            case Ok(hs) => ParseOutcome(a2.(atrhs := Some(hs)), None)
  }

  /** `_parse`: the whitelisted keys in the order the source tests them. */
  function ApplyParse(a: Attributes, d: Dict<string>): ParseOutcome {
    AtrStep(RealIPStep(TokenStep(PortStep(ParseOutcome(ParseStrings(a, d), None), d), d), d), d)
  }

  /** The keys `_parse` looks at. */
  predicate Whitelisted(k: string) {
    k in {"fw", "hw", "id", "sn", "startRes", "type", "pn", "tokenSeq", "realIP", "atr"}
  }

  /** Whether every present numeric key parses and `atr` comes with its companions. */
  predicate Parsable(d: Dict<string>) {
    && (HasKey(d, "pn") ==> ParseInt32(Lookup(d, "pn").value).Ok?)
    && (HasKey(d, "tokenSeq") ==> ParseInt32(Lookup(d, "tokenSeq").value).Ok?)
    && (HasKey(d, "realIP") ==> ParseRealIP(Lookup(d, "realIP").value).Ok?)
    && (HasKey(d, "atr") ==>
          HasKey(d, "atr.hist_len") && ParseInt32(Lookup(d, "atr.hist_len").value).Ok? && HasKey(d, "atr.hs"))
  }

  /** `_parse` completes exactly when the data is `Parsable`. */
  lemma ParseSucceeds(a: Attributes, d: Dict<string>)
    ensures ApplyParse(a, d).error.None? <==> Parsable(d)
  {
  }

  /** Each string property is the value of its key when the key is present and is
      unchanged otherwise, whether or not `_parse` completes. */
  lemma ParseStringProperties(a: Attributes, d: Dict<string>)
    ensures var r := ApplyParse(a, d).attrs;
            && r.firmware == (if HasKey(d, "fw") then Lookup(d, "fw") else a.firmware)
            && r.hardware == (if HasKey(d, "hw") then Lookup(d, "hw") else a.hardware)
            && r.cardId == (if HasKey(d, "id") then Lookup(d, "id") else a.cardId)
            && r.serialNumber == (if HasKey(d, "sn") then Lookup(d, "sn") else a.serialNumber)
            && r.startResolution == (if HasKey(d, "startRes") then Lookup(d, "startRes") else a.startResolution)
            && r.cardType == (if HasKey(d, "type") then Lookup(d, "type") else a.cardType)
  {
  }

  /** When `_parse` completes, every other property is set from its key exactly when the
      key is present; `pn`, `tokenSeq` and `atr.hist_len` are read as decimal numbers. */
  lemma ParseOtherProperties(a: Attributes, d: Dict<string>)
    requires Parsable(d)
    ensures var r := ApplyParse(a, d).attrs;
            && r.port == (if HasKey(d, "pn") then ParseInt32(Lookup(d, "pn").value).value else a.port)
            && r.tokenSequence == (if HasKey(d, "tokenSeq") then ParseInt32(Lookup(d, "tokenSeq").value).value else a.tokenSequence)
            && r.actualIP == (if HasKey(d, "realIP") then Some(ParseRealIP(Lookup(d, "realIP").value).value) else a.actualIP)
            && r.atr == (if HasKey(d, "atr") then Lookup(d, "atr") else a.atr)
            && r.atrHistoricLength == (if HasKey(d, "atr") then ParseInt32(Lookup(d, "atr.hist_len").value).value else a.atrHistoricLength)
            && r.atrhs == (if HasKey(d, "atr") then Lookup(d, "atr.hs") else a.atrhs)
  {
  }

  /** Data with none of the whitelisted keys leaves every property unchanged. */
  lemma ParseIgnoresOtherKeys(a: Attributes, d: Dict<string>)
    requires forall i :: 0 <= i < |d| ==> !Whitelisted(d[i].0)
    ensures ApplyParse(a, d) == ParseOutcome(a, None)
  {
    forall k | Whitelisted(k)
      ensures !HasKey(d, k)
    {
    }
  }

  /** An `atr` without `atr.hist_len` stores the `atr` and then throws. */
  lemma AtrWithoutHistLength(a: Attributes, d: Dict<string>)
    requires HasKey(d, "atr") && !HasKey(d, "atr.hist_len")
    requires !HasKey(d, "pn") && !HasKey(d, "tokenSeq") && !HasKey(d, "realIP")
    ensures ApplyParse(a, d).error == Some(KeyNotFound("atr.hist_len"))
    ensures ApplyParse(a, d).attrs.atr == Lookup(d, "atr")
  {
  }

  // ---------------------------------------------------------------------------
  // Futures and the state of the `Do` loop

  /** A `TaskCompletionSource<Message>`: waiting, or completed with a message. */
  datatype Future = Waiting | Completed(reply: Message)

  /** `SetResult`, which throws on a future that is already completed. */
  function SetResult(f: Future, m: Message): (r: Result<Future>)
    ensures r.Ok? <==> f == Waiting
    ensures r.Ok? ==> r.value == Completed(m)
    ensures r.Throws? ==> r.ex == InvalidOperation
  {
    if f.Waiting? then Ok(Completed(m)) else Throws(InvalidOperation)
  }

  /** The per-terminal state: the attributes, `_isFirst`, the two response slots (`null`
      until `AllowAccess` or `Disconnect` creates them), the pending APDU table keyed by
      tag, `_tagCounter`, and the lines written so far. */
  datatype State = State(
    attrs: Attributes,
    isFirst: bool,
    connResponse: Option<Future>,
    discResponse: Option<Future>,
    pending: Dict<Future>,
    tagCounter: i32,
    written: seq<string>)

  const Initial := State(Unset, true, None, None, [], 0, [])

  /** What the loop gets from `_reader` at the top of a turn; `NotConnected` is the
      `_client.Connected` test failing before the read. */
  datatype Input = Line(text: string) | EndOfStream | ReadFailed | NotConnected

  /** Which of `OnClientConnect`, `OnCardInsert` and `OnCardRemove` have subscribers. */
  datatype Subscribers = Subscribers(connect: bool, insert: bool, remove: bool)

  /** The callbacks a turn makes. */
  datatype Notice = ClientConnected | KeepaliveStarted | CardInserted | CardRemoved

  /** `Continue` goes round the loop again; `Stopped` leaves it quietly (the connection
      test or a caught `IOException`); `Crashed` is an exception escaping `Do`. */
  datatype Outcome = Continue | Stopped | Crashed(ex: Exception)

  datatype Turn = Turn(state: State, notices: seq<Notice>, outcome: Outcome)

  const KeepAliveInf := Message("keepAliveInf", [])

  /** The line the `keepAliveReq` reply and each keepalive tick write. */
  lemma KeepAliveLine()
    ensures EncodeLine(KeepAliveInf) == "keepAliveInf "
  {
    assert !IsWhiteSpace(KeepAliveInf.typ[0]);
    EmptyDataRejected(KeepAliveInf);
  }

  /** The callbacks of an `infoReq`: the connect notification and the keepalive start on
      the first one only. */
  function Greeting(isFirst: bool, subs: Subscribers): seq<Notice> {
    if isFirst then (if subs.connect then [ClientConnected] else []) + [KeepaliveStarted] else []
  }

  /** One turn of the `Do` loop on a message that has been parsed into `st.attrs`. */
  function Dispatch(st: State, msg: Message, subs: Subscribers): Turn {
    if msg.typ == "infoReq" then
      var notices := Greeting(st.isFirst, subs);
      var st1 := st.(isFirst := false);
      match Get(msg.data, "event")
      case Throws(e) => Turn(st1, notices, Crashed(e))
      case Ok(ev) =>
        if ev == "insert" && subs.insert then Turn(st1, notices + [CardInserted], Continue)
        else if ev == "remove" && subs.remove then Turn(st1, notices + [CardRemoved], Continue)
        else Turn(st1, notices, Continue)
    else if msg.typ == "keepAliveReq" then
      Turn(st.(written := st.written + [EncodeLine(KeepAliveInf)]), [], Continue)
    else if msg.typ == "connRsp" then
      match st.connResponse
      case None => Turn(st, [], Continue)
      case Some(f) =>
        match SetResult(f, msg)
        case Throws(e) => Turn(st, [], Crashed(e))
        case Ok(f1) => Turn(st.(connResponse := Some(f1)), [], Continue)
    else if msg.typ == "discRsp" then
      match st.discResponse
      case None => Turn(st, [], Continue)
      case Some(f) =>
        match SetResult(f, msg)
        case Throws(e) => Turn(st, [], Crashed(e))
        case Ok(f1) => Turn(st.(discResponse := Some(f1)), [], Continue)
    else if msg.typ == "infoSmartCard" then
      match Lookup(msg.data, "tag")
      case None => Turn(st, [], Continue)
      case Some(tag) =>
        match Lookup(st.pending, tag)
        case None => Turn(st, [], Continue)
        case Some(f) =>
          match SetResult(f, msg)
          case Throws(e) => Turn(st, [], Crashed(e))
          case Ok(f1) => Turn(st.(pending := Insert(st.pending, tag, f1)), [], Continue)
    else Turn(st, [], Continue)
  }

  /** What the loop does with a message it has read: `_parse` its data, then dispatch on its type. */
  function Receive(st: State, msg: Message, subs: Subscribers): Turn {
    var p := ApplyParse(st.attrs, msg.data);
    var st1 := st.(attrs := p.attrs);
    if p.error.Some? then Turn(st1, [], Crashed(p.error.value))
    else Dispatch(st1, msg, subs)
  }

  /** One turn of the `Do` loop. */
  function Step(st: State, input: Input, subs: Subscribers): Turn {
    match input
    case NotConnected => Turn(st, [], Stopped)
    case ReadFailed => Turn(st, [], Stopped)
    case EndOfStream => Turn(st, [], Crashed(NullReference))
    case Line(text) =>
      match ParseLine(text)
      case Throws(e) => Turn(st, [], Crashed(e))
      case Ok(msg) => Receive(st, msg, subs)
  }

  /** The `Do` loop over a sequence of inputs, until one of them ends it. */
  function Run(st: State, inputs: seq<Input>, subs: Subscribers): Turn
    decreases |inputs|
  {
    if inputs == [] then Turn(st, [], Continue)
    else
      var t := Step(st, inputs[0], subs);
      if t.outcome != Continue then t
      else
        var rest := Run(t.state, inputs[1..], subs);
        Turn(rest.state, t.notices + rest.notices, rest.outcome)
  }

  // ---------------------------------------------------------------------------
  // Properties of the loop

  /** The message of a line the loop parses completely. */
  predicate Reads(input: Input, msg: Message) {
    input.Line? && ParseLine(input.text) == Ok(msg)
  }

  /** A line that parses into data `_parse` accepts goes on to the dispatch. */
  lemma StepReads(st: State, input: Input, msg: Message, subs: Subscribers)
    requires Reads(input, msg) && Parsable(msg.data)
    ensures Step(st, input, subs) == Dispatch(st.(attrs := ApplyParse(st.attrs, msg.data).attrs), msg, subs)
  {
    ParseSucceeds(st.attrs, msg.data);
  }

  /** Every message but `infoReq` leaves `_isFirst` and the attributes alone and makes
      no callback. */
  lemma DispatchOther(st: State, msg: Message, subs: Subscribers)
    requires msg.typ != "infoReq"
    ensures var t := Dispatch(st, msg, subs);
            && t.notices == [] && t.state.isFirst == st.isFirst && t.state.attrs == st.attrs
            && t.state.tagCounter == st.tagCounter
  {
  }

  /** An `infoReq` clears `_isFirst`, greets if it was set, and then reads `event`. */
  lemma DispatchInfoReq(st: State, msg: Message, subs: Subscribers)
    requires msg.typ == "infoReq"
    ensures var t := Dispatch(st, msg, subs);
            var g := Greeting(st.isFirst, subs);
            && t.state == st.(isFirst := false)
            && (!HasKey(msg.data, "event") ==> t.notices == g && t.outcome == Crashed(KeyNotFound("event")))
            && (HasKey(msg.data, "event") ==>
                  (var ev := Lookup(msg.data, "event").value;
                   && t.outcome == Continue
                   && t.notices == g + (if ev == "insert" && subs.insert then [CardInserted]
                                        else if ev == "remove" && subs.remove then [CardRemoved] else [])))
  {
  }

  /** The connect notification and the keepalive start happen on an `infoReq` while
      `_isFirst` holds, and every `infoReq` clears `_isFirst`; nothing else touches it. */
  lemma DispatchGreetsOnce(st: State, msg: Message, subs: Subscribers)
    ensures var t := Dispatch(st, msg, subs);
            && t.state.isFirst == (st.isFirst && msg.typ != "infoReq")
            && (KeepaliveStarted in t.notices <==> st.isFirst && msg.typ == "infoReq")
            && (ClientConnected in t.notices <==> st.isFirst && msg.typ == "infoReq" && subs.connect)
  {
    if msg.typ == "infoReq" {
      DispatchInfoReq(st, msg, subs);
    } else {
      DispatchOther(st, msg, subs);
    }
  }

  lemma InfoReqGreetsOnce(st: State, input: Input, msg: Message, subs: Subscribers)
    requires Reads(input, msg) && Parsable(msg.data)
    ensures var t := Step(st, input, subs);
            && t.state.isFirst == (st.isFirst && msg.typ != "infoReq")
            && (KeepaliveStarted in t.notices <==> st.isFirst && msg.typ == "infoReq")
            && (ClientConnected in t.notices <==> st.isFirst && msg.typ == "infoReq" && subs.connect)
  {
    StepReads(st, input, msg, subs);
    DispatchGreetsOnce(st.(attrs := ApplyParse(st.attrs, msg.data).attrs), msg, subs);
  }

  /** A turn whose `_isFirst` is already false greets nobody and leaves it false. */
  lemma StepNotFirst(st: State, input: Input, subs: Subscribers)
    requires !st.isFirst
    ensures var t := Step(st, input, subs);
            && !t.state.isFirst && KeepaliveStarted !in t.notices && ClientConnected !in t.notices
  {
    if input.Line? && ParseLine(input.text).Ok? {
      ReceiveNotFirst(st, ParseLine(input.text).value, subs);
    }
  }

  lemma ReceiveNotFirst(st: State, msg: Message, subs: Subscribers)
    requires !st.isFirst
    ensures var t := Receive(st, msg, subs);
            && !t.state.isFirst && KeepaliveStarted !in t.notices && ClientConnected !in t.notices
  {
    var p := ApplyParse(st.attrs, msg.data);
    if p.error.None? {
      DispatchGreetsOnce(st.(attrs := p.attrs), msg, subs);
    }
  }

  /** Once `_isFirst` is false it stays false, and no later turn greets again. */
  lemma {:induction false} NotFirstForGood(st: State, inputs: seq<Input>, subs: Subscribers)
    requires !st.isFirst
    ensures var t := Run(st, inputs, subs);
            && !t.state.isFirst && KeepaliveStarted !in t.notices && ClientConnected !in t.notices
    decreases |inputs|
  {
    if inputs != [] {
      var t := Step(st, inputs[0], subs);
      StepNotFirst(st, inputs[0], subs);
      if t.outcome == Continue {
        NotFirstForGood(t.state, inputs[1..], subs);
      }
    }
  }

  /** An `infoReq` without an `event` key throws, after the greeting. */
  lemma InfoReqNeedsEvent(st: State, input: Input, msg: Message, subs: Subscribers)
    requires Reads(input, msg) && Parsable(msg.data)
    requires msg.typ == "infoReq" && !HasKey(msg.data, "event")
    ensures Step(st, input, subs).outcome == Crashed(KeyNotFound("event"))
  {
    StepReads(st, input, msg, subs);
    DispatchInfoReq(st.(attrs := ApplyParse(st.attrs, msg.data).attrs), msg, subs);
  }

  /** Card callbacks fire on an `infoReq` whose `event` names them, when subscribed. */
  lemma DispatchCardEvents(st: State, msg: Message, subs: Subscribers)
    requires msg.typ == "infoReq" && HasKey(msg.data, "event")
    ensures var t := Dispatch(st, msg, subs);
            && t.outcome == Continue
            && (CardInserted in t.notices <==> Lookup(msg.data, "event") == Some("insert") && subs.insert)
            && (CardRemoved in t.notices <==> Lookup(msg.data, "event") == Some("remove") && subs.remove)
  {
    DispatchInfoReq(st, msg, subs);
  }

  lemma InfoReqCardEvents(st: State, input: Input, msg: Message, subs: Subscribers)
    requires Reads(input, msg) && Parsable(msg.data) && msg.typ == "infoReq" && HasKey(msg.data, "event")
    ensures var t := Step(st, input, subs);
            && t.outcome == Continue
            && (CardInserted in t.notices <==> Lookup(msg.data, "event") == Some("insert") && subs.insert)
            && (CardRemoved in t.notices <==> Lookup(msg.data, "event") == Some("remove") && subs.remove)
  {
    StepReads(st, input, msg, subs);
    DispatchCardEvents(st.(attrs := ApplyParse(st.attrs, msg.data).attrs), msg, subs);
  }

  /** A `keepAliveReq` is answered by exactly one `keepAliveInf` line with empty data,
      and nothing but the attributes changes. */
  lemma KeepAliveAnswered(st: State, input: Input, msg: Message, subs: Subscribers)
    requires Reads(input, msg) && Parsable(msg.data) && msg.typ == "keepAliveReq"
    ensures var t := Step(st, input, subs);
            && t.outcome == Continue && t.notices == []
            && t.state == st.(attrs := ApplyParse(st.attrs, msg.data).attrs, written := st.written + ["keepAliveInf "])
  {
    StepReads(st, input, msg, subs);
    KeepAliveLine();
  }

  /** What a `connRsp` does to the connection slot: completes it if `AllowAccess` has
      created it and it is waiting, ignores the message if there is no slot, and throws
      if the slot is already completed. */
  lemma DispatchConnRsp(st: State, msg: Message, subs: Subscribers)
    requires msg.typ == "connRsp"
    ensures var t := Dispatch(st, msg, subs);
            && t.notices == []
            && t.state == st.(connResponse := t.state.connResponse)
            && (st.connResponse == None ==> t.outcome == Continue && t.state.connResponse == None)
            && (st.connResponse == Some(Waiting) ==> t.outcome == Continue && t.state.connResponse == Some(Completed(msg)))
            && (st.connResponse.Some? && st.connResponse.value.Completed? ==> t.outcome == Crashed(InvalidOperation))
  {
  }

  /** The same for a `discRsp` and the disconnection slot. */
  lemma DispatchDiscRsp(st: State, msg: Message, subs: Subscribers)
    requires msg.typ == "discRsp"
    ensures var t := Dispatch(st, msg, subs);
            && t.notices == []
            && t.state == st.(discResponse := t.state.discResponse)
            && (st.discResponse == None ==> t.outcome == Continue && t.state.discResponse == None)
            && (st.discResponse == Some(Waiting) ==> t.outcome == Continue && t.state.discResponse == Some(Completed(msg)))
            && (st.discResponse.Some? && st.discResponse.value.Completed? ==> t.outcome == Crashed(InvalidOperation))
  {
  }

  /** A `connRsp` read from the terminal resolves the connection slot as above, and
      changes nothing else but the attributes. */
  lemma ConnRspResolves(st: State, input: Input, msg: Message, subs: Subscribers)
    requires Reads(input, msg) && Parsable(msg.data) && msg.typ == "connRsp"
    ensures var t := Step(st, input, subs);
            && t.notices == []
            && t.state == st.(attrs := t.state.attrs, connResponse := t.state.connResponse)
            && (st.connResponse == None ==> t.outcome == Continue && t.state.connResponse == None)
            && (st.connResponse == Some(Waiting) ==> t.outcome == Continue && t.state.connResponse == Some(Completed(msg)))
            && (st.connResponse.Some? && st.connResponse.value.Completed? ==> t.outcome == Crashed(InvalidOperation))
  {
    StepReads(st, input, msg, subs);
    DispatchConnRsp(st.(attrs := ApplyParse(st.attrs, msg.data).attrs), msg, subs);
  }

  /** The same for a `discRsp`. */
  lemma DiscRspResolves(st: State, input: Input, msg: Message, subs: Subscribers)
    requires Reads(input, msg) && Parsable(msg.data) && msg.typ == "discRsp"
    ensures var t := Step(st, input, subs);
            && t.notices == []
            && t.state == st.(attrs := t.state.attrs, discResponse := t.state.discResponse)
            && (st.discResponse == None ==> t.outcome == Continue && t.state.discResponse == None)
            && (st.discResponse == Some(Waiting) ==> t.outcome == Continue && t.state.discResponse == Some(Completed(msg)))
            && (st.discResponse.Some? && st.discResponse.value.Completed? ==> t.outcome == Crashed(InvalidOperation))
  {
    StepReads(st, input, msg, subs);
    DispatchDiscRsp(st.(attrs := ApplyParse(st.attrs, msg.data).attrs), msg, subs);
  }

  /** What an `infoSmartCard` does to the pending table: nothing without a tag or with a
      tag nobody waits for; it completes a waiting entry, and throws on a completed one. */
  lemma DispatchInfoSmartCard(st: State, msg: Message, subs: Subscribers)
    requires msg.typ == "infoSmartCard"
    ensures var t := Dispatch(st, msg, subs);
            && t.notices == []
            && t.state == st.(pending := t.state.pending)
            && (!HasKey(msg.data, "tag") || !HasKey(st.pending, Lookup(msg.data, "tag").value) ==>
                  t.outcome == Continue && t.state.pending == st.pending)
            && (HasKey(msg.data, "tag") && Lookup(st.pending, Lookup(msg.data, "tag").value) == Some(Waiting) ==>
                  t.outcome == Continue && t.state.pending == Insert(st.pending, Lookup(msg.data, "tag").value, Completed(msg)))
            && (HasKey(msg.data, "tag") && HasKey(st.pending, Lookup(msg.data, "tag").value)
                && Lookup(st.pending, Lookup(msg.data, "tag").value).value.Completed? ==>
                  t.outcome == Crashed(InvalidOperation))
  {
  }

  /** An `infoSmartCard` without a tag, or with a tag nobody waits for, leaves the
      pending table as it is. */
  lemma InfoSmartCardUnmatched(st: State, input: Input, msg: Message, subs: Subscribers)
    requires Reads(input, msg) && Parsable(msg.data) && msg.typ == "infoSmartCard"
    requires !HasKey(msg.data, "tag") || !HasKey(st.pending, Lookup(msg.data, "tag").value)
    ensures var t := Step(st, input, subs);
            t.outcome == Continue && t.state.pending == st.pending
  {
    StepReads(st, input, msg, subs);
    DispatchInfoSmartCard(st.(attrs := ApplyParse(st.attrs, msg.data).attrs), msg, subs);
  }

  /** An `infoSmartCard` whose tag is waiting completes that entry and only that one. */
  lemma InfoSmartCardMatched(st: State, input: Input, msg: Message, subs: Subscribers, other: string)
    requires Reads(input, msg) && Parsable(msg.data) && msg.typ == "infoSmartCard"
    requires HasKey(msg.data, "tag") && Lookup(st.pending, Lookup(msg.data, "tag").value) == Some(Waiting)
    requires DistinctKeys(st.pending)
    ensures var t := Step(st, input, subs);
            var tag := Lookup(msg.data, "tag").value;
            && t.outcome == Continue
            && Lookup(t.state.pending, tag) == Some(Completed(msg))
            && (other != tag ==> Lookup(t.state.pending, other) == Lookup(st.pending, other))
            && DistinctKeys(t.state.pending)
  {
    StepReads(st, input, msg, subs);
    DispatchInfoSmartCard(st.(attrs := ApplyParse(st.attrs, msg.data).attrs), msg, subs);
    var tag := Lookup(msg.data, "tag").value;
    InsertLookup(st.pending, tag, Completed(msg), other);
    InsertDistinct(st.pending, tag, Completed(msg));
  }

  /** An `infoSmartCard` for a tag that is already completed throws. */
  lemma InfoSmartCardTwice(st: State, input: Input, msg: Message, subs: Subscribers)
    requires Reads(input, msg) && Parsable(msg.data) && msg.typ == "infoSmartCard"
    requires HasKey(msg.data, "tag")
    requires var f := Lookup(st.pending, Lookup(msg.data, "tag").value); f.Some? && f.value.Completed?
    ensures Step(st, input, subs).outcome == Crashed(InvalidOperation)
  {
    StepReads(st, input, msg, subs);
    DispatchInfoSmartCard(st.(attrs := ApplyParse(st.attrs, msg.data).attrs), msg, subs);
  }

  /** The dispatch never changes the attributes or `_tagCounter`, and writes at most
      the keepalive reply. */
  lemma DispatchKeepsAttributes(st: State, msg: Message, subs: Subscribers)
    ensures var t := Dispatch(st, msg, subs);
            && t.state.attrs == st.attrs && t.state.tagCounter == st.tagCounter
            && (t.state.written == st.written || t.state.written == st.written + ["keepAliveInf "])
  {
    if msg.typ == "infoReq" {
      DispatchInfoReq(st, msg, subs);
    } else if msg.typ == "keepAliveReq" {
      KeepAliveLine();
    } else if msg.typ == "connRsp" {
      DispatchConnRsp(st, msg, subs);
    } else if msg.typ == "discRsp" {
      DispatchDiscRsp(st, msg, subs);
    } else if msg.typ == "infoSmartCard" {
      DispatchInfoSmartCard(st, msg, subs);
    }
  }

  /** A turn never touches `_tagCounter`, and it writes at most the keepalive reply. */
  lemma StepFrame(st: State, input: Input, subs: Subscribers)
    ensures var t := Step(st, input, subs);
            && t.state.tagCounter == st.tagCounter
            && (t.state.written == st.written || t.state.written == st.written + ["keepAliveInf "])
  {
    if input.Line? && ParseLine(input.text).Ok? {
      var msg := ParseLine(input.text).value;
      var p := ApplyParse(st.attrs, msg.data);
      if p.error.None? {
        var st1 := st.(attrs := p.attrs);
        assert Step(st, input, subs) == Dispatch(st1, msg, subs);
        DispatchKeepsAttributes(st1, msg, subs);
      }
    }
  }

  /** The dispatch never leaves the loop quietly. */
  lemma DispatchNeverStops(st: State, msg: Message, subs: Subscribers)
    ensures Dispatch(st, msg, subs).outcome != Stopped
  {
    if msg.typ == "infoReq" {
      DispatchInfoReq(st, msg, subs);
    } else if msg.typ == "connRsp" {
      DispatchConnRsp(st, msg, subs);
    } else if msg.typ == "discRsp" {
      DispatchDiscRsp(st, msg, subs);
    } else if msg.typ == "infoSmartCard" {
      DispatchInfoSmartCard(st, msg, subs);
    }
  }

  /** A line either fails to parse, with the exception `Substring` throws, or goes on
      to `_parse` and the dispatch; neither leaves the loop quietly. */
  lemma LineNeverStops(st: State, text: string, subs: Subscribers)
    ensures ParseLine(text).Throws? ==> Step(st, Line(text), subs).outcome == Crashed(ArgumentOutOfRange)
    ensures Step(st, Line(text), subs).outcome != Stopped
  {
    ParseLineOk(text);
    if ParseLine(text).Ok? {
      var msg := ParseLine(text).value;
      var p := ApplyParse(st.attrs, msg.data);
      if p.error.None? {
        var st1 := st.(attrs := p.attrs);
        assert Step(st, Line(text), subs) == Dispatch(st1, msg, subs);
        DispatchNeverStops(st1, msg, subs);
      }
    }
  }

  /** A line the codec rejects, the end of the stream, and a failed read end the loop;
      only the failed read and the connection test end it quietly. */
  lemma StepEnds(st: State, input: Input, subs: Subscribers)
    ensures input == EndOfStream ==> Step(st, input, subs).outcome == Crashed(NullReference)
    ensures input.Line? && ParseLine(input.text).Throws? ==>
              Step(st, input, subs).outcome == Crashed(ArgumentOutOfRange)
    ensures Step(st, input, subs).outcome == Stopped <==> input == ReadFailed || input == NotConnected
  {
    if input.Line? {
      LineNeverStops(st, input.text, subs);
    }
  }

  // ---------------------------------------------------------------------------
  // The messages the server sends

  /** `AllowAccess`'s message. */
  function ConnInf(tokenSeq: i32, moduleName: string): Message {
    Message("connInf", [("tokenSeq", IntString(tokenSeq)), ("module", moduleName), ("access", "allowed")])
  }

  /** `Disconnect`'s message. */
  function DiscInf(tokenSeq: i32, cause: string): Message {
    Message("discInf", [("tokenSeq", IntString(tokenSeq)), ("cause", cause), ("access", "denied")])
  }

  /** `Redirect`'s message, for the four bytes of the IPv4 address. */
  function RedirectInf(address: seq<byte>, authport: u16): Message {
    Message("redirectInf", [("authipa", HexString(address)), ("authport", NatString(authport))])
  }

  /** `ushort.Parse(msg.Data["pn"])` on the completed response of `AllowAccess` or
      `Disconnect`. */
  function ResponsePort(reply: Message): (r: Result<u16>)
    ensures r.Ok? <==> HasKey(reply.data, "pn") && ParseUInt16(Lookup(reply.data, "pn").value).Ok?
  {
    match Get(reply.data, "pn")
    case Throws(e) => Throws(e)
    case Ok(pn) => ParseUInt16(pn)
  }

  lemma DigitsHaveNoSeparator(n: nat)
    ensures FitsToken(NatString(n)) && '=' !in NatString(n)
  {
  }

  lemma IntStringHasNoSeparator(i: int)
    ensures FitsToken(IntString(i))
  {
    if i < 0 {
      DigitsHaveNoSeparator(-i);
    } else {
      DigitsHaveNoSeparator(i);
    }
  }

  lemma ConnInfFields(tokenSeq: i32, moduleName: string)
    ensures ParseInt32(Lookup(ConnInf(tokenSeq, moduleName).data, "tokenSeq").value) == Ok(tokenSeq)
    ensures Lookup(ConnInf(tokenSeq, moduleName).data, "module") == Some(moduleName)
    ensures Lookup(ConnInf(tokenSeq, moduleName).data, "access") == Some("allowed")
  {
    var m := ConnInf(tokenSeq, moduleName);
    ParseInt32OfIntString(tokenSeq);
    LookupDistinct(m.data, 0);
    LookupDistinct(m.data, 1);
    LookupDistinct(m.data, 2);
  }

  /** A word of ASCII letters, as the message types and keys are, fits in a token and
      starts with no white space. */
  lemma LettersFit(s: string)
    requires forall i :: 0 <= i < |s| ==> 'a' <= s[i] <= 'z' || 'A' <= s[i] <= 'Z'
    ensures FitsToken(s) && '=' !in s && (s != [] ==> !IsWhiteSpace(s[0]))
  {
  }

  lemma ConnInfEncodable(tokenSeq: i32, moduleName: string)
    requires FitsToken(moduleName)
    ensures Encodable(ConnInf(tokenSeq, moduleName))
  {
    IntStringHasNoSeparator(tokenSeq);
    LettersFit("connInf");
    LettersFit("tokenSeq");
    LettersFit("module");
    LettersFit("access");
    LettersFit("allowed");
  }

  /** `connInf` carries the token, read back as the same number, and
      `access=allowed`; with a module name free of spaces and line breaks it goes out as
      one line that parses back to it. */
  lemma ConnInfMessage(tokenSeq: i32, moduleName: string)
    ensures ParseInt32(Lookup(ConnInf(tokenSeq, moduleName).data, "tokenSeq").value) == Ok(tokenSeq)
    ensures Lookup(ConnInf(tokenSeq, moduleName).data, "module") == Some(moduleName)
    ensures Lookup(ConnInf(tokenSeq, moduleName).data, "access") == Some("allowed")
    ensures FitsToken(moduleName) ==>
              && OneLine(EncodeLine(ConnInf(tokenSeq, moduleName)))
              && ParseLine(EncodeLine(ConnInf(tokenSeq, moduleName))) == Ok(ConnInf(tokenSeq, moduleName))
  {
    ConnInfFields(tokenSeq, moduleName);
    if FitsToken(moduleName) {
      ConnInfEncodable(tokenSeq, moduleName);
      RoundTrip(ConnInf(tokenSeq, moduleName));
    }
  }

  lemma DiscInfFields(tokenSeq: i32, cause: string)
    ensures ParseInt32(Lookup(DiscInf(tokenSeq, cause).data, "tokenSeq").value) == Ok(tokenSeq)
    ensures Lookup(DiscInf(tokenSeq, cause).data, "cause") == Some(cause)
    ensures Lookup(DiscInf(tokenSeq, cause).data, "access") == Some("denied")
  {
    var m := DiscInf(tokenSeq, cause);
    ParseInt32OfIntString(tokenSeq);
    LookupDistinct(m.data, 0);
    LookupDistinct(m.data, 1);
    LookupDistinct(m.data, 2);
  }

  lemma DiscInfEncodable(tokenSeq: i32, cause: string)
    requires FitsToken(cause)
    ensures Encodable(DiscInf(tokenSeq, cause))
  {
    IntStringHasNoSeparator(tokenSeq);
    LettersFit("discInf");
    LettersFit("tokenSeq");
    LettersFit("cause");
    LettersFit("access");
    LettersFit("denied");
  }

  /** `discInf` carries the token, read back as the same number, and
      `access=denied`; with a cause free of spaces and line breaks it goes out as one
      line that parses back to it. */
  lemma DiscInfMessage(tokenSeq: i32, cause: string)
    ensures ParseInt32(Lookup(DiscInf(tokenSeq, cause).data, "tokenSeq").value) == Ok(tokenSeq)
    ensures Lookup(DiscInf(tokenSeq, cause).data, "cause") == Some(cause)
    ensures Lookup(DiscInf(tokenSeq, cause).data, "access") == Some("denied")
    ensures FitsToken(cause) ==>
              && OneLine(EncodeLine(DiscInf(tokenSeq, cause)))
              && ParseLine(EncodeLine(DiscInf(tokenSeq, cause))) == Ok(DiscInf(tokenSeq, cause))
  {
    DiscInfFields(tokenSeq, cause);
    if FitsToken(cause) {
      DiscInfEncodable(tokenSeq, cause);
      RoundTrip(DiscInf(tokenSeq, cause));
    }
  }

  /** The `tokenSeq` a terminal sends is the one `connInf` and `discInf` echo. */
  lemma TokenEcho(st: State, input: Input, msg: Message, subs: Subscribers, text: string)
    requires Reads(input, msg) && Parsable(msg.data) && HasKey(msg.data, "tokenSeq")
    ensures var ts := Step(st, input, subs).state.attrs.tokenSequence;
            && ParseInt32(Lookup(ConnInf(ts, text).data, "tokenSeq").value) == ParseInt32(Lookup(msg.data, "tokenSeq").value)
            && ParseInt32(Lookup(DiscInf(ts, text).data, "tokenSeq").value) == ParseInt32(Lookup(msg.data, "tokenSeq").value)
  {
    StepReads(st, input, msg, subs);
    var st1 := st.(attrs := ApplyParse(st.attrs, msg.data).attrs);
    DispatchKeepsAttributes(st1, msg, subs);
    ParseOtherProperties(st.attrs, msg.data);
    ConnInfFields(st1.attrs.tokenSequence, text);
    DiscInfFields(st1.attrs.tokenSequence, text);
  }

  /** `authipa` is the eight upper-case hex digits of the address bytes, which decode
      back to them, and `authport` reads back as the port. */
  lemma RedirectFields(address: seq<byte>, authport: u16)
    requires |address| == 4
    ensures var d := RedirectInf(address, authport).data;
            && Lookup(d, "authipa").Some? && |Lookup(d, "authipa").value| == 8
            && HexDecode(Lookup(d, "authipa").value) == Ok(address)
            && Lookup(d, "authport").Some? && ParseUInt16(Lookup(d, "authport").value) == Ok(authport)
  {
    var d := RedirectInf(address, authport).data;
    LookupDistinct(d, 0);
    LookupDistinct(d, 1);
    HexDecodeString(address);
    ParseUInt16OfNatString(authport);
  }

  /** A response carrying `pn` as the decimal text of a port gives that port. */
  lemma ResponsePortOf(typ: string, p: u16)
    ensures ResponsePort(Message(typ, [("pn", NatString(p))])) == Ok(p)
  {
    ParseUInt16OfNatString(p);
  }

  // ---------------------------------------------------------------------------
  // The operations the session logic calls

  /** The first half of `AllowAccess`: a new connection slot and the `connInf` line. */
  function AllowAccess(st: State, moduleName: string): State {
    st.(connResponse := Some(Waiting),
        written := st.written + [EncodeLine(ConnInf(st.attrs.tokenSequence, moduleName))])
  }

  /** The first half of `Disconnect`: a new disconnection slot and the `discInf` line. */
  function Disconnect(st: State, cause: string): State {
    st.(discResponse := Some(Waiting),
        written := st.written + [EncodeLine(DiscInf(st.attrs.tokenSequence, cause))])
  }

  /** `Redirect`: the `redirectInf` line; the closing of the connection is not modelled. */
  function Redirect(st: State, address: seq<byte>, authport: u16): State {
    st.(written := st.written + [EncodeLine(RedirectInf(address, authport))])
  }

  datatype ApduStart = ApduStart(state: State, tag: Result<string>)

  /** The first half of `SendAPDU`: the counter is bumped, then the request is built,
      which throws for a `p1p2` of fewer than two bytes; otherwise a waiting entry is
      stored under the tag and the request is written. */
  function BeginApdu(st: State, cla: byte, ins: byte, p1p2: seq<byte>, data: seq<byte>, expectedLength: i32)
    : ApduStart
  {
    var counter := NextCounter(st.tagCounter);
    var tag := Tag(counter);
    match Request(tag, cla, ins, p1p2, data, expectedLength)
    case Throws(e) => ApduStart(st.(tagCounter := counter), Throws(e))
    case Ok(m) =>
      ApduStart(st.(tagCounter := counter, pending := Insert(st.pending, tag, Waiting),
                    written := st.written + [EncodeLine(m)]), Ok(tag))
  }

  datatype ApduEnd = ApduEnd(state: State, response: Result<Option<ApduResponse>>)

  /** The second half of `SendAPDU`, once the entry for `tag` has been completed: the
      entry is removed and the reply decoded. */
  function FinishApdu(st: State, tag: string): ApduEnd
    requires Lookup(st.pending, tag).Some? && Lookup(st.pending, tag).value.Completed?
  {
    ApduEnd(st.(pending := Remove(st.pending, tag)), DecodeReply(Lookup(st.pending, tag).value.reply))
  }

  /** `SendAPDU` stores a waiting entry under a fresh tag before the request goes out
      and writes exactly the request line; everything else but the counter is kept. */
  lemma BeginApduStores(st: State, cla: byte, ins: byte, p1p2: seq<byte>, data: seq<byte>, expectedLength: i32,
                        other: string)
    requires |p1p2| >= 2
    ensures var r := BeginApdu(st, cla, ins, p1p2, data, expectedLength);
            var tag := Tag(NextCounter(st.tagCounter));
            && r.tag == Ok(tag)
            && r.state.tagCounter == NextCounter(st.tagCounter)
            && Lookup(r.state.pending, tag) == Some(Waiting)
            && (other != tag ==> Lookup(r.state.pending, other) == Lookup(st.pending, other))
            && r.state.written == st.written + [EncodeLine(Request(tag, cla, ins, p1p2, data, expectedLength).value)]
            && r.state.attrs == st.attrs && r.state.isFirst == st.isFirst
            && r.state.connResponse == st.connResponse && r.state.discResponse == st.discResponse
  {
    InsertLookup(st.pending, Tag(NextCounter(st.tagCounter)), Waiting, other);
  }

  /** A `p1p2` of fewer than two bytes throws after the counter has been bumped and
      before anything is stored or written. */
  lemma BeginApduShortP1P2(st: State, cla: byte, ins: byte, p1p2: seq<byte>, data: seq<byte>, expectedLength: i32)
    requires |p1p2| < 2
    ensures BeginApdu(st, cla, ins, p1p2, data, expectedLength)
         == ApduStart(st.(tagCounter := NextCounter(st.tagCounter)), Throws(IndexOutOfRange))
  {
  }

  /** Finishing removes the entry and leaves every other entry as it was. */
  lemma FinishApduRemoves(st: State, tag: string, other: string)
    requires Lookup(st.pending, tag).Some? && Lookup(st.pending, tag).value.Completed?
    ensures var r := FinishApdu(st, tag);
            && !HasKey(r.state.pending, tag)
            && (other != tag ==> Lookup(r.state.pending, other) == Lookup(st.pending, other))
            && r.response == DecodeReply(Lookup(st.pending, tag).value.reply)
  {
    RemoveLookup(st.pending, tag, other);
  }

  /** Two requests in flight get different tags; the reply to the first completes its
      entry and leaves the second waiting. */
  lemma TwoApdusIndependent(st: State, cla: byte, ins: byte, p1p2: seq<byte>, data: seq<byte>, len: i32,
                            input: Input, reply: Message, subs: Subscribers)
    requires |p1p2| >= 2 && DistinctKeys(st.pending)
    requires Reads(input, reply) && Parsable(reply.data) && reply.typ == "infoSmartCard"
    requires Lookup(reply.data, "tag") == Some(Tag(NextCounter(st.tagCounter)))
    ensures var s1 := BeginApdu(st, cla, ins, p1p2, data, len);
            var s2 := BeginApdu(s1.state, cla, ins, p1p2, data, len);
            var t := Step(s2.state, input, subs);
            && s1.tag.Ok? && s2.tag.Ok? && s1.tag.value != s2.tag.value
            && t.outcome == Continue
            && Lookup(t.state.pending, s1.tag.value) == Some(Completed(reply))
            && Lookup(t.state.pending, s2.tag.value) == Some(Waiting)
  {
    var tag1 := Tag(NextCounter(st.tagCounter));
    var c2 := NextCounter(NextCounter(st.tagCounter));
    var tag2 := Tag(c2);
    NextCounterSteps(st.tagCounter, 1);
    TagsDistinct(st.tagCounter, 1, 2);
    var s1 := BeginApdu(st, cla, ins, p1p2, data, len);
    BeginApduStores(st, cla, ins, p1p2, data, len, tag1);
    InsertDistinct(st.pending, tag1, Waiting);
    BeginApduStores(s1.state, cla, ins, p1p2, data, len, tag1);
    var s2 := BeginApdu(s1.state, cla, ins, p1p2, data, len);
    InsertDistinct(s1.state.pending, tag2, Waiting);
    InfoSmartCardMatched(s2.state, input, reply, subs, tag2);
  }

  /** `AllowAccess` writes the `connInf` line with the current token and opens a waiting
      slot; the `pn` of the response completing it is the port it returns. */
  lemma AllowAccessThenResponse(st: State, moduleName: string, input: Input, reply: Message, subs: Subscribers)
    requires Reads(input, reply) && Parsable(reply.data) && reply.typ == "connRsp"
    ensures var s1 := AllowAccess(st, moduleName);
            var t := Step(s1, input, subs);
            && s1.written == st.written + [EncodeLine(ConnInf(st.attrs.tokenSequence, moduleName))]
            && t.outcome == Continue && t.state.connResponse == Some(Completed(reply))
            && ResponsePort(t.state.connResponse.value.reply) == ResponsePort(reply)
  {
    ConnRspResolves(AllowAccess(st, moduleName), input, reply, subs);
  }
}
