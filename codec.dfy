/** The line format of the session channel (`ConnectionServerClient._readMessage` and
    `_writeMessage`): a message type, then `key=value` tokens, all separated by single
    spaces, one message per line. */
module Codec {
  import opened Basics
  import opened Text
  import opened Dict

  /** A message: its type and its key/value data, in insertion order. */
  datatype Message = Message(typ: string, data: Dict<string>)

  function Token(k: string, v: string): string {
    k + "=" + v
  }

  function Tokens(d: Dict<string>): (ts: seq<string>)
    ensures |ts| == |d|
  {
    if d == [] then [] else [Token(d[0].0, d[0].1)] + Tokens(d[1..])
  }

  /** The line `_writeMessage` writes: the type followed by a space, with leading white
      space trimmed off, then the tokens joined by spaces. */
  function EncodeLine(m: Message): string {
    TrimStart(m.typ + " ") + Join(Tokens(m.data), ' ')
  }

  /** One token split at its first `=`; `Substring(0, -1)` throws when there is none. */
  function ParseToken(t: string): (r: Result<(string, string)>)
    ensures r.Ok? <==> '=' in t
    ensures r.Ok? ==> t == r.value.0 + "=" + r.value.1 && '=' !in r.value.0
    ensures r.Throws? ==> r.ex == ArgumentOutOfRange
  {
    var eq := IndexOf(t, '=');
    if eq < 0 then Throws(ArgumentOutOfRange)
    else
      assert t == t[..eq] + "=" + t[eq + 1..];
      Ok((t[..eq], t[eq + 1..]))
  }

  /** The tokens after the type, stored one after the other into `acc`. */
  function ParseData(acc: Dict<string>, toks: seq<string>): (r: Result<Dict<string>>)
    ensures r.Throws? ==> r.ex == ArgumentOutOfRange
    decreases |toks|
  {
    if toks == [] then Ok(acc)
    else
      match ParseToken(toks[0])
      case Throws(e) => Throws(e)
      case Ok(kv) => ParseData(Insert(acc, kv.0, kv.1), toks[1..])
  }

  /** The message `_readMessage` builds from a line: the first space-separated piece is
      the type, every later piece a `key=value` token. */
  function ParseLine(line: string): Result<Message> {
    var parts := Split(line, ' ');
    match ParseData([], parts[1..])
    case Throws(e) => Throws(e)
    case Ok(d) => Ok(Message(parts[0], d))
  }

  /** `_readMessage` on the line it has read, with its `foreach` loop over the tokens. */
  method ReadMessage(line: string) returns (r: Result<Message>)
    ensures r == ParseLine(line)
  {
    var parts := Split(line, ' ');
    var data: Dict<string> := [];
    var i := 1;
    while i < |parts|
      invariant 1 <= i <= |parts|
      invariant ParseData(data, parts[i..]) == ParseData([], parts[1..])
    {
      var token := parts[i];
      var eq := IndexOf(token, '=');
      if eq < 0 {
        return Throws(ArgumentOutOfRange);
      }
      var key := token[..eq];
      var value := token[eq + 1..];
      assert parts[i..][1..] == parts[i + 1..];
      data := Insert(data, key, value);
      i := i + 1;
    }
    return Ok(Message(parts[0], data));
  }

  // ---------------------------------------------------------------------------
  // Properties of the format

  /** Parsing fails exactly when some token after the type has no `=`, and then with
      the exception `Substring` throws. */
  lemma {:induction false} ParseDataOk(acc: Dict<string>, toks: seq<string>)
    ensures ParseData(acc, toks).Ok? <==> forall k :: 0 <= k < |toks| ==> '=' in toks[k]
    decreases |toks|
  {
    if toks != [] && '=' in toks[0] {
      var kv := ParseToken(toks[0]).value;
      ParseDataOk(Insert(acc, kv.0, kv.1), toks[1..]);
      assert forall k :: 1 <= k < |toks| ==> toks[k] == toks[1..][k - 1];
    }
  }

  lemma ParseLineOk(line: string)
    ensures var parts := Split(line, ' ');
            ParseLine(line).Ok? <==> forall k :: 1 <= k < |parts| ==> '=' in parts[k]
    ensures ParseLine(line).Throws? ==> ParseLine(line).ex == ArgumentOutOfRange
  {
    var parts := Split(line, ' ');
    ParseDataOk([], parts[1..]);
    assert ParseLine(line).Ok? <==> ParseData([], parts[1..]).Ok?;
    assert (forall k :: 1 <= k < |parts| ==> '=' in parts[k]) <==> (forall k :: 0 <= k < |parts[1..]| ==> '=' in parts[1..][k]) by {
      assert forall k :: 1 <= k < |parts| ==> parts[k] == parts[1..][k - 1];
    }
  }

  /** A parsed message never holds a key twice. */
  lemma {:induction false} ParseDataDistinct(acc: Dict<string>, toks: seq<string>)
    requires DistinctKeys(acc)
    ensures ParseData(acc, toks).Ok? ==> DistinctKeys(ParseData(acc, toks).value)
    decreases |toks|
  {
    if toks != [] && '=' in toks[0] {
      var kv := ParseToken(toks[0]).value;
      InsertDistinct(acc, kv.0, kv.1);
      ParseDataDistinct(Insert(acc, kv.0, kv.1), toks[1..]);
    }
  }

  /** A line ending in a space has an empty last piece, so it is rejected. */
  lemma {:induction false} EmptyLastPiece(s: string, c: char)
    requires |s| > 0 && s[|s| - 1] == c
    ensures |Split(s, c)| >= 2 && Split(s, c)[|Split(s, c)| - 1] == ""
    decreases |s|
  {
    assert c in s by { assert s[|s| - 1] == c; }
    var i := IndexOf(s, c);
    if i < |s| - 1 {
      EmptyLastPiece(s[i + 1..], c);
    }
  }

  lemma TrailingSpaceRejected(line: string)
    requires |line| > 0 && line[|line| - 1] == ' '
    ensures ParseLine(line) == Throws(ArgumentOutOfRange)
  {
    EmptyLastPiece(line, ' ');
    ParseLineOk(line);
  }

  /** With no data the line is the type and a space, which the parser rejects. */
  lemma EmptyDataRejected(m: Message)
    requires m.data == [] && m.typ != [] && !IsWhiteSpace(m.typ[0])
    ensures EncodeLine(m) == m.typ + " "
    ensures ParseLine(EncodeLine(m)) == Throws(ArgumentOutOfRange)
  {
    var s := m.typ + " ";
    assert s[0] == m.typ[0];
    assert TrimStart(s) == s;
    assert Join(Tokens(m.data), ' ') == "";
    assert s + "" == s;
    assert s[|s| - 1] == ' ';
    TrailingSpaceRejected(s);
  }

  lemma ParseTokenOf(k: string, v: string)
    requires '=' !in k
    ensures ParseToken(Token(k, v)) == Ok((k, v))
  {
    var t := Token(k, v);
    IndexOfAfter(k, '=', v);
    assert t == k + ['='] + v;
    assert t[..|k|] == k;
    assert t[|k| + 1..] == v;
  }

  /** A line made of a type and space-free tokens splits back into them. */
  lemma ParseLineOf(typ: string, toks: seq<string>)
    requires ' ' !in typ && |toks| >= 1
    requires forall j :: 0 <= j < |toks| ==> ' ' !in toks[j]
    ensures ParseLine(typ + [' '] + Join(toks, ' '))
         == match ParseData([], toks) case Ok(d) => Ok(Message(typ, d)) case Throws(e) => Throws(e)
  {
    SplitCons(typ, ' ', Join(toks, ' '));
    SplitJoin(toks, ' ');
    assert ([typ] + toks)[1..] == toks;
  }

  /** A later token for a key that is already present overwrites its value in place. */
  lemma DuplicateKeyLastWins(typ: string, k: string, v1: string, v2: string)
    requires ' ' !in typ && ' ' !in k && '=' !in k && ' ' !in v1 && ' ' !in v2
    ensures ParseLine(typ + " " + Token(k, v1) + " " + Token(k, v2)) == Ok(Message(typ, [(k, v2)]))
  {
    var t1 := Token(k, v1);
    var t2 := Token(k, v2);
    assert ' ' !in t1 && ' ' !in t2;
    assert typ + " " + t1 + " " + t2 == typ + [' '] + Join([t1, t2], ' ');
    ParseLineOf(typ, [t1, t2]);
    ParseTokenOf(k, v1);
    ParseTokenOf(k, v2);
    assert [t1, t2][1..] == [t2];
    assert ParseData([], [t1, t2]) == ParseData([(k, v1)], [t2]);
    assert Insert([(k, v1)], k, v2) == [(k, v2)];
    assert [t2][1..] == [];
    assert ParseData([(k, v1)], [t2]) == Ok([(k, v2)]);
  }

  /** No line break: `WriteLineAsync` puts the string on one line and `ReadLineAsync`
      returns it as one line, since both `\n` and `\r` end a line there. */
  predicate OneLine(s: string) {
    '\n' !in s && '\r' !in s
  }

  /** A string that stays within one token of one line. */
  predicate FitsToken(s: string) {
    ' ' !in s && OneLine(s)
  }

  /** The condition under which a message survives the line format: a type with no
      leading white space, at least one entry, distinct keys without `=`, and a type,
      keys and values with neither space nor line break. */
  predicate Encodable(m: Message) {
    && m.typ != [] && !IsWhiteSpace(m.typ[0]) && FitsToken(m.typ)
    && m.data != []
    && DistinctKeys(m.data)
    && forall i :: 0 <= i < |m.data| ==> FitsToken(m.data[i].0) && '=' !in m.data[i].0 && FitsToken(m.data[i].1)
  }

  /** A character other than `=` that is in no key and no value is in no token. */
  lemma {:induction false} TokensLack(d: Dict<string>, c: char)
    requires c != '=' && forall i :: 0 <= i < |d| ==> c !in d[i].0 && c !in d[i].1
    ensures forall j :: 0 <= j < |Tokens(d)| ==> c !in Tokens(d)[j]
  {
    if d != [] {
      TokensLack(d[1..], c);
      assert forall i :: 1 <= i < |d| ==> d[i] == d[1..][i - 1];
    }
  }

  lemma {:induction false} ParseDataTokens(acc: Dict<string>, d: Dict<string>)
    requires DistinctKeys(acc + d)
    requires forall i :: 0 <= i < |d| ==> '=' !in d[i].0
    ensures ParseData(acc, Tokens(d)) == Ok(acc + d)
    decreases |d|
  {
    if d != [] {
      var k := d[0].0;
      var v := d[0].1;
      ParseTokenOf(k, v);
      assert Tokens(d)[0] == Token(k, v) && Tokens(d)[1..] == Tokens(d[1..]);
      InsertFresh(acc, d);
      assert ParseData(acc, Tokens(d)) == ParseData(acc + [(k, v)], Tokens(d[1..]));
      assert forall i :: 1 <= i < |d| ==> d[i] == d[1..][i - 1];
      ParseDataTokens(acc + [(k, v)], d[1..]);
    } else {
      assert acc + d == acc;
    }
  }

  /** The first key of `d` is new in `acc`, so inserting it appends its entry. */
  lemma InsertFresh(acc: Dict<string>, d: Dict<string>)
    requires DistinctKeys(acc + d) && d != []
    ensures Insert(acc, d[0].0, d[0].1) == acc + [d[0]]
    ensures (acc + [d[0]]) + d[1..] == acc + d
  {
    forall i | 0 <= i < |acc|
      ensures acc[i].0 != d[0].0
    {
      assert (acc + d)[i] == acc[i] && (acc + d)[|acc|] == d[0];
    }
    assert (acc + [d[0]]) + d[1..] == acc + ([d[0]] + d[1..]);
    assert [d[0]] + d[1..] == d;
  }

  /** The line written for an encodable message is a single line, and parsing it gives
      back the message. */
  lemma RoundTrip(m: Message)
    requires Encodable(m)
    ensures OneLine(EncodeLine(m))
    ensures ParseLine(EncodeLine(m)) == Ok(m)
  {
    assert EncodeLine(m) == m.typ + [' '] + Join(Tokens(m.data), ' ');
    TokensLack(m.data, ' ');
    TokensLack(m.data, '\n');
    TokensLack(m.data, '\r');
    JoinLacks(Tokens(m.data), ' ', '\n');
    JoinLacks(Tokens(m.data), ' ', '\r');
    ParseLineOf(m.typ, Tokens(m.data));
    assert [] + m.data == m.data;
    ParseDataTokens([], m.data);
  }
}
