/**
  URL query strings (src-tauri/src/cloud_oauth.rs): percent encoding as in section 2.1
  of RFC 3986, splitting a query into pairs, and reading the browser's callback.

  Text is its UTF-8 bytes.  `Decode` gives the bytes before the final conversion to
  text, which is the identity whenever they are valid UTF-8, as the round trip ensures
  for every text that was encoded.
*/
module QueryCodec {
  import opened Wrappers

  type Byte = b: int | 0 <= b < 256
  type Text = seq<Byte>

  const PERCENT: Byte := '%' as int
  const PLUS: Byte := '+' as int
  const SPACE: Byte := ' ' as int
  const AMPERSAND: Byte := '&' as int
  const EQUALS: Byte := '=' as int
  const QUESTION: Byte := '?' as int

  /** The bytes of a text whose characters are all ASCII. */
  function Ascii(s: string): Text {
    seq(|s|, i requires 0 <= i < |s| => s[i] as int % 256)
  }

  // ---- Percent encoding ----

  predicate IsUnreserved(b: Byte) {
    || 'a' as int <= b <= 'z' as int || 'A' as int <= b <= 'Z' as int || '0' as int <= b <= '9' as int
    || b == '-' as int || b == '_' as int || b == '.' as int || b == '~' as int
  }

  function HexDigit(d: nat): Byte
    requires d < 16
  {
    if d < 10 then '0' as int + d else 'A' as int + d - 10
  }

  function EncodeByte(b: Byte): Text {
    if IsUnreserved(b) then [b] else [PERCENT, HexDigit(b / 16), HexDigit(b % 16)]
  }

  function Encode(value: Text): Text {
    if value == [] then [] else EncodeByte(value[0]) + Encode(value[1..])
  }

  function HexValue(b: Byte): Option<nat> {
    if '0' as int <= b <= '9' as int then Some(b - '0' as int)
    else if 'a' as int <= b <= 'f' as int then Some(b - 'a' as int + 10)
    else if 'A' as int <= b <= 'F' as int then Some(b - 'A' as int + 10)
    else None
  }

  /** The value of two characters read as a hexadecimal number; a leading plus sign is accepted. */
  function HexByte(first: Byte, second: Byte): (value: Option<Byte>) {
    match (HexValue(first), HexValue(second))
    case (Some(high), Some(low)) => if high < 16 && low < 16 then Some(16 * high + low) else None
    case (None, Some(low)) => if first == PLUS && low < 16 then Some(low) else None
    case _ => None
  }

  function Decode(value: Text): Text
    decreases |value|
  {
    if value == [] then
      []
    else if value[0] == PERCENT && |value| > 2 then
      match HexByte(value[1], value[2])
      case Some(b) => [b] + Decode(value[3..])
      case None => [PERCENT] + Decode(value[1..])
    else
      [if value[0] == PLUS then SPACE else value[0]] + Decode(value[1..])
  }

  /** One step of encoding: the byte at `i`. */
  lemma EncodeStep(value: Text, i: nat, out: Text)
    requires i < |value|
    ensures (out + EncodeByte(value[i])) + Encode(value[i + 1..]) == out + Encode(value[i..])
  {
    var rest := value[i..];
    assert rest[1..] == value[i + 1..];
    var code, tail := EncodeByte(value[i]), Encode(value[i + 1..]);
    assert (out + code) + tail == out + (code + tail);
  }

  method PercentEncode(value: Text) returns (out: Text)
    ensures out == Encode(value)
  {
    out := [];
    assert value[0..] == value;
    for i := 0 to |value|
      invariant out + Encode(value[i..]) == Encode(value)
    {
      EncodeStep(value, i, out);
      if IsUnreserved(value[i]) {
        out := out + [value[i]];
      } else {
        out := out + [PERCENT, HexDigit(value[i] / 16), HexDigit(value[i] % 16)];
      }
    }
  }

  /** One step of decoding: the byte produced at `i`, and how many bytes it takes. */
  function DecodeAt(bytes: Text, i: nat): (Byte, nat)
    requires i < |bytes|
  {
    if bytes[i] == PERCENT && i + 2 < |bytes| then
      match HexByte(bytes[i + 1], bytes[i + 2])
      case Some(b) => (b, 3)
      case None => (PERCENT, 1)
    else
      (if bytes[i] == PLUS then SPACE else bytes[i], 1)
  }

  lemma DecodeStep(bytes: Text, i: nat, out: Text)
    requires i < |bytes|
    ensures var (b, taken) := DecodeAt(bytes, i);
            i + taken <= |bytes| && (out + [b]) + Decode(bytes[i + taken..]) == out + Decode(bytes[i..])
  {
    var (b, taken) := DecodeAt(bytes, i);
    var rest := bytes[i..];
    assert rest[taken..] == bytes[i + taken..];
    var tail := Decode(bytes[i + taken..]);
    assert (out + [b]) + tail == out + ([b] + tail);
  }

  method PercentDecode(bytes: Text) returns (out: Text)
    ensures out == Decode(bytes)
  {
    out := [];
    var i := 0;
    assert bytes[0..] == bytes;
    while i < |bytes|
      invariant i <= |bytes|
      invariant out + Decode(bytes[i..]) == Decode(bytes)
    {
      DecodeStep(bytes, i, out);
      if bytes[i] == PERCENT && i + 2 < |bytes| {
        match HexByte(bytes[i + 1], bytes[i + 2]) {
          case Some(b) =>
            out := out + [b];
            i := i + 3;
          case None =>
            out := out + [PERCENT];
            i := i + 1;
        }
      } else if bytes[i] == PLUS {
        out := out + [SPACE];
        i := i + 1;
      } else {
        out := out + [bytes[i]];
        i := i + 1;
      }
    }
  }

  lemma {:induction false} DecodeOneByte(b: Byte, rest: Text)
    ensures Decode(EncodeByte(b) + rest) == [b] + Decode(rest)
  {
    var code := EncodeByte(b) + rest;
    if IsUnreserved(b) {
      assert code[1..] == rest;
    } else {
      assert code[3..] == rest;
      assert HexByte(code[1], code[2]) == Some(b);
    }
  }

  /** Decoding undoes encoding, for every byte string. */
  lemma {:induction false} DecodeUndoesEncode(value: Text)
    ensures Decode(Encode(value)) == value
  {
    if value != [] {
      DecodeOneByte(value[0], Encode(value[1..]));
      DecodeUndoesEncode(value[1..]);
    }
  }

  /** Encoded text is unreserved characters and percent signs only: no separators, no spaces. */
  lemma {:induction false} EncodedIsPlain(value: Text)
    ensures forall i :: 0 <= i < |Encode(value)| ==> IsUnreserved(Encode(value)[i]) || Encode(value)[i] == PERCENT
  {
    if value != [] {
      EncodedIsPlain(value[1..]);
    }
  }

  // ---- Pairs ----

  /** The parts between separators: one more than there are separators. */
  function Split(s: Text, separator: Byte): (parts: seq<Text>)
    ensures parts != []
  {
    if s == [] then [[]]
    else
      var rest := Split(s[1..], separator);
      if s[0] == separator then [[]] + rest else [[s[0]] + rest[0]] + rest[1..]
  }

  function SplitOnce(s: Text, separator: Byte): Option<(Text, Text)> {
    if s == [] then None
    else if s[0] == separator then Some(([], s[1..]))
    else match SplitOnce(s[1..], separator)
      case Some(halves) => Some(([s[0]] + halves.0, halves.1))
      case None => None
  }

  function ParsePart(part: Text): seq<(Text, Text)> {
    if part == [] then []
    else match SplitOnce(part, EQUALS)
      case Some(halves) => [(Decode(halves.0), Decode(halves.1))]
      case None => []
  }

  function ParseParts(parts: seq<Text>): seq<(Text, Text)> {
    if parts == [] then [] else ParsePart(parts[0]) + ParseParts(parts[1..])
  }

  function ParseQuery(query: Text): seq<(Text, Text)> {
    ParseParts(Split(query, AMPERSAND))
  }

  /** The value of the first pair with this name. */
  function QueryValue(pairs: seq<(Text, Text)>, key: Text): Option<Text> {
    if pairs == [] then None
    else if pairs[0].0 == key then Some(pairs[0].1)
    else QueryValue(pairs[1..], key)
  }

  /** A name is looked up to the value of its first pair, and to nothing exactly when no pair has it. */
  lemma {:induction false} QueryValueIsTheFirst(pairs: seq<(Text, Text)>, key: Text)
    ensures match QueryValue(pairs, key)
            case None => forall i :: 0 <= i < |pairs| ==> pairs[i].0 != key
            case Some(value) =>
              exists i :: 0 <= i < |pairs| && pairs[i] == (key, value) && forall j :: 0 <= j < i ==> pairs[j].0 != key
  {
    if pairs != [] {
      if pairs[0].0 == key {
        assert pairs[0] == (key, pairs[0].1);
      } else {
        QueryValueIsTheFirst(pairs[1..], key);
        var value := QueryValue(pairs[1..], key);
        if value.Some? {
          var i :| 0 <= i < |pairs[1..]| && pairs[1..][i] == (key, value.value)
                   && forall j :: 0 <= j < i ==> pairs[1..][j].0 != key;
          assert pairs[i + 1] == (key, value.value);
          assert forall j :: 1 <= j < i + 1 ==> pairs[j] == pairs[1..][j - 1];
        }
      }
    }
  }

  function FormatPair(pair: (Text, Text)): Text {
    Encode(pair.0) + [EQUALS] + Encode(pair.1)
  }

  function FormatQuery(pairs: seq<(Text, Text)>): Text {
    if pairs == [] then []
    else if |pairs| == 1 then FormatPair(pairs[0])
    else FormatPair(pairs[0]) + [AMPERSAND] + FormatQuery(pairs[1..])
  }

  lemma {:induction false} SplitAtFirst(head: Text, separator: Byte, tail: Text)
    requires separator !in head
    ensures Split(head + [separator] + tail, separator) == [head] + Split(tail, separator)
  {
    var s := head + [separator] + tail;
    if head == [] {
      assert s[1..] == tail;
    } else {
      SplitAtFirst(head[1..], separator, tail);
      assert [head[0]] + head[1..] == head;
      assert s[1..] == head[1..] + [separator] + tail;
    }
  }

  lemma {:induction false} SplitWithout(s: Text, separator: Byte)
    requires separator !in s
    ensures Split(s, separator) == [s]
  {
    if s != [] {
      SplitWithout(s[1..], separator);
      assert [s[0]] + s[1..] == s;
    }
  }

  lemma {:induction false} SplitOnceAtFirst(head: Text, separator: Byte, tail: Text)
    requires separator !in head
    ensures SplitOnce(head + [separator] + tail, separator) == Some((head, tail))
  {
    var s := head + [separator] + tail;
    if head == [] {
      assert s[1..] == tail;
    } else {
      SplitOnceAtFirst(head[1..], separator, tail);
      assert [head[0]] + head[1..] == head;
      assert s[1..] == head[1..] + [separator] + tail;
    }
  }

  lemma FormatPairParses(pair: (Text, Text))
    ensures AMPERSAND !in FormatPair(pair)
    ensures ParsePart(FormatPair(pair)) == [pair]
  {
    EncodedIsPlain(pair.0);
    EncodedIsPlain(pair.1);
    SplitOnceAtFirst(Encode(pair.0), EQUALS, Encode(pair.1));
    DecodeUndoesEncode(pair.0);
    DecodeUndoesEncode(pair.1);
  }

  /** Parsing undoes formatting, for every list of pairs: empty names, empty values and repeats included. */
  lemma {:induction false} ParseUndoesFormat(pairs: seq<(Text, Text)>)
    ensures ParseQuery(FormatQuery(pairs)) == pairs
  {
    if pairs == [] {
      assert ParseParts([[]]) == ParsePart([]) + ParseParts([]);
    } else {
      FormatPairParses(pairs[0]);
      var part := FormatPair(pairs[0]);
      if |pairs| == 1 {
        SplitWithout(part, AMPERSAND);
        assert ParseParts([part]) == ParsePart(part) + ParseParts([]);
      } else {
        SplitAtFirst(part, AMPERSAND, FormatQuery(pairs[1..]));
        ParseUndoesFormat(pairs[1..]);
        assert ([part] + Split(FormatQuery(pairs[1..]), AMPERSAND))[1..] == Split(FormatQuery(pairs[1..]), AMPERSAND);
        assert FormatQuery(pairs) == part + [AMPERSAND] + FormatQuery(pairs[1..]);
        assert [pairs[0]] + pairs[1..] == pairs;
      }
    }
  }

  lemma {:induction false} FormattedHasNoSpaces(pairs: seq<(Text, Text)>)
    ensures forall b :: b in FormatQuery(pairs) ==> !IsWhitespace(b)
  {
    if pairs != [] {
      EncodedIsPlain(pairs[0].0);
      EncodedIsPlain(pairs[0].1);
      FormattedHasNoSpaces(pairs[1..]);
    }
  }

  // ---- The sign-in address ----

  const AUTH_URL := "https://accounts.google.com/o/oauth2/v2/auth"
  const REDIRECT_URI := "http://localhost:19284/auth/callback"
  const SCOPE := "https://www.googleapis.com/auth/drive.readonly"

  function AuthParams(clientId: Text, challenge: Text, state: Text): seq<(Text, Text)> {
    [(Ascii("client_id"), clientId),
     (Ascii("response_type"), Ascii("code")),
     (Ascii("redirect_uri"), Ascii(REDIRECT_URI)),
     (Ascii("scope"), Ascii(SCOPE)),
     (Ascii("access_type"), Ascii("offline")),
     (Ascii("prompt"), Ascii("consent")),
     (Ascii("code_challenge"), challenge),
     (Ascii("code_challenge_method"), Ascii("S256")),
     (Ascii("state"), state)]
  }

  function AuthUrl(clientId: Text, challenge: Text, state: Text): Text {
    Ascii(AUTH_URL) + [QUESTION] + FormatQuery(AuthParams(clientId, challenge, state))
  }

  predicate AllAsciiExcept(s: string, c: char) {
    forall i :: 0 <= i < |s| ==> s[i] as int < 128 && s[i] != c
  }

  lemma AsciiLacks(s: string, c: char)
    requires AllAsciiExcept(s, c) && c as int < 128
    ensures c as int !in Ascii(s)
  {
    assert forall i :: 0 <= i < |s| ==> Ascii(s)[i] == s[i] as int;
  }

  lemma EndpointHasNoQuery()
    ensures AllAsciiExcept(AUTH_URL, '?')
  {
  }

  /** Whatever the client id, challenge and state contain, the address carries exactly the nine parameters. */
  lemma AuthUrlCarriesItsParams(clientId: Text, challenge: Text, state: Text)
    ensures var halves := SplitOnce(AuthUrl(clientId, challenge, state), QUESTION);
            halves.Some? && ParseQuery(halves.value.1) == AuthParams(clientId, challenge, state)
  {
    EndpointHasNoQuery();
    AsciiLacks(AUTH_URL, '?');
    var params := AuthParams(clientId, challenge, state);
    SplitOnceAtFirst(Ascii(AUTH_URL), QUESTION, FormatQuery(params));
    ParseUndoesFormat(params);
  }

  // ---- The callback ----

  predicate IsWhitespace(b: Byte) {
    b == SPACE || 9 <= b <= 13
  }

  function SkipWhitespace(s: Text): Text {
    if s != [] && IsWhitespace(s[0]) then SkipWhitespace(s[1..]) else s
  }

  /** The leading run without white space, and what follows it. */
  function Word(s: Text): (r: (Text, Text))
    ensures |r.1| <= |s|
  {
    if s == [] || IsWhitespace(s[0]) then ([], s)
    else var (word, rest) := Word(s[1..]); ([s[0]] + word, rest)
  }

  function SecondWord(line: Text): Option<Text> {
    var second := Word(SkipWhitespace(Word(SkipWhitespace(line)).1)).0;
    if second == [] then None else Some(second)
  }

  datatype CallbackError = Malformed | NoQuery | Denied(reason: Text) | NoCode

  function ReadCallback(pairs: seq<(Text, Text)>): Result<(Text, Text), CallbackError> {
    match QueryValue(pairs, Ascii("error"))
    case Some(reason) => Err(Denied(reason))
    case None =>
      match QueryValue(pairs, Ascii("code"))
      case None => Err(NoCode)
      case Some(code) =>
        match QueryValue(pairs, Ascii("state"))
        case Some(state) => Ok((code, state))
        case None => Ok((code, []))
  }

  function ParseCallback(requestLine: Text): Result<(Text, Text), CallbackError> {
    match SecondWord(requestLine)
    case None => Err(Malformed)
    case Some(path) =>
      match SplitOnce(path, QUESTION)
      case None => Err(NoQuery)
      case Some(halves) => ReadCallback(ParseQuery(halves.1))
  }

  lemma {:induction false} WordEndsAtWhitespace(word: Text, rest: Text)
    requires forall b :: b in word ==> !IsWhitespace(b)
    requires rest == [] || IsWhitespace(rest[0])
    ensures Word(word + rest) == (word, rest)
  {
    if word == [] {
      assert word + rest == rest;
    } else {
      assert (word + rest)[1..] == word[1..] + rest;
      assert [word[0]] + word[1..] == word;
      WordEndsAtWhitespace(word[1..], rest);
    }
  }

  lemma SecondWordIs(verb: Text, target: Text, protocol: Text)
    requires verb != [] && target != []
    requires (forall b :: b in verb ==> !IsWhitespace(b)) && (forall b :: b in target ==> !IsWhitespace(b))
    ensures SecondWord(verb + ([SPACE] + (target + ([SPACE] + protocol)))) == Some(target)
  {
    var afterTarget := [SPACE] + protocol;
    var afterVerb := [SPACE] + (target + afterTarget);
    WordEndsAtWhitespace(verb, afterVerb);
    assert (verb + afterVerb)[0] == verb[0] && (target + afterTarget)[0] == target[0];
    assert afterVerb[1..] == target + afterTarget;
    assert SkipWhitespace(afterVerb) == target + afterTarget;
    WordEndsAtWhitespace(target, afterTarget);
  }

  /**
    Sending any pairs to the loopback address, in a request line with any method and
    protocol, is read back as a decision on exactly those pairs: nothing in a value can
    add, hide or alter a pair.
  */
  lemma {:induction false} CallbackReadsThePairsSent(verb: Text, path: Text, pairs: seq<(Text, Text)>, protocol: Text)
    requires verb != [] && forall b :: b in verb ==> !IsWhitespace(b)
    requires QUESTION !in path && forall b :: b in path ==> !IsWhitespace(b)
    ensures ParseCallback(verb + [SPACE] + path + [QUESTION] + FormatQuery(pairs) + [SPACE] + protocol)
            == ReadCallback(pairs)
  {
    var query := FormatQuery(pairs);
    var target := path + [QUESTION] + query;
    FormattedHasNoSpaces(pairs);
    SecondWordIs(verb, target, protocol);
    assert verb + [SPACE] + path + [QUESTION] + query + [SPACE] + protocol
           == verb + ([SPACE] + (target + ([SPACE] + protocol)));
    SplitOnceAtFirst(path, QUESTION, query);
    ParseUndoesFormat(pairs);
  }
}
