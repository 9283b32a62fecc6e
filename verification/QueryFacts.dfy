/**
  What `QueryCodec` writes and reads, character by character and parameter by parameter
  (src-tauri/src/cloud_oauth.rs:145-202, 220-240, 527-545).
*/
module QueryFacts {
  import opened Wrappers
  import opened QueryCodec

  // ---- Bytes ----

  /** A letter, a digit, or one of the four marks that section 2.3 of RFC 3986 leaves alone. */
  predicate StandsForItself(c: char) {
    'a' <= c <= 'z' || 'A' <= c <= 'Z' || '0' <= c <= '9' || c == '-' || c == '_' || c == '.' || c == '~'
  }

  /** The hexadecimal digit of a number. */
  function HexDigitOf(digit: nat, upperCase: bool): char
    requires digit < 16
  {
    if upperCase then "0123456789ABCDEF"[digit] else "0123456789abcdef"[digit]
  }

  lemma UpperCaseDigit(digit: nat)
    requires digit < 16
    ensures HexDigit(digit) == HexDigitOf(digit, true) as int
  {
    var digits := "0123456789ABCDEF";
    assert forall d :: 0 <= d < 10 ==> digits[d] as int == '0' as int + d;
  }

  lemma DigitHasItsValue(digit: nat, upperCase: bool)
    requires digit < 16
    ensures HexDigitOf(digit, upperCase) as int < 128
    ensures HexValue(HexDigitOf(digit, upperCase) as int) == Some(digit)
  {
    UpperCaseDigit(digit);
    var digits := "0123456789abcdef";
    assert forall d :: 0 <= d < 10 ==> digits[d] as int == '0' as int + d;
    assert forall d :: 10 <= d < 16 ==> digits[d] as int == 'a' as int + d - 10;
  }

  /** Such a character is encoded as itself, any other byte as a percent sign and two hexadecimal digits in upper case. */
  lemma {:induction false} EncodesByteByByte(b: Byte, rest: Text)
    ensures Encode([b] + rest)
            == (if StandsForItself(b as char) then [b]
                else ['%' as int, HexDigitOf(b / 16, true) as int, HexDigitOf(b % 16, true) as int])
               + Encode(rest)
  {
    assert ([b] + rest)[1..] == rest;
    UpperCaseDigit(b / 16);
    UpperCaseDigit(b % 16);
  }

  /** A percent sign and two hexadecimal digits, in either case, are read as the byte with that number. */
  lemma {:induction false} DecodesEscapes(high: nat, low: nat, upperHigh: bool, upperLow: bool, rest: Text)
    requires high < 16 && low < 16
    ensures HexDigitOf(high, upperHigh) as int < 128 && HexDigitOf(low, upperLow) as int < 128
    ensures Decode(['%' as int, HexDigitOf(high, upperHigh) as int, HexDigitOf(low, upperLow) as int] + rest)
            == [16 * high + low] + Decode(rest)
  {
    DigitHasItsValue(high, upperHigh);
    DigitHasItsValue(low, upperLow);
    var escape: Text := ['%' as int, HexDigitOf(high, upperHigh) as int, HexDigitOf(low, upperLow) as int];
    assert (escape + rest)[3..] == rest;
  }

  /** A character that is no hexadecimal digit. */
  predicate NoDigit(b: Byte) {
    !('0' as int <= b <= '9' as int) && !('a' as int <= b <= 'f' as int) && !('A' as int <= b <= 'F' as int)
  }

  /**
    Any other byte is read alone: a plus sign as a space, everything else as itself.  That
    includes a percent sign with fewer than two bytes behind it, or with two that are not
    both digits, unless the first of them is a plus sign and the second a digit.
  */
  lemma {:induction false} DecodesOtherBytes(b: Byte, rest: Text)
    requires b == '%' as int && |rest| >= 2 ==> (NoDigit(rest[0]) && rest[0] != '+' as int) || NoDigit(rest[1])
    ensures Decode([b] + rest) == [if b == '+' as int then ' ' as int else b] + Decode(rest)
  {
    var text := [b] + rest;
    assert text[1..] == rest;
    assert |rest| >= 2 ==> text[1] == rest[0] && text[2] == rest[1];
  }

  /** A percent sign, a plus sign and a digit are read as the byte with that number. */
  lemma {:induction false} DecodesSignedDigit(low: nat, upperLow: bool, rest: Text)
    requires low < 16
    ensures HexDigitOf(low, upperLow) as int < 128
    ensures Decode(['%' as int, '+' as int, HexDigitOf(low, upperLow) as int] + rest) == [low] + Decode(rest)
  {
    DigitHasItsValue(low, upperLow);
    var escape: Text := ['%' as int, '+' as int, HexDigitOf(low, upperLow) as int];
    assert (escape + rest)[3..] == rest;
  }

  // ---- Parts that are no pairs ----

  lemma {:induction false} NothingToSplitAt(s: Text, separator: Byte)
    requires separator !in s
    ensures SplitOnce(s, separator) == None
  {
    if s != [] {
      NothingToSplitAt(s[1..], separator);
    }
  }

  /** A part without an equals sign, an empty one for instance, is passed over. */
  lemma PartsThatAreNoPairs(part: Text, rest: Text)
    requires '&' as int !in part && '=' as int !in part
    ensures ParseQuery(part + ['&' as int] + rest) == ParseQuery(rest)
  {
    SplitAtFirst(part, AMPERSAND, rest);
    NothingToSplitAt(part, EQUALS);
    assert ([part] + Split(rest, AMPERSAND))[1..] == Split(rest, AMPERSAND);
  }

  /** The first equals sign of a part ends the name; the value may hold more of them. */
  lemma {:induction false} FirstEqualsEndsTheName(name: Text, value: Text, rest: Text)
    requires '&' as int !in name && '=' as int !in name && '&' as int !in value
    ensures ParseQuery(name + ['=' as int] + value + ['&' as int] + rest) == [(Decode(name), Decode(value))] + ParseQuery(rest)
  {
    var part := name + ['=' as int] + value;
    SplitAtFirst(part, AMPERSAND, rest);
    SplitOnceAtFirst(name, EQUALS, value);
    assert ([part] + Split(rest, AMPERSAND))[1..] == Split(rest, AMPERSAND);
  }

  // ---- The sign-in address ----

  /** The nine parameters, each looked up by its name. */
  lemma AuthParamsAre(clientId: Text, challenge: Text, state: Text)
    ensures var value := (name: string) => QueryValue(AuthParams(clientId, challenge, state), Ascii(name));
            && value("client_id") == Some(clientId)
            && value("response_type") == Some(Ascii("code"))
            && value("redirect_uri") == Some(Ascii("http://localhost:19284/auth/callback"))
            && value("scope") == Some(Ascii("https://www.googleapis.com/auth/drive.readonly"))
            && value("access_type") == Some(Ascii("offline"))
            && value("prompt") == Some(Ascii("consent"))
            && value("code_challenge") == Some(challenge)
            && value("code_challenge_method") == Some(Ascii("S256"))
            && value("state") == Some(state)
  {
    var params := AuthParams(clientId, challenge, state);
    assert Ascii("scope")[1] != Ascii("state")[1];
    PairAt(params, 0);
    PairAt(params, 1);
    PairAt(params, 2);
    PairAt(params, 3);
    PairAt(params, 4);
    PairAt(params, 5);
    PairAt(params, 6);
    PairAt(params, 7);
    PairAt(params, 8);
  }

  /** The first pair of its name is found. */
  lemma {:induction false} PairAt(pairs: seq<(Text, Text)>, i: nat)
    requires i < |pairs| && forall j :: 0 <= j < i ==> pairs[j].0 != pairs[i].0
    ensures QueryValue(pairs, pairs[i].0) == Some(pairs[i].1)
  {
    if i > 0 {
      assert pairs[0].0 != pairs[i].0;
      PairAt(pairs[1..], i - 1);
    }
  }

  /** The sign-in address is the endpoint, a question mark, and a query that holds each parameter under its name. */
  lemma AuthUrlAsks(clientId: Text, challenge: Text, state: Text)
    ensures var halves := SplitOnce(AuthUrl(clientId, challenge, state), '?' as int);
            && halves.Some? && halves.value.0 == Ascii("https://accounts.google.com/o/oauth2/v2/auth")
            && var pairs := ParseQuery(halves.value.1);
               |pairs| == 9
               && QueryValue(pairs, Ascii("client_id")) == Some(clientId)
               && QueryValue(pairs, Ascii("code_challenge")) == Some(challenge)
               && QueryValue(pairs, Ascii("state")) == Some(state)
               && QueryValue(pairs, Ascii("redirect_uri")) == Some(Ascii("http://localhost:19284/auth/callback"))
  {
    AuthUrlCarriesItsParams(clientId, challenge, state);
    AuthParamsAre(clientId, challenge, state);
    EndpointHasNoQuery();
    AsciiLacks(AUTH_URL, '?');
    SplitOnceAtFirst(Ascii(AUTH_URL), QUESTION, FormatQuery(AuthParams(clientId, challenge, state)));
  }

  // ---- The callback ----

  /**
    How the pairs of a callback are read: an error denies the sign-in, whatever else there
    is; without one the code is given on, with the state, an absent state being empty.
  */
  lemma {:induction false} CallbackMeans(pairs: seq<(Text, Text)>)
    ensures var error, code, state :=
              QueryValue(pairs, Ascii("error")), QueryValue(pairs, Ascii("code")), QueryValue(pairs, Ascii("state"));
            match ReadCallback(pairs)
            case Err(Denied(reason)) => error == Some(reason)
            case Err(NoCode) => error.None? && code.None?
            case Ok((given, echoed)) =>
              error.None? && code == Some(given) && (state == Some(echoed) || (state.None? && echoed == []))
            case Err(_) => false
  {
  }

  /** A target without a question mark has no query, and a request line of one word no target. */
  lemma CallbackWithoutQuery(verb: Text, path: Text, protocol: Text)
    requires verb != [] && forall b :: b in verb ==> !IsWhitespace(b)
    requires path != [] && QUESTION !in path && forall b :: b in path ==> !IsWhitespace(b)
    ensures ParseCallback(verb + [SPACE] + path + [SPACE] + protocol) == Err(NoQuery)
    ensures ParseCallback(verb) == Err(Malformed)
  {
    SecondWordIs(verb, path, protocol);
    assert verb + [SPACE] + path + [SPACE] + protocol == verb + ([SPACE] + (path + ([SPACE] + protocol)));
    NothingToSplitAt(path, QUESTION);
    WordEndsAtWhitespace(verb, []);
    assert verb + [] == verb;
  }
}
