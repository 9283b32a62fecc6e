/**
  NFO sidecars: what `write_nfo_sidecar` writes (src-tauri/src/enrichment.rs) and what
  `tag_text` reads back (src-tauri/src/content_rating.rs).

  A rating is carried in tenths, as the writer prints it.
*/
module NfoSidecar {
  import opened Wrappers
  import opened Texts
  import Decimal

  // ---- Escaping ----

  const AMP := "&amp;"
  const LT := "&lt;"
  const GT := "&gt;"
  const QUOT := "&quot;"
  const APOS := "&apos;"

  /** Every occurrence of one character replaced by a text. */
  function Replace(s: string, c: char, text: string): string {
    if s == "" then "" else (if s[0] == c then text else [s[0]]) + Replace(s[1..], c, text)
  }

  /** The five replacements, one after the other. */
  function XmlEscape(s: string): string {
    Replace(Replace(Replace(Replace(Replace(s, '&', AMP), '<', LT), '>', GT), '"', QUOT), '\'', APOS)
  }

  function EscapeChar(c: char): string {
    match c
    case '&' => AMP
    case '<' => LT
    case '>' => GT
    case '"' => QUOT
    case '\'' => APOS
    case _ => [c]
  }

  function EscapeOnce(s: string): string {
    if s == "" then "" else EscapeChar(s[0]) + EscapeOnce(s[1..])
  }

  predicate Starts(s: string, prefix: string) {
    |prefix| <= |s| && s[..|prefix|] == prefix
  }

  /** The reader's inverse of escaping. */
  function Unescape(s: string): string
    decreases |s|
  {
    if s == "" then ""
    else if Starts(s, AMP) then "&" + Unescape(s[5..])
    else if Starts(s, LT) then "<" + Unescape(s[4..])
    else if Starts(s, GT) then ">" + Unescape(s[4..])
    else if Starts(s, QUOT) then "\"" + Unescape(s[6..])
    else if Starts(s, APOS) then "'" + Unescape(s[6..])
    else [s[0]] + Unescape(s[1..])
  }

  lemma {:induction false} ReplaceSplits(a: string, b: string, c: char, text: string)
    ensures Replace(a + b, c, text) == Replace(a, c, text) + Replace(b, c, text)
  {
    if a == "" {
      assert a + b == b;
    } else {
      ReplaceSplits(a[1..], b, c, text);
      TailOfSum(a, b);
      SumIsAssociative(if a[0] == c then text else [a[0]], Replace(a[1..], c, text), Replace(b, c, text));
    }
  }

  lemma {:induction false} ReplaceMisses(s: string, c: char, text: string)
    requires Lacks(s, c)
    ensures Replace(s, c, text) == s
  {
    if s != "" {
      ReplaceMisses(s[1..], c, text);
    }
  }

  lemma EscapeSplits(a: string, b: string)
    ensures XmlEscape(a + b) == XmlEscape(a) + XmlEscape(b)
  {
    ReplaceSplits(a, b, '&', AMP);
    var a1, b1 := Replace(a, '&', AMP), Replace(b, '&', AMP);
    ReplaceSplits(a1, b1, '<', LT);
    var a2, b2 := Replace(a1, '<', LT), Replace(b1, '<', LT);
    ReplaceSplits(a2, b2, '>', GT);
    var a3, b3 := Replace(a2, '>', GT), Replace(b2, '>', GT);
    ReplaceSplits(a3, b3, '"', QUOT);
    ReplaceSplits(Replace(a3, '"', QUOT), Replace(b3, '"', QUOT), '\'', APOS);
  }

  lemma {:induction false} ReplaceOne(x: char, c: char, text: string)
    ensures Replace([x], c, text) == if x == c then text else [x]
  {
    assert [x][1..] == "";
  }

  lemma EntitiesLackLaterCharacters()
    ensures Lacks(AMP, '<') && Lacks(AMP, '>') && Lacks(AMP, '"') && Lacks(AMP, '\'')
    ensures Lacks(LT, '>') && Lacks(LT, '"') && Lacks(LT, '\'')
    ensures Lacks(GT, '"') && Lacks(GT, '\'')
    ensures Lacks(QUOT, '\'')
  {
  }

  /** Replacing in an entity, or in a single character, changes it only if it is that character. */
  lemma {:induction false} ReplaceStep(s: string, x: char, c: char, text: string)
    requires s == [x] || Lacks(s, c)
    ensures Replace(s, c, text) == if s == [x] && x == c then text else s
  {
    if s == [x] {
      ReplaceOne(x, c, text);
    } else {
      ReplaceMisses(s, c, text);
    }
  }

  lemma EscapeOneChar(c: char)
    ensures XmlEscape([c]) == EscapeChar(c)
  {
    EntitiesLackLaterCharacters();
    var one := if c == '&' then AMP else [c];
    var two := if c == '<' then LT else one;
    var three := if c == '>' then GT else two;
    var four := if c == '"' then QUOT else three;
    ReplaceStep([c], c, '&', AMP);
    ReplaceStep(one, c, '<', LT);
    ReplaceStep(two, c, '>', GT);
    ReplaceStep(three, c, '"', QUOT);
    ReplaceStep(four, c, '\'', APOS);
  }

  /** The five successive replacements equal a single pass that escapes each character once. */
  lemma {:induction false} EscapeIsOnePass(s: string)
    ensures XmlEscape(s) == EscapeOnce(s)
  {
    if s != "" {
      assert s == [s[0]] + s[1..];
      EscapeSplits([s[0]], s[1..]);
      EscapeOneChar(s[0]);
      EscapeIsOnePass(s[1..]);
    }
  }

  predicate Undone(c: char, code: string, rest: string) {
    Unescape(code + rest) == [c] + Unescape(rest)
  }

  lemma UnescapeAmp(rest: string)
    ensures Undone('&', AMP, rest)
  {
    var s := AMP + rest;
    assert s[..|AMP|] == AMP && s[|AMP|..] == rest;
  }

  lemma UnescapeLt(rest: string)
    ensures Undone('<', LT, rest)
  {
    var s := LT + rest;
    assert s[..|LT|] == LT && s[|LT|..] == rest;
    assert s[1] == LT[1];
  }

  lemma UnescapeGt(rest: string)
    ensures Undone('>', GT, rest)
  {
    var s := GT + rest;
    assert s[..|GT|] == GT && s[|GT|..] == rest;
    assert s[1] == GT[1];
  }

  lemma UnescapeQuot(rest: string)
    ensures Undone('"', QUOT, rest)
  {
    var s := QUOT + rest;
    assert s[..|QUOT|] == QUOT && s[|QUOT|..] == rest;
    assert s[1] == QUOT[1];
  }

  lemma UnescapeApos(rest: string)
    ensures Undone('\'', APOS, rest)
  {
    var s := APOS + rest;
    assert s[..|APOS|] == APOS && s[|APOS|..] == rest;
    assert s[1] == APOS[1] && s[2] == APOS[2];
  }

  lemma UnescapePlain(c: char, rest: string)
    requires c != '&'
    ensures Undone(c, [c], rest)
  {
    var s := [c] + rest;
    assert s[1..] == rest;
    assert forall prefix :: Starts(s, prefix) && prefix != "" ==> prefix[0] == s[..|prefix|][0] == c;
  }

  lemma UnescapeOneChar(c: char, rest: string)
    ensures Undone(c, EscapeChar(c), rest)
  {
    UnescapeAmp(rest);
    UnescapeLt(rest);
    UnescapeGt(rest);
    UnescapeQuot(rest);
    UnescapeApos(rest);
    if c != '&' {
      UnescapePlain(c, rest);
    }
  }

  /** Unescaping undoes escaping, for every text; so no two texts are escaped alike. */
  lemma {:induction false} UnescapeUndoesEscape(s: string)
    ensures Unescape(XmlEscape(s)) == s
  {
    EscapeIsOnePass(s);
    if s != "" {
      EscapeIsOnePass(s[1..]);
      UnescapeOneChar(s[0], EscapeOnce(s[1..]));
      UnescapeUndoesEscape(s[1..]);
    }
  }

  predicate Plain(s: string) {
    forall i :: 0 <= i < |s| ==> s[i] != '<' && s[i] != '>' && s[i] != '"' && s[i] != '\''
  }

  lemma EscapeCharIsPlain(c: char)
    ensures Plain(EscapeChar(c))
  {
  }

  /** Escaped text holds no markup character. */
  lemma {:induction false} EscapedIsPlain(s: string)
    ensures Plain(EscapeOnce(s))
  {
    if s != "" {
      EscapeCharIsPlain(s[0]);
      EscapedIsPlain(s[1..]);
    }
  }

  // ---- Reading a tag ----

  predicate OccursAt(s: string, pattern: string, i: nat) {
    i + |pattern| <= |s| && forall k :: 0 <= k < |pattern| ==> s[i + k] == pattern[k]
  }

  /** The first occurrence of a pattern. */
  function Find(s: string, pattern: string): (at: Option<nat>)
    ensures at.Some? ==> OccursAt(s, pattern, at.value) && forall i :: 0 <= i < at.value ==> !OccursAt(s, pattern, i)
    ensures at.None? ==> forall i :: 0 <= i <= |s| ==> !OccursAt(s, pattern, i)
  {
    FindFrom(s, pattern, 0)
  }

  function FindFrom(s: string, pattern: string, from: nat): (at: Option<nat>)
    requires from <= |s| + 1
    ensures at.Some? ==> from <= at.value && OccursAt(s, pattern, at.value)
    ensures at.Some? ==> forall i :: from <= i < at.value ==> !OccursAt(s, pattern, i)
    ensures at.None? ==> forall i :: from <= i <= |s| ==> !OccursAt(s, pattern, i)
    decreases |s| + 1 - from
  {
    if from > |s| then None
    else if OccursAt(s, pattern, from) then Some(from)
    else FindFrom(s, pattern, from + 1)
  }

  const CDATA_OPEN := "<![CDATA["
  const CDATA_CLOSE := "]]>"

  /** The text without a CDATA wrapper, if it has a whole one. */
  function Unwrap(text: string): string {
    if Starts(text, CDATA_OPEN) then
      var rest := text[|CDATA_OPEN|..];
      if |CDATA_CLOSE| <= |rest| && rest[|rest| - |CDATA_CLOSE|..] == CDATA_CLOSE
      then rest[..|rest| - |CDATA_CLOSE|] else text
    else
      text
  }

  function NonEmpty(text: string): Option<string> {
    if text == "" then None else Some(text)
  }

  /** The text before and after the first occurrence of a pattern, upper and lower case being the same. */
  function CutAt(xml: string, pattern: string): Option<(string, string)> {
    match Find(Lower(xml), pattern)
    case None => None
    case Some(at) => Some((xml[..at], xml[at + |pattern|..]))
  }

  function OpenTag(tag: string): string {
    "<" + tag + ">"
  }

  function CloseTag(tag: string): string {
    "</" + tag + ">"
  }

  /** What stands between the first opening tag and the closing tag that follows it. */
  function Element(xml: string, tag: string): Option<string> {
    match CutAt(xml, OpenTag(tag))
    case None => None
    case Some((_, rest)) =>
      match CutAt(rest, CloseTag(tag))
      case None => None
      case Some((content, _)) => Some(content)
  }

  function TagText(xml: string, tag: string): Option<string> {
    match Element(xml, tag)
    case None => None
    case Some(content) => NonEmpty(Trim(Unwrap(Trim(content))))
  }

  // ---- Writing the sidecar ----

  datatype Nfo = Nfo(
    title: string,
    year: Option<int>,
    overview: Option<string>,
    ratingTenths: Option<nat>,
    genre: Option<string>,
    tmdbId: Option<string>,
    imdbId: Option<string>,
    posterPath: Option<string>)

  function OrEmpty(text: Option<string>): string {
    if text.Some? then text.value else ""
  }

  function Escaped(text: Option<string>): string {
    if text.Some? then XmlEscape(text.value) else ""
  }

  function RatingText(tenths: Option<nat>): string {
    if tenths.Some? then Decimal.OfNat(tenths.value / 10) + "." + [Decimal.Digit(tenths.value % 10)] else ""
  }

  /** One line of the sidecar. */
  datatype Node = Node(open: string, text: string, close: string) {
    function Render(): string {
      "\t" + (open + (text + (close + "\n")))
    }
  }

  function Nodes(nfo: Nfo): seq<Node> {
    [Node("<title>", XmlEscape(nfo.title), "</title>"),
     Node("<year>", if nfo.year.Some? then Decimal.OfInt(nfo.year.value) else "", "</year>"),
     Node("<plot>", Escaped(nfo.overview), "</plot>"),
     Node("<rating>", RatingText(nfo.ratingTenths), "</rating>"),
     Node("<genre>", Escaped(nfo.genre), "</genre>"),
     Node("<uniqueid type=\"tmdb\">", OrEmpty(nfo.tmdbId), "</uniqueid>"),
     Node("<uniqueid type=\"imdb\">", OrEmpty(nfo.imdbId), "</uniqueid>"),
     Node("<thumb aspect=\"poster\">", OrEmpty(nfo.posterPath), "</thumb>")]
  }

  function Lines(nodes: seq<Node>): seq<string> {
    seq(|nodes|, i requires 0 <= i < |nodes| => nodes[i].Render())
  }

  function Concat(texts: seq<string>): string {
    if texts == [] then "" else texts[0] + Concat(texts[1..])
  }

  function RenderAll(nodes: seq<Node>): string {
    Concat(Lines(nodes))
  }

  const DECLARATION := "<?xml version=\"1.0\" " + "encoding=\"UTF-8\" " + "standalone=\"yes\"?>\n"
  const ROOT_OPEN := "<movie>\n"
  const ROOT_CLOSE := "</movie>\n"

  function Document(nfo: Nfo): string {
    DECLARATION + ROOT_OPEN + (RenderAll(Nodes(nfo)) + ROOT_CLOSE)
  }

  // ---- Finding a tag ----

  /** Whatever follows `s`, the pattern does not begin inside `s`. */
  ghost predicate NeverBegins(s: string, pattern: string) {
    forall i :: 0 <= i < |s| ==> MismatchAt(s, pattern, i)
  }

  ghost predicate MismatchAt(s: string, pattern: string, i: nat)
    requires i < |s|
  {
    exists k :: 0 <= k < |pattern| && i + k < |s| && LowerChar(s[i + k]) != pattern[k]
  }

  lemma NotInHead(head: string, tail: string, pattern: string, i: nat)
    requires i < |head| && MismatchAt(head, pattern, i)
    ensures !OccursAt(Lower(head + tail), pattern, i)
  {
    var k :| 0 <= k < |pattern| && i + k < |head| && LowerChar(head[i + k]) != pattern[k];
    assert Lower(head + tail)[i + k] == LowerChar(head[i + k]);
  }

  lemma ShiftedOccurrence(head: string, tail: string, pattern: string, i: nat)
    ensures OccursAt(Lower(head + tail), pattern, |head| + i) <==> OccursAt(Lower(tail), pattern, i)
  {
    assert Lower(head + tail)[|head|..] == Lower(tail);
    assert forall j :: 0 <= j < |tail| ==> Lower(tail)[j] == Lower(head + tail)[|head| + j];
  }

  /** A first occurrence is found behind a head in which the pattern never begins. */
  lemma BeginsLater(head: string, tail: string, pattern: string)
    requires NeverBegins(head, pattern)
    ensures var at := Find(Lower(tail), pattern);
            Find(Lower(head + tail), pattern) == if at.Some? then Some(|head| + at.value) else None
  {
    forall i | 0 <= i < |head| ensures !OccursAt(Lower(head + tail), pattern, i) {
      NotInHead(head, tail, pattern, i);
    }
    var at := Find(Lower(tail), pattern);
    var found := Find(Lower(head + tail), pattern);
    if found.Some? {
      ShiftedOccurrence(head, tail, pattern, found.value - |head|);
    }
    if at.Some? {
      ShiftedOccurrence(head, tail, pattern, at.value);
    }
  }

  lemma NeverBeginsAppends(a: string, b: string, pattern: string)
    requires NeverBegins(a, pattern) && NeverBegins(b, pattern)
    ensures NeverBegins(a + b, pattern)
  {
    forall i | 0 <= i < |a + b| ensures MismatchAt(a + b, pattern, i) {
      if i < |a| {
        assert MismatchAt(a, pattern, i);
        var k :| 0 <= k < |pattern| && i + k < |a| && LowerChar(a[i + k]) != pattern[k];
        assert (a + b)[i + k] == a[i + k];
      } else {
        assert MismatchAt(b, pattern, i - |a|);
        var k :| 0 <= k < |pattern| && i - |a| + k < |b| && LowerChar(b[i - |a| + k]) != pattern[k];
        assert (a + b)[i + k] == b[i - |a| + k];
      }
    }
  }

  lemma TextNeverBeginsTag(s: string, pattern: string)
    requires Lacks(s, '<') && pattern != "" && pattern[0] == '<'
    ensures NeverBegins(s, pattern)
  {
    forall i | 0 <= i < |s| ensures MismatchAt(s, pattern, i) {
      assert LowerChar(s[i + 0]) != pattern[0];
    }
  }

  /** One tag: it opens once, and the given character follows. */
  predicate Markup(s: string, second: char) {
    |s| >= 2 && s[0] == '<' && s[1] == second && forall i :: 1 <= i < |s| ==> s[i] != '<'
  }

  lemma OtherTagNeverBegins(s: string, second: char, pattern: string)
    requires Markup(s, second) && |pattern| >= 2 && pattern[0] == '<' && LowerChar(second) != pattern[1]
    ensures NeverBegins(s, pattern)
  {
    forall i | 0 <= i < |s| ensures MismatchAt(s, pattern, i) {
      assert LowerChar(s[i + 0]) != pattern[0] || LowerChar(s[i + 1]) != pattern[1];
    }
  }

  // ---- Trimming ----

  lemma EscapeCharEnds(c: char)
    ensures |EscapeChar(c)| > 0
    ensures IsWhite(c) ==> EscapeChar(c) == [c]
    ensures !IsWhite(c) ==> !IsWhite(EscapeChar(c)[0]) && !IsWhite(EscapeChar(c)[|EscapeChar(c)| - 1])
  {
  }

  lemma {:induction false} EscapeOnceSplits(a: string, b: string)
    ensures EscapeOnce(a + b) == EscapeOnce(a) + EscapeOnce(b)
  {
    if a == "" {
      assert a + b == b;
    } else {
      EscapeOnceSplits(a[1..], b);
      TailOfSum(a, b);
      SumIsAssociative(EscapeChar(a[0]), EscapeOnce(a[1..]), EscapeOnce(b));
    }
  }

  lemma {:induction false} TrimStartOfEscaped(s: string)
    ensures TrimStart(EscapeOnce(s)) == EscapeOnce(TrimStart(s))
  {
    if s != "" {
      EscapeCharEnds(s[0]);
      TrimStartOfEscaped(s[1..]);
      if IsWhite(s[0]) {
        assert EscapeOnce(s)[1..] == EscapeOnce(s[1..]);
      }
    }
  }

  lemma {:induction false} TrimEndOfEscaped(s: string)
    ensures TrimEnd(EscapeOnce(s)) == EscapeOnce(TrimEnd(s))
  {
    if s != "" {
      var front, last := s[..|s| - 1], s[|s| - 1];
      assert s == front + [last];
      EscapeOnceSplits(front, [last]);
      assert EscapeOnce([last]) == EscapeChar(last);
      EscapeCharEnds(last);
      TrimEndOfEscaped(front);
      if IsWhite(last) {
        assert EscapeOnce(s)[..|EscapeOnce(s)| - 1] == EscapeOnce(front);
      }
    }
  }

  /** Trimming and escaping commute. */
  lemma TrimOfEscaped(s: string)
    ensures Trim(XmlEscape(s)) == XmlEscape(Trim(s))
  {
    EscapeIsOnePass(s);
    EscapeIsOnePass(Trim(s));
    TrimStartOfEscaped(s);
    TrimEndOfEscaped(TrimStart(s));
  }

  // ---- Reading back ----

  predicate IsTagName(tag: string) {
    forall i :: 0 <= i < |tag| ==> 'a' <= tag[i] <= 'z'
  }

  predicate IsLower(pattern: string) {
    forall i :: 0 <= i < |pattern| ==> LowerChar(pattern[i]) == pattern[i]
  }

  lemma OpensAtOnce(pattern: string, tail: string)
    requires IsLower(pattern)
    ensures Find(Lower(pattern + tail), pattern) == Some(0)
  {
    assert OccursAt(Lower(pattern + tail), pattern, 0);
  }

  lemma FoundBehindHead(head: string, pattern: string, tail: string)
    requires NeverBegins(head, pattern) && IsLower(pattern)
    ensures Find(Lower(head + (pattern + tail)), pattern) == Some(|head|)
  {
    BeginsLater(head, pattern + tail, pattern);
    OpensAtOnce(pattern, tail);
  }

  lemma CutsBehindHead(head: string, pattern: string, tail: string)
    requires NeverBegins(head, pattern) && IsLower(pattern)
    ensures CutAt(head + (pattern + tail), pattern) == Some((head, tail))
  {
    FoundBehindHead(head, pattern, tail);
    Slices(head, pattern, tail);
  }

  lemma Slices(a: string, b: string, c: string)
    ensures (a + (b + c))[..|a|] == a && (a + (b + c))[|a| + |b|..] == c
  {
  }

  lemma TagsAreLower(tag: string)
    requires IsTagName(tag)
    ensures IsLower(OpenTag(tag)) && IsLower(CloseTag(tag))
  {
  }

  lemma ElementReads(head: string, tag: string, text: string, tail: string)
    requires IsTagName(tag) && NeverBegins(head, OpenTag(tag)) && Lacks(text, '<')
    ensures Element(head + (OpenTag(tag) + (text + (CloseTag(tag) + tail))), tag) == Some(text)
  {
    TagsAreLower(tag);
    CutsBehindHead(head, OpenTag(tag), text + (CloseTag(tag) + tail));
    TextNeverBeginsTag(text, CloseTag(tag));
    CutsBehindHead(text, CloseTag(tag), tail);
  }

  lemma UnwrapKeepsText(text: string)
    requires Lacks(text, '<')
    ensures Unwrap(text) == text
  {
    assert |text| >= |CDATA_OPEN| ==> text[..|CDATA_OPEN|][0] == text[0] != CDATA_OPEN[0];
  }

  /** The first element of that name, if its text holds no tag, reads as its trimmed text. */
  lemma TagReads(head: string, tag: string, text: string, tail: string)
    requires IsTagName(tag) && NeverBegins(head, OpenTag(tag)) && Lacks(text, '<')
    ensures TagText(head + (OpenTag(tag) + (text + (CloseTag(tag) + tail))), tag) == NonEmpty(Trim(text))
  {
    ElementReads(head, tag, text, tail);
    TrimIsSlice(text, '<');
    UnwrapKeepsText(Trim(text));
  }

  lemma TagIsAbsent(xml: string, tag: string)
    requires NeverBegins(xml, OpenTag(tag))
    ensures TagText(xml, tag) == None
  {
    assert xml + "" == xml;
    BeginsLater(xml, "", OpenTag(tag));
  }

  // ---- The sidecar's own tags ----

  function SecondChar(i: nat): char
    requires i < 8
  {
    ['t', 'y', 'p', 'r', 'g', 'u', 'u', 't'][i]
  }

  lemma OpenTagsAreMarkup()
    ensures Markup("<title>", 't') && Markup("<year>", 'y') && Markup("<plot>", 'p') && Markup("<rating>", 'r')
    ensures Markup("<genre>", 'g') && Markup("<thumb aspect=\"poster\">", 't')
    ensures Markup("<uniqueid type=\"tmdb\">", 'u') && Markup("<uniqueid type=\"imdb\">", 'u')
  {
  }

  lemma CloseTagsAreMarkup()
    ensures Markup("</title>", '/') && Markup("</year>", '/') && Markup("</plot>", '/') && Markup("</rating>", '/')
    ensures Markup("</genre>", '/') && Markup("</uniqueid>", '/') && Markup("</thumb>", '/')
  {
  }

  lemma NodesAreMarkup(nfo: Nfo, i: nat)
    requires i < 8
    ensures Markup(Nodes(nfo)[i].open, SecondChar(i)) && Markup(Nodes(nfo)[i].close, '/')
  {
    OpenTagsAreMarkup();
    CloseTagsAreMarkup();
  }

  lemma EscapedLacksMarkup(text: string)
    ensures Lacks(XmlEscape(text), '<')
  {
    EscapeIsOnePass(text);
    EscapedIsPlain(text);
  }

  lemma YearLacksMarkup(year: int)
    ensures Lacks(Decimal.OfInt(year), '<')
  {
    Decimal.OfNatHasOnlyDigits(if year < 0 then -year else year);
  }

  lemma RatingLacksMarkup(tenths: Option<nat>)
    ensures Lacks(RatingText(tenths), '<')
  {
    if tenths.Some? {
      Decimal.OfNatHasOnlyDigits(tenths.value / 10);
    }
  }

  lemma FieldsLackMarkup(nfo: Nfo, i: nat)
    requires i < 5
    ensures Lacks(Nodes(nfo)[i].text, '<')
  {
    EscapedLacksMarkup(nfo.title);
    EscapedLacksMarkup(OrEmpty(nfo.overview));
    EscapedLacksMarkup(OrEmpty(nfo.genre));
    RatingLacksMarkup(nfo.ratingTenths);
    if nfo.year.Some? {
      YearLacksMarkup(nfo.year.value);
    }
  }

  /** The text holds no such tag, upper and lower case being the same. */
  predicate Free(text: string, pattern: string) {
    Find(Lower(text), pattern).None?
  }

  /** A tag to look for: it begins with the only angle bracket that opens in it. */
  predicate Angled(pattern: string) {
    |pattern| >= 2 && pattern[0] == '<' && forall i :: 1 <= i < |pattern| ==> pattern[i] != '<'
  }

  /** An opening tag to look for. */
  predicate Sought(pattern: string) {
    Angled(pattern) && pattern[1] != '/'
  }

  lemma PlainTextIsFree(text: string, pattern: string)
    requires Lacks(text, '<') && Sought(pattern)
    ensures Free(text, pattern)
  {
    forall i | 0 <= i <= |text| ensures !OccursAt(Lower(text), pattern, i) {
      assert i < |text| ==> Lower(text)[i + 0] == LowerChar(text[i]) != '<';
    }
  }

  /** A text without the tag, followed by another tag, does not begin the tag anywhere. */
  lemma FreeTextNeverBegins(text: string, next: string, pattern: string)
    requires Free(text, pattern) && Angled(pattern) && next != "" && next[0] == '<' && NeverBegins(next, pattern)
    ensures NeverBegins(text + next, pattern)
  {
    forall i | 0 <= i < |text + next| ensures MismatchAt(text + next, pattern, i) {
      if i + |pattern| <= |text| {
        assert !OccursAt(Lower(text), pattern, i);
        var k :| 0 <= k < |pattern| && Lower(text)[i + k] != pattern[k];
        assert LowerChar((text + next)[i + k]) != pattern[k];
      } else if i < |text| {
        var k := |text| - i;
        assert (text + next)[i + k] == '<';
        assert LowerChar((text + next)[i + k]) != pattern[k];
      } else {
        assert MismatchAt(next, pattern, i - |text|);
        var k :| 0 <= k < |pattern| && i - |text| + k < |next| && LowerChar(next[i - |text| + k]) != pattern[k];
        assert (text + next)[i + k] == next[i - |text| + k];
      }
    }
  }

  lemma NodeNeverBegins(node: Node, second: char, pattern: string)
    requires Sought(pattern) && Free(node.text, pattern)
    requires Markup(node.open, second) && LowerChar(second) != pattern[1] && Markup(node.close, '/')
    ensures NeverBegins(node.Render(), pattern)
  {
    OtherTagNeverBegins(node.open, second, pattern);
    OtherTagNeverBegins(node.close, '/', pattern);
    TextNeverBeginsTag("\n", pattern);
    TextNeverBeginsTag("\t", pattern);
    NeverBeginsAppends(node.close, "\n", pattern);
    FreeTextNeverBegins(node.text, node.close + "\n", pattern);
    NeverBeginsAppends(node.open, node.text + (node.close + "\n"), pattern);
    NeverBeginsAppends("\t", node.open + (node.text + (node.close + "\n")), pattern);
  }

  lemma {:induction false} ConcatNeverBegins(texts: seq<string>, pattern: string)
    requires forall i :: 0 <= i < |texts| ==> NeverBegins(texts[i], pattern)
    ensures NeverBegins(Concat(texts), pattern)
  {
    if texts != [] {
      ConcatNeverBegins(texts[1..], pattern);
      NeverBeginsAppends(texts[0], Concat(texts[1..]), pattern);
    }
  }

  lemma DeclarationIsMarkup()
    ensures Markup(DECLARATION, '?')
  {
  }

  /** The lines before line `i` do not begin the tag. */
  lemma PreambleNeverBegins(nfo: Nfo, i: nat, pattern: string)
    requires i <= 8 && Sought(pattern) && pattern[1] != '?' && NeverBegins(ROOT_OPEN, pattern)
    requires forall j :: 0 <= j < i ==> SecondChar(j) != pattern[1] && Free(Nodes(nfo)[j].text, pattern)
    ensures NeverBegins(DECLARATION + ROOT_OPEN + RenderAll(Nodes(nfo)[..i]), pattern)
  {
    forall j | 0 <= j < i ensures NeverBegins(Nodes(nfo)[..i][j].Render(), pattern) {
      NodesAreMarkup(nfo, j);
      NodeNeverBegins(Nodes(nfo)[j], SecondChar(j), pattern);
    }
    ConcatNeverBegins(Lines(Nodes(nfo)[..i]), pattern);
    DeclarationIsMarkup();
    OtherTagNeverBegins(DECLARATION, '?', pattern);
    NeverBeginsAppends(DECLARATION, ROOT_OPEN, pattern);
    NeverBeginsAppends(DECLARATION + ROOT_OPEN, RenderAll(Nodes(nfo)[..i]), pattern);
  }

  lemma {:induction false} ConcatSplits(a: seq<string>, b: seq<string>)
    ensures Concat(a + b) == Concat(a) + Concat(b)
  {
    if a == [] {
      assert a + b == b;
    } else {
      ConcatSplits(a[1..], b);
      TailOfSum(a, b);
      SumIsAssociative(a[0], Concat(a[1..]), Concat(b));
    }
  }

  lemma RenderAllSplits(a: seq<Node>, b: seq<Node>)
    ensures RenderAll(a + b) == RenderAll(a) + RenderAll(b)
  {
    assert Lines(a + b) == Lines(a) + Lines(b);
    ConcatSplits(Lines(a), Lines(b));
  }

  lemma RenderAroundLine(nodes: seq<Node>, i: nat)
    requires i < |nodes|
    ensures RenderAll(nodes) == RenderAll(nodes[..i]) + (nodes[i].Render() + RenderAll(nodes[i + 1..]))
  {
    var node := nodes[i];
    assert nodes == nodes[..i] + ([node] + nodes[i + 1..]);
    RenderAllSplits(nodes[..i], [node] + nodes[i + 1..]);
    RenderAllSplits([node], nodes[i + 1..]);
    assert Lines([node]) == [node.Render()];
    assert Concat([node.Render()]) == node.Render() + Concat([]);
  }

  lemma DocumentAroundLine(nfo: Nfo, i: nat)
    requires i < 8
    ensures var node := Nodes(nfo)[i];
            Document(nfo) == (DECLARATION + ROOT_OPEN + RenderAll(Nodes(nfo)[..i]) + "\t")
              + (node.open + (node.text + (node.close + ("\n" + RenderAll(Nodes(nfo)[i + 1..]) + ROOT_CLOSE))))
  {
    RenderAroundLine(Nodes(nfo), i);
    Regroup(DECLARATION + ROOT_OPEN, RenderAll(Nodes(nfo)[..i]), Nodes(nfo)[i], RenderAll(Nodes(nfo)[i + 1..]));
  }

  lemma Regroup(prolog: string, before: string, node: Node, after: string)
    ensures prolog + ((before + (node.Render() + after)) + ROOT_CLOSE)
            == (prolog + before + "\t") + (node.open + (node.text + (node.close + ("\n" + after + ROOT_CLOSE))))
  {
    var tail := "\n" + after + ROOT_CLOSE;
    assert node.Render() + after + ROOT_CLOSE == "\t" + (node.open + (node.text + (node.close + tail)));
  }

  lemma LineReads(nfo: Nfo, i: nat, tag: string)
    requires i <= 4 && IsTagName(tag) && |tag| > 0 && tag[0] != 'm'
    requires forall j :: 0 <= j < i ==> SecondChar(j) != tag[0]
    requires Nodes(nfo)[i].open == OpenTag(tag) && Nodes(nfo)[i].close == CloseTag(tag)
    ensures TagText(Document(nfo), tag) == NonEmpty(Trim(Nodes(nfo)[i].text))
  {
    var node := Nodes(nfo)[i];
    var open := OpenTag(tag);
    FieldsLackMarkup(nfo, i);
    forall j | 0 <= j < i ensures Free(Nodes(nfo)[j].text, open) {
      FieldsLackMarkup(nfo, j);
      PlainTextIsFree(Nodes(nfo)[j].text, open);
    }
    OtherTagNeverBegins(ROOT_OPEN, 'm', open);
    PreambleNeverBegins(nfo, i, open);
    TextNeverBeginsTag("\t", open);
    NeverBeginsAppends(DECLARATION + ROOT_OPEN + RenderAll(Nodes(nfo)[..i]), "\t", open);
    DocumentAroundLine(nfo, i);
    TagReads(DECLARATION + ROOT_OPEN + RenderAll(Nodes(nfo)[..i]) + "\t", tag, node.text,
             "\n" + RenderAll(Nodes(nfo)[i + 1..]) + ROOT_CLOSE);
  }

  /** The reading undone: what an unescaping reader gets from a tag. */
  function ReadTag(xml: string, tag: string): Option<string> {
    match TagText(xml, tag)
    case Some(text) => Some(Unescape(text))
    case None => None
  }

  lemma EscapedFieldReadsBack(field: string)
    ensures Trim(XmlEscape(field)) == "" <==> Trim(field) == ""
    ensures Unescape(Trim(XmlEscape(field))) == Trim(field)
  {
    TrimOfEscaped(field);
    UnescapeUndoesEscape(Trim(field));
    UnescapeUndoesEscape("");
  }

  lemma LineReadsBack(nfo: Nfo, i: nat, tag: string, field: string)
    requires i <= 4 && IsTagName(tag) && |tag| > 0 && tag[0] != 'm'
    requires forall j :: 0 <= j < i ==> SecondChar(j) != tag[0]
    requires Nodes(nfo)[i] == Node(OpenTag(tag), XmlEscape(field), CloseTag(tag))
    ensures ReadTag(Document(nfo), tag) == NonEmpty(Trim(field))
  {
    LineReads(nfo, i, tag);
    EscapedFieldReadsBack(field);
  }

  /** Whatever the texts contain, the sidecar reads back as the trimmed title, plot and genre. */
  lemma TitleReadsBack(nfo: Nfo)
    ensures ReadTag(Document(nfo), "title") == NonEmpty(Trim(nfo.title))
  {
    LineReadsBack(nfo, 0, "title", nfo.title);
  }

  lemma PlotReadsBack(nfo: Nfo)
    ensures ReadTag(Document(nfo), "plot") == NonEmpty(Trim(OrEmpty(nfo.overview)))
  {
    LineReadsBack(nfo, 2, "plot", OrEmpty(nfo.overview));
  }

  lemma GenreReadsBack(nfo: Nfo)
    ensures ReadTag(Document(nfo), "genre") == NonEmpty(Trim(OrEmpty(nfo.genre)))
  {
    LineReadsBack(nfo, 4, "genre", OrEmpty(nfo.genre));
  }
}
