/**
  Which NFO sidecars are read as carrying a rating (src-tauri/src/content_rating.rs):
  exactly those whose unescaped fields spell a rating element.
*/
module NfoRatings {
  import opened Wrappers
  import opened Texts
  import opened NfoSidecar

  // ---- The certification ----

  /** The first of the two tags whose text yields a certification. */
  function NfoCertification(xml: string, pick: string -> Option<string>): Option<string> {
    var mpaa := TagText(xml, "mpaa");
    if mpaa.Some? && pick(mpaa.value).Some? then pick(mpaa.value)
    else
      var certification := TagText(xml, "certification");
      if certification.Some? then pick(certification.value) else None
  }

  /** The fields that are written without escaping do not hold the tag. */
  predicate RawFieldsFree(nfo: Nfo, pattern: string) {
    Free(OrEmpty(nfo.tmdbId), pattern) && Free(OrEmpty(nfo.imdbId), pattern) && Free(OrEmpty(nfo.posterPath), pattern)
  }

  lemma RootNeverBeginsCertification()
    ensures NeverBegins(ROOT_OPEN, OpenTag("mpaa")) && NeverBegins(ROOT_OPEN, OpenTag("certification"))
  {
    var mpaa := OpenTag("mpaa");
    forall i | 0 <= i < |ROOT_OPEN| ensures MismatchAt(ROOT_OPEN, mpaa, i) {
      assert LowerChar(ROOT_OPEN[i + 0]) != mpaa[0] || LowerChar(ROOT_OPEN[i + 2]) != mpaa[2];
    }
    OtherTagNeverBegins(ROOT_OPEN, 'm', OpenTag("certification"));
  }

  lemma DocumentNeverBegins(nfo: Nfo, pattern: string)
    requires Sought(pattern) && (pattern[1] == 'm' || pattern[1] == 'c')
    requires NeverBegins(ROOT_OPEN, pattern) && RawFieldsFree(nfo, pattern)
    ensures NeverBegins(Document(nfo), pattern)
  {
    forall j | 0 <= j < 8 ensures Free(Nodes(nfo)[j].text, pattern) {
      if j < 5 {
        FieldsLackMarkup(nfo, j);
        PlainTextIsFree(Nodes(nfo)[j].text, pattern);
      }
    }
    PreambleNeverBegins(nfo, 8, pattern);
    assert Nodes(nfo)[..8] == Nodes(nfo);
    var head := DECLARATION + ROOT_OPEN + RenderAll(Nodes(nfo));
    OtherTagNeverBegins(ROOT_CLOSE, '/', pattern);
    NeverBeginsAppends(head, ROOT_CLOSE, pattern);
    assert Document(nfo) == head + ROOT_CLOSE;
  }

  /**
    A sidecar carries no certification: whatever the fields are, as long as none of the
    three that are written raw holds such a tag, the rating reader finds nothing in it.
  */
  lemma SidecarHasNoCertification(nfo: Nfo, pick: string -> Option<string>)
    requires RawFieldsFree(nfo, OpenTag("mpaa")) && RawFieldsFree(nfo, OpenTag("certification"))
    ensures NfoCertification(Document(nfo), pick) == None
  {
    RootNeverBeginsCertification();
    DocumentNeverBegins(nfo, OpenTag("mpaa"));
    DocumentNeverBegins(nfo, OpenTag("certification"));
    TagIsAbsent(Document(nfo), "mpaa");
    TagIsAbsent(Document(nfo), "certification");
  }

  /** The end of the sidecar, from the first field that is written raw. */
  function RawPart(nfo: Nfo): string {
    RenderAll(Nodes(nfo)[5..]) + ROOT_CLOSE
  }

  lemma CutsBehind(head: string, tail: string, pattern: string)
    requires NeverBegins(head, pattern)
    ensures match CutAt(tail, pattern)
            case None => CutAt(head + tail, pattern) == None
            case Some((before, after)) => CutAt(head + tail, pattern) == Some((head + before, after))
  {
    BeginsLater(head, tail, pattern);
    var at := Find(Lower(tail), pattern);
    if at.Some? {
      SlicesBehind(head, tail, at.value, at.value + |pattern|);
    }
  }

  lemma SlicesBehind(head: string, tail: string, i: nat, j: nat)
    requires i <= j <= |tail|
    ensures (head + tail)[..|head| + i] == head + tail[..i] && (head + tail)[|head| + j..] == tail[j..]
  {
  }

  lemma TagReadsBehindHead(head: string, tail: string, tag: string)
    requires NeverBegins(head, OpenTag(tag))
    ensures TagText(head + tail, tag) == TagText(tail, tag)
  {
    CutsBehind(head, tail, OpenTag(tag));
  }

  lemma DocumentAroundRawPart(nfo: Nfo)
    ensures Document(nfo) == DECLARATION + ROOT_OPEN + RenderAll(Nodes(nfo)[..5]) + RawPart(nfo)
  {
    var nodes := Nodes(nfo);
    assert nodes == nodes[..5] + nodes[5..];
    RenderAllSplits(nodes[..5], nodes[5..]);
    var front, back := RenderAll(nodes[..5]), RenderAll(nodes[5..]);
    SumIsAssociative(front, back, ROOT_CLOSE);
    SumIsAssociative(DECLARATION + ROOT_OPEN, front, back + ROOT_CLOSE);
  }

  lemma TagComesFromRawFields(nfo: Nfo, tag: string)
    requires Sought(OpenTag(tag)) && (OpenTag(tag)[1] == 'm' || OpenTag(tag)[1] == 'c')
    requires NeverBegins(ROOT_OPEN, OpenTag(tag))
    ensures TagText(Document(nfo), tag) == TagText(RawPart(nfo), tag)
  {
    forall j | 0 <= j < 5 ensures Free(Nodes(nfo)[j].text, OpenTag(tag)) {
      FieldsLackMarkup(nfo, j);
      PlainTextIsFree(Nodes(nfo)[j].text, OpenTag(tag));
    }
    PreambleNeverBegins(nfo, 5, OpenTag(tag));
    DocumentAroundRawPart(nfo);
    TagReadsBehindHead(DECLARATION + ROOT_OPEN + RenderAll(Nodes(nfo)[..5]), RawPart(nfo), tag);
  }

  lemma MpaaComesFromRawFields(nfo: Nfo)
    ensures TagText(Document(nfo), "mpaa") == TagText(RawPart(nfo), "mpaa")
  {
    RootNeverBeginsCertification();
    TagComesFromRawFields(nfo, "mpaa");
  }

  lemma CertificationTagComesFromRawFields(nfo: Nfo)
    ensures TagText(Document(nfo), "certification") == TagText(RawPart(nfo), "certification")
  {
    RootNeverBeginsCertification();
    TagComesFromRawFields(nfo, "certification");
  }

  lemma SameTagsSameCertification(a: string, b: string, pick: string -> Option<string>)
    requires TagText(a, "mpaa") == TagText(b, "mpaa") && TagText(a, "certification") == TagText(b, "certification")
    ensures NfoCertification(a, pick) == NfoCertification(b, pick)
  {
  }

  /** Only the three raw fields can bring in a certification: the rating reader sees just the sidecar's end. */
  lemma CertificationComesFromRawFields(nfo: Nfo, pick: string -> Option<string>)
    ensures NfoCertification(Document(nfo), pick) == NfoCertification(RawPart(nfo), pick)
  {
    MpaaComesFromRawFields(nfo);
    CertificationTagComesFromRawFields(nfo);
    SameTagsSameCertification(Document(nfo), RawPart(nfo), pick);
  }

  lemma NoCertificationExactlyWhen(xml: string)
    ensures (forall pick: string -> Option<string> :: NfoCertification(xml, pick) == None)
            <==> TagText(xml, "mpaa").None? && TagText(xml, "certification").None?
  {
    var all := (text: string) => Some(text);
    if NfoCertification(xml, all) == None {
      assert TagText(xml, "mpaa").None?;
    }
  }

  // ---- Which raw fields spell an element ----

  /** An element of this content says something: it is not blank, also without a CDATA wrapper. */
  predicate SaysSomething(content: string) {
    Trim(Unwrap(Trim(content))) != ""
  }

  /**
    Some field holds the opening tag, and behind the first one the same field closes it
    around something, or does not close it while a later field does.
  */
  predicate Spells(fields: seq<string>, tag: string) {
    fields != []
    && if Free(fields[0], OpenTag(tag)) then Spells(fields[1..], tag)
       else
         var rest := CutAt(fields[0], OpenTag(tag)).value.1;
         match CutAt(rest, CloseTag(tag))
         case Some((content, _)) => SaysSomething(content)
         case None => exists j :: 1 <= j < |fields| && !Free(fields[j], CloseTag(tag))
  }

  function RawFields(nfo: Nfo): seq<string> {
    [OrEmpty(nfo.tmdbId), OrEmpty(nfo.imdbId), OrEmpty(nfo.posterPath)]
  }

  function TextsOf(nodes: seq<Node>): seq<string> {
    seq(|nodes|, i requires 0 <= i < |nodes| => nodes[i].text)
  }

  /** A first occurrence stays the first when text is appended. */
  lemma CutsInFront(text: string, tail: string, pattern: string)
    requires CutAt(text, pattern).Some?
    ensures var (before, after) := CutAt(text, pattern).value;
            CutAt(text + tail, pattern) == Some((before, after + tail))
  {
    var at := Find(Lower(text), pattern).value;
    SameFront(text, tail);
    FirstStaysFirst(Lower(text), Lower(text + tail), pattern, at);
    var end := at + |pattern|;
    assert (text + tail)[..at] == text[..at] && (text + tail)[end..] == text[end..] + tail;
  }

  lemma SameFront(text: string, tail: string)
    ensures Lower(text) <= Lower(text + tail)
  {
    assert forall i :: 0 <= i < |text| ==> Lower(text + tail)[i] == Lower(text)[i];
  }

  lemma FirstStaysFirst(s: string, longer: string, pattern: string, at: nat)
    requires s <= longer && Find(s, pattern) == Some(at)
    ensures Find(longer, pattern) == Some(at)
  {
    assert OccursAt(longer, pattern, at);
    forall i | 0 <= i < at ensures !OccursAt(longer, pattern, i) {
      assert !OccursAt(s, pattern, i);
    }
  }

  /** A line as the sidecar writes it, around a text of its own, in which the tag is sought. */
  predicate Surrounds(node: Node, tag: string) {
    && |node.open| >= 2 && LowerChar(node.open[1]) != '/'
    && |tag| > 0 && LowerChar(node.open[1]) != tag[0] && tag[0] != '/'
    && Markup(node.open, node.open[1]) && Markup(node.close, '/')
  }

  ghost predicate AllSurround(nodes: seq<Node>, tag: string) {
    forall i :: 0 <= i < |nodes| ==> Surrounds(nodes[i], tag) && NeverBegins(nodes[i].close, CloseTag(tag))
  }

  function Tail(nodes: seq<Node>): string {
    RenderAll(nodes) + ROOT_CLOSE
  }

  lemma TailUnfolds(nodes: seq<Node>)
    requires nodes != []
    ensures Tail(nodes) == ("\t" + nodes[0].open) + (nodes[0].text + (nodes[0].close + ("\n" + Tail(nodes[1..]))))
    ensures Tail(nodes) == nodes[0].Render() + Tail(nodes[1..])
  {
    RenderAroundLine(nodes, 0);
    assert nodes[..0] == [] && RenderAll([]) == "";
    assert RenderAll(nodes) == nodes[0].Render() + RenderAll(nodes[1..]);
    RegroupLine(nodes[0], RenderAll(nodes[1..]));
  }

  lemma RegroupLine(node: Node, after: string)
    ensures (node.Render() + after) + ROOT_CLOSE == node.Render() + (after + ROOT_CLOSE)
    ensures (node.Render() + after) + ROOT_CLOSE
            == ("\t" + node.open) + (node.text + (node.close + ("\n" + (after + ROOT_CLOSE))))
  {
    var rest := after + ROOT_CLOSE;
    assert node.Render() + rest == "\t" + (node.open + (node.text + (node.close + "\n"))) + rest;
  }

  lemma OpeningNeverBegins(node: Node, pattern: string)
    requires |node.open| >= 2 && Markup(node.open, node.open[1]) && Angled(pattern)
    requires LowerChar(node.open[1]) != pattern[1]
    ensures NeverBegins("\t" + node.open, pattern)
  {
    TextNeverBeginsTag("\t", pattern);
    OtherTagNeverBegins(node.open, node.open[1], pattern);
    NeverBeginsAppends("\t", node.open, pattern);
  }

  lemma ClosingNeverBegins(node: Node, pattern: string)
    requires Markup(node.close, '/') && NeverBegins(node.close, pattern) && Angled(pattern)
    ensures NeverBegins(node.close + "\n", pattern)
  {
    TextNeverBeginsTag("\n", pattern);
    NeverBeginsAppends(node.close, "\n", pattern);
  }

  lemma TagsAreAngled(tag: string)
    requires IsTagName(tag) && tag != ""
    ensures Sought(OpenTag(tag)) && OpenTag(tag)[1] == tag[0]
    ensures Angled(CloseTag(tag)) && CloseTag(tag)[1] == '/'
  {
  }

  /** Where nothing of a line but its text can hold the tag, a line without it is passed over. */
  lemma LineIsPassed(node: Node, tail: string, pattern: string)
    requires Free(node.text, pattern) && Angled(pattern) && |node.open| >= 2 && LowerChar(node.open[1]) != pattern[1]
    requires Markup(node.open, node.open[1]) && Markup(node.close, '/') && NeverBegins(node.close, pattern)
    ensures NeverBegins(node.Render(), pattern)
  {
    OpeningNeverBegins(node, pattern);
    ClosingNeverBegins(node, pattern);
    FreeTextNeverBegins(node.text, node.close + "\n", pattern);
    NeverBeginsAppends("\t" + node.open, node.text + (node.close + "\n"), pattern);
    assert node.Render() == ("\t" + node.open) + (node.text + (node.close + "\n"));
  }

  /** The closing tag is found behind some point exactly when a later text holds it. */
  lemma {:induction false} CloseIsFoundExactlyWhen(nodes: seq<Node>, tag: string)
    requires IsTagName(tag) && tag != "" && AllSurround(nodes, tag) && NeverBegins(ROOT_CLOSE, CloseTag(tag))
    ensures CutAt(Tail(nodes), CloseTag(tag)).Some?
            <==> exists j :: 0 <= j < |nodes| && !Free(nodes[j].text, CloseTag(tag))
  {
    var close := CloseTag(tag);
    TagsAreAngled(tag);
    if nodes == [] {
      BeginsLater(ROOT_CLOSE, "", close);
      assert Tail([]) == ROOT_CLOSE + "";
    } else {
      TailUnfolds(nodes);
      var node, rest := nodes[0], nodes[1..];
      if Free(node.text, close) {
        LineIsPassed(node, Tail(rest), close);
        CutsBehind(node.Render(), Tail(rest), close);
        CloseIsFoundExactlyWhen(rest, tag);
        assert forall j :: 1 <= j < |nodes| ==> nodes[j] == rest[j - 1];
        assert forall j :: 0 <= j < |rest| ==> nodes[j + 1] == rest[j];
      } else {
        OpeningNeverBegins(node, close);
        CutsInFront(node.text, node.close + ("\n" + Tail(rest)), close);
        CutsBehind("\t" + node.open, node.text + (node.close + ("\n" + Tail(rest))), close);
      }
    }
  }

  lemma {:induction false} TrimStartKeepsInk(s: string, p: nat)
    requires p < |s| && !IsWhite(s[p])
    ensures |s| - p <= |TrimStart(s)| && TrimStart(s)[|TrimStart(s)| - (|s| - p)..] == s[p..]
  {
    if IsWhite(s[0]) {
      TrimStartKeepsInk(s[1..], p - 1);
    }
  }

  /** A pair of characters that are not white survives trimming. */
  lemma TrimKeepsPair(s: string, p: nat) returns (q: nat)
    requires p + 1 < |s| && !IsWhite(s[p]) && !IsWhite(s[p + 1])
    ensures q + 1 < |Trim(s)| && Trim(s)[q] == s[p] && Trim(s)[q + 1] == s[p + 1]
  {
    var t := TrimStart(s);
    TrimStartKeepsInk(s, p);
    q := |t| - (|s| - p);
    assert t[q..][0] == s[p..][0] && t[q..][1] == s[p..][1];
    TrimEndKeepsInk(t, q + 2);
    assert TrimEnd(t)[..q + 2] == t[..q + 2];
    assert TrimEnd(t)[q] == t[..q + 2][q] && TrimEnd(t)[q + 1] == t[..q + 2][q + 1];
  }

  /** A closing tag in the content keeps it from being blank, with or without a wrapper. */
  lemma MarkupSaysSomething(content: string, p: nat)
    requires p + 1 < |content| && content[p] == '<' && content[p + 1] == '/'
    ensures SaysSomething(content)
  {
    var q := TrimKeepsPair(content, p);
    var text := Trim(content);
    UnwrapKeepsPair(text, q);
    var unwrapped := Unwrap(text);
    var r :| 0 <= r < |unwrapped| - 1 && unwrapped[r] == '<' && unwrapped[r + 1] == '/';
    var _ := TrimKeepsPair(unwrapped, r);
  }

  lemma UnwrapKeepsPair(text: string, q: nat)
    requires q + 1 < |text| && text[q] == '<' && text[q + 1] == '/'
    ensures var unwrapped := Unwrap(text);
            exists r :: 0 <= r < |unwrapped| - 1 && unwrapped[r] == '<' && unwrapped[r + 1] == '/'
  {
    var unwrapped := Unwrap(text);
    if unwrapped != text {
      var n := |CDATA_OPEN|;
      WrapperLacksPair(text, q);
      assert unwrapped[q - n] == text[q] && unwrapped[q - n + 1] == text[q + 1];
    } else {
      assert unwrapped[q] == '<' && unwrapped[q + 1] == '/';
    }
  }

  lemma WrapperLacksPair(text: string, q: nat)
    requires q + 1 < |text| && text[q] == '<' && text[q + 1] == '/'
    requires Starts(text, CDATA_OPEN) && |text| >= |CDATA_OPEN| + |CDATA_CLOSE|
    requires text[|CDATA_OPEN|..][|text| - |CDATA_OPEN| - |CDATA_CLOSE|..] == CDATA_CLOSE
    ensures |CDATA_OPEN| <= q && q + 1 < |text| - |CDATA_CLOSE|
  {
    var n, m := |CDATA_OPEN|, |text| - |CDATA_CLOSE|;
    assert text[n..][m - n..] == text[m..];
    assert forall i :: 0 <= i < n ==> text[i] == text[..n][i];
    assert forall i :: 0 <= i < |CDATA_CLOSE| ==> text[m + i] == text[m..][i];
  }

  /** Behind an opening tag that its own field does not close, the element ends where a later field closes it. */
  lemma OpenElementReads(rest: string, node: Node, tail: string, tag: string)
    requires Free(rest, CloseTag(tag)) && Angled(CloseTag(tag))
    requires Markup(node.close, '/') && NeverBegins(node.close, CloseTag(tag))
    ensures var cut := CutAt(rest + (node.close + ("\n" + tail)), CloseTag(tag));
            && (cut.Some? <==> CutAt(tail, CloseTag(tag)).Some?)
            && (cut.Some? ==> SaysSomething(cut.value.0))
  {
    var close := CloseTag(tag);
    var head := rest + (node.close + "\n");
    ClosingNeverBegins(node, close);
    FreeTextNeverBegins(rest, node.close + "\n", close);
    CutsBehind(head, tail, close);
    assert rest + (node.close + ("\n" + tail)) == head + tail;
    var later := CutAt(tail, close);
    if later.Some? {
      var content := head + later.value.0;
      assert content[|rest|] == node.close[0] && content[|rest| + 1] == node.close[1];
      MarkupSaysSomething(content, |rest|);
    }
  }

  /** The element read behind an opening tag whose line and successors are given. */
  lemma OpenedReads(node: Node, rest: string, later: seq<Node>, tag: string)
    requires IsTagName(tag) && tag != "" && AllSurround(later, tag) && NeverBegins(ROOT_CLOSE, CloseTag(tag))
    requires Markup(node.close, '/') && NeverBegins(node.close, CloseTag(tag))
    ensures var cut := CutAt(rest + (node.close + ("\n" + Tail(later))), CloseTag(tag));
            (cut.Some? && SaysSomething(cut.value.0))
            <==> match CutAt(rest, CloseTag(tag))
                 case Some((content, _)) => SaysSomething(content)
                 case None => exists j :: 0 <= j < |later| && !Free(later[j].text, CloseTag(tag))
  {
    TagsAreAngled(tag);
    if CutAt(rest, CloseTag(tag)).Some? {
      CutsInFront(rest, node.close + ("\n" + Tail(later)), CloseTag(tag));
    } else {
      OpenElementReads(rest, node, Tail(later), tag);
      CloseIsFoundExactlyWhen(later, tag);
    }
  }

  lemma TagTextIs(xml: string, tag: string)
    ensures TagText(xml, tag).Some? <==> Element(xml, tag).Some? && SaysSomething(Element(xml, tag).value)
  {
  }

  /** Read as a whole, the lines hold such an element exactly when their texts spell one. */
  lemma {:induction false} LinesSpellExactlyWhen(nodes: seq<Node>, tag: string)
    requires IsTagName(tag) && tag != "" && AllSurround(nodes, tag)
    requires NeverBegins(ROOT_CLOSE, OpenTag(tag)) && NeverBegins(ROOT_CLOSE, CloseTag(tag))
    ensures TagText(Tail(nodes), tag).Some? <==> Spells(TextsOf(nodes), tag)
  {
    TagsAreAngled(tag);
    if nodes == [] {
      TagIsAbsent(ROOT_CLOSE, tag);
      assert Tail([]) == ROOT_CLOSE;
    } else {
      TailUnfolds(nodes);
      var node, later := nodes[0], nodes[1..];
      assert TextsOf(nodes)[0] == node.text && TextsOf(nodes)[1..] == TextsOf(later);
      if Free(node.text, OpenTag(tag)) {
        OtherTagNeverBegins(node.close, '/', OpenTag(tag));
        LineIsPassed(node, Tail(later), OpenTag(tag));
        TagReadsBehindHead(node.Render(), Tail(later), tag);
        LinesSpellExactlyWhen(later, tag);
      } else {
        LineSpellsExactlyWhen(nodes, tag);
      }
    }
  }

  /** What the first text spells, its opening tag being given, in terms of the later lines. */
  ghost predicate OpensAndCloses(node: Node, later: seq<Node>, tag: string)
    requires !Free(node.text, OpenTag(tag))
  {
    match CutAt(CutAt(node.text, OpenTag(tag)).value.1, CloseTag(tag))
    case Some((content, _)) => SaysSomething(content)
    case None => exists j :: 0 <= j < |later| && !Free(later[j].text, CloseTag(tag))
  }

  lemma {:induction false} FieldsSpellExactlyWhen(nodes: seq<Node>, tag: string)
    requires nodes != [] && !Free(nodes[0].text, OpenTag(tag))
    ensures Spells(TextsOf(nodes), tag) <==> OpensAndCloses(nodes[0], nodes[1..], tag)
  {
    var texts, later := TextsOf(nodes), nodes[1..];
    assert forall j :: 1 <= j < |nodes| ==> texts[j] == later[j - 1].text;
    assert forall j :: 0 <= j < |later| ==> texts[j + 1] == later[j].text;
  }

  lemma LineOpens(node: Node, after: string, tag: string)
    requires IsTagName(tag) && tag != "" && Surrounds(node, tag) && !Free(node.text, OpenTag(tag))
    ensures var rest := CutAt(node.text, OpenTag(tag)).value.1;
            var cut := CutAt(rest + after, CloseTag(tag));
            TagText(("\t" + node.open) + (node.text + after), tag).Some? <==> cut.Some? && SaysSomething(cut.value.0)
  {
    TagsAreAngled(tag);
    OpeningNeverBegins(node, OpenTag(tag));
    CutsInFront(node.text, after, OpenTag(tag));
    CutsBehind("\t" + node.open, node.text + after, OpenTag(tag));
    TagTextIs(("\t" + node.open) + (node.text + after), tag);
  }

  lemma {:induction false} LineSpellsExactlyWhen(nodes: seq<Node>, tag: string)
    requires IsTagName(tag) && tag != "" && nodes != [] && AllSurround(nodes, tag)
    requires NeverBegins(ROOT_CLOSE, CloseTag(tag)) && !Free(nodes[0].text, OpenTag(tag))
    ensures TagText(Tail(nodes), tag).Some? <==> Spells(TextsOf(nodes), tag)
  {
    var node, later := nodes[0], nodes[1..];
    assert AllSurround(later, tag);
    TailUnfolds(nodes);
    LineOpens(node, node.close + ("\n" + Tail(later)), tag);
    OpenedReads(node, CutAt(node.text, OpenTag(tag)).value.1, later, tag);
    FieldsSpellExactlyWhen(nodes, tag);
  }

  // ---- The exact condition ----

  lemma EndingsAreOthers()
    ensures NeverBegins("</uniqueid>", "</mpaa>") && NeverBegins("</uniqueid>", "</certification>")
    ensures NeverBegins("</thumb>", "</mpaa>") && NeverBegins("</thumb>", "</certification>")
    ensures NeverBegins(ROOT_CLOSE, "</mpaa>") && NeverBegins(ROOT_CLOSE, "</certification>")
  {
    EndingIsOther("</uniqueid>", "</mpaa>", 2);
    EndingIsOther("</uniqueid>", "</certification>", 2);
    EndingIsOther("</thumb>", "</mpaa>", 2);
    EndingIsOther("</thumb>", "</certification>", 2);
    EndingIsOther(ROOT_CLOSE, "</mpaa>", 3);
    EndingIsOther(ROOT_CLOSE, "</certification>", 2);
  }

  lemma EndingIsOther(s: string, pattern: string, k: nat)
    requires Markup(s, '/') && Angled(pattern) && k < |s| && k < |pattern| && LowerChar(s[k]) != pattern[k]
    ensures NeverBegins(s, pattern)
  {
    forall i | 0 <= i < |s| ensures MismatchAt(s, pattern, i) {
      assert LowerChar(s[i + 0]) != pattern[0] || LowerChar(s[i + k]) != pattern[k];
    }
  }

  lemma RawLines(nfo: Nfo)
    ensures Nodes(nfo)[5..] == [Nodes(nfo)[5], Nodes(nfo)[6], Nodes(nfo)[7]]
    ensures TextsOf(Nodes(nfo)[5..]) == RawFields(nfo)
  {
  }

  lemma RawLineSurrounds(nfo: Nfo, i: nat, tag: string)
    requires 5 <= i < 8 && (tag == "mpaa" || tag == "certification")
    ensures Surrounds(Nodes(nfo)[i], tag)
  {
    NodesAreMarkup(nfo, i);
  }

  lemma RawLineEndsOtherwise(nfo: Nfo, i: nat, tag: string)
    requires 5 <= i < 8 && (tag == "mpaa" || tag == "certification")
    ensures NeverBegins(Nodes(nfo)[i].close, CloseTag(tag))
  {
    EndingsAreOthers();
    assert CloseTag("mpaa") == "</mpaa>" && CloseTag("certification") == "</certification>";
  }

  lemma RawLinesSurround(nfo: Nfo, tag: string)
    requires tag == "mpaa" || tag == "certification"
    ensures AllSurround(Nodes(nfo)[5..], tag) && TextsOf(Nodes(nfo)[5..]) == RawFields(nfo)
  {
    RawLines(nfo);
    forall i | 5 <= i < 8 ensures Surrounds(Nodes(nfo)[i], tag) && NeverBegins(Nodes(nfo)[i].close, CloseTag(tag)) {
      RawLineSurrounds(nfo, i, tag);
      RawLineEndsOtherwise(nfo, i, tag);
    }
  }

  lemma {:induction false} RawPartSpellsExactlyWhen(nfo: Nfo, tag: string)
    requires IsTagName(tag) && tag != ""
    requires AllSurround(Nodes(nfo)[5..], tag) && TextsOf(Nodes(nfo)[5..]) == RawFields(nfo)
    requires NeverBegins(ROOT_CLOSE, OpenTag(tag)) && NeverBegins(ROOT_CLOSE, CloseTag(tag))
    ensures TagText(RawPart(nfo), tag).Some? <==> Spells(RawFields(nfo), tag)
  {
    LinesSpellExactlyWhen(Nodes(nfo)[5..], tag);
  }

  lemma RootIsOther(tag: string)
    requires tag == "mpaa" || tag == "certification"
    ensures NeverBegins(ROOT_CLOSE, OpenTag(tag)) && NeverBegins(ROOT_CLOSE, CloseTag(tag))
  {
    EndingsAreOthers();
    TagsAreAngled(tag);
    OtherTagNeverBegins(ROOT_CLOSE, '/', OpenTag(tag));
    assert CloseTag("mpaa") == "</mpaa>" && CloseTag("certification") == "</certification>";
  }

  lemma RawPartSpellsMpaa(nfo: Nfo)
    ensures TagText(RawPart(nfo), "mpaa").Some? <==> Spells(RawFields(nfo), "mpaa")
  {
    RawLinesSurround(nfo, "mpaa");
    RootIsOther("mpaa");
    RawPartSpellsExactlyWhen(nfo, "mpaa");
  }

  lemma RawPartSpellsCertification(nfo: Nfo)
    ensures TagText(RawPart(nfo), "certification").Some? <==> Spells(RawFields(nfo), "certification")
  {
    RawLinesSurround(nfo, "certification");
    RootIsOther("certification");
    RawPartSpellsExactlyWhen(nfo, "certification");
  }

  /**
    So a sidecar carries no certification, however texts are rated, exactly when its three
    raw fields spell none: a test of the fields that needs no reader.
  */
  lemma SidecarHasNoCertificationExactlyWhen(nfo: Nfo)
    ensures (forall pick: string -> Option<string> :: NfoCertification(Document(nfo), pick) == None)
            <==> !Spells(RawFields(nfo), "mpaa") && !Spells(RawFields(nfo), "certification")
  {
    forall pick: string -> Option<string>
      ensures NfoCertification(Document(nfo), pick) == NfoCertification(RawPart(nfo), pick)
    {
      CertificationComesFromRawFields(nfo, pick);
    }
    NoCertificationExactlyWhen(RawPart(nfo));
    RawPartSpellsMpaa(nfo);
    RawPartSpellsCertification(nfo);
  }

  /** The condition is needed: a poster path that is itself such an element is read as one. */
  lemma RawPosterPathIsReadAsMarkup(nfo: Nfo, rating: string, pick: string -> Option<string>)
    requires nfo.posterPath == Some(OpenTag("mpaa") + (rating + CloseTag("mpaa"))) && Lacks(rating, '<')
    requires Free(OrEmpty(nfo.tmdbId), OpenTag("mpaa")) && Free(OrEmpty(nfo.imdbId), OpenTag("mpaa"))
    requires Trim(rating) != "" && pick(Trim(rating)).Some?
    ensures NfoCertification(Document(nfo), pick) == pick(Trim(rating))
  {
    var mpaa := OpenTag("mpaa");
    var thumb := Nodes(nfo)[7];
    forall j | 0 <= j < 7 ensures Free(Nodes(nfo)[j].text, mpaa) {
      if j < 5 {
        FieldsLackMarkup(nfo, j);
        PlainTextIsFree(Nodes(nfo)[j].text, mpaa);
      }
    }
    RootNeverBeginsCertification();
    PreambleNeverBegins(nfo, 7, mpaa);
    DocumentAroundLine(nfo, 7);
    var before := DECLARATION + ROOT_OPEN + RenderAll(Nodes(nfo)[..7]);
    var tail := thumb.close + ("\n" + RenderAll(Nodes(nfo)[8..]) + ROOT_CLOSE);
    TextNeverBeginsTag("\t", mpaa);
    NeverBeginsAppends(before, "\t", mpaa);
    NodesAreMarkup(nfo, 7);
    OtherTagNeverBegins(thumb.open, 't', mpaa);
    NeverBeginsAppends(before + "\t", thumb.open, mpaa);
    TagReads(before + "\t" + thumb.open, "mpaa", rating, tail);
    RegroupThumb(before + "\t", thumb.open, mpaa, rating, CloseTag("mpaa"), tail);
  }

  lemma RegroupThumb(head: string, open: string, a: string, b: string, c: string, tail: string)
    ensures head + (open + ((a + (b + c)) + tail)) == (head + open) + (a + (b + (c + tail)))
  {
  }
}
