/**
  The other lines of a sidecar (src-tauri/src/enrichment.rs, `write_nfo_sidecar`), and how
  its readers treat CDATA and the two rating tags (src-tauri/src/content_rating.rs:23-45).
*/
module NfoFacts {
  import opened Wrappers
  import opened Texts
  import opened NfoSidecar
  import opened NfoRatings
  import Decimal

  // ---- Numbers ----

  lemma NumberIsTrimmed(n: int)
    ensures Trim(Decimal.OfInt(n)) == Decimal.OfInt(n) != ""
  {
    Decimal.OfNatHasOnlyDigits(if n < 0 then -n else n);
    NothingToTrim(Decimal.OfInt(n));
  }

  /** The year reads back as it is written, and as nothing if there is none. */
  lemma YearReadsBack(nfo: Nfo)
    ensures TagText(Document(nfo), "year") == if nfo.year.Some? then Some(Decimal.OfInt(nfo.year.value)) else None
  {
    LineReads(nfo, 1, "year");
    if nfo.year.Some? {
      NumberIsTrimmed(nfo.year.value);
    }
  }

  lemma {:induction false} RatingIsTrimmed(tenths: nat)
    ensures RatingText(Some(tenths)) == Decimal.OfNat(tenths / 10) + "." + Decimal.OfNat(tenths % 10)
    ensures Trim(RatingText(Some(tenths))) == RatingText(Some(tenths)) != ""
  {
    Decimal.OfNatHasOnlyDigits(tenths / 10);
    Decimal.OfNatHasOnlyDigits(tenths % 10);
    NothingToTrim(RatingText(Some(tenths)));
  }

  /** The rating reads back with its one decimal. */
  lemma RatingReadsBack(nfo: Nfo)
    ensures TagText(Document(nfo), "rating")
            == if nfo.ratingTenths.None? then None
               else Some(Decimal.OfNat(nfo.ratingTenths.value / 10) + "." + Decimal.OfNat(nfo.ratingTenths.value % 10))
  {
    LineReads(nfo, 3, "rating");
    if nfo.ratingTenths.Some? {
      RatingIsTrimmed(nfo.ratingTenths.value);
    }
  }

  // ---- The lines written raw ----

  ghost predicate Contains(text: string, part: string) {
    exists before, after :: text == before + part + after
  }

  lemma LineStands(nfo: Nfo, i: nat)
    requires i < 8
    ensures Contains(Document(nfo), Nodes(nfo)[i].open + Nodes(nfo)[i].text + Nodes(nfo)[i].close)
  {
    DocumentAroundLine(nfo, i);
    var node := Nodes(nfo)[i];
    var before := DECLARATION + ROOT_OPEN + RenderAll(Nodes(nfo)[..i]) + "\t";
    var after := "\n" + RenderAll(Nodes(nfo)[i + 1..]) + ROOT_CLOSE;
    Flatten(before, node.open, node.text, node.close, after);
  }

  lemma Flatten(before: string, open: string, text: string, close: string, after: string)
    ensures before + (open + (text + (close + after))) == before + (open + text + close) + after
  {
  }

  /** Both ids and the path of the poster stand in the sidecar, each in its element, as they are. */
  lemma RawLinesStand(nfo: Nfo)
    ensures Contains(Document(nfo), "<uniqueid type=\"tmdb\">" + OrEmpty(nfo.tmdbId) + "</uniqueid>")
    ensures Contains(Document(nfo), "<uniqueid type=\"imdb\">" + OrEmpty(nfo.imdbId) + "</uniqueid>")
    ensures Contains(Document(nfo), "<thumb aspect=\"poster\">" + OrEmpty(nfo.posterPath) + "</thumb>")
  {
    LineStands(nfo, 5);
    LineStands(nfo, 6);
    LineStands(nfo, 7);
  }

  // ---- Reading ----

  lemma WrapperIsTakenOff(text: string)
    ensures Trim(CDATA_OPEN + text + CDATA_CLOSE) == CDATA_OPEN + text + CDATA_CLOSE
    ensures Unwrap(CDATA_OPEN + text + CDATA_CLOSE) == text
  {
    var wrapped := CDATA_OPEN + text + CDATA_CLOSE;
    assert wrapped[0] == '<' && wrapped[|wrapped| - 1] == '>';
    NothingToTrim(wrapped);
    assert wrapped[|CDATA_OPEN|..] == text + CDATA_CLOSE;
    assert wrapped[..|CDATA_OPEN|] == CDATA_OPEN;
  }

  /** The text of an element in a CDATA wrapper is read as the text in it, trimmed, whatever other markup it holds. */
  lemma WrappedTextReads(head: string, tag: string, text: string, tail: string)
    requires IsTagName(tag) && NeverBegins(head, OpenTag(tag)) && NeverBegins(text, CloseTag(tag))
    ensures TagText(head + (OpenTag(tag) + (("<![CDATA[" + text + "]]>") + (CloseTag(tag) + tail))), tag)
            == NonEmpty(Trim(text))
  {
    var wrapped := CDATA_OPEN + text + CDATA_CLOSE;
    TagsAreLower(tag);
    CutsBehindHead(head, OpenTag(tag), wrapped + (CloseTag(tag) + tail));
    WrappedNeverBegins(text, CloseTag(tag));
    CutsBehindHead(wrapped, CloseTag(tag), tail);
    WrapperIsTakenOff(text);
  }

  lemma WrappedNeverBegins(text: string, pattern: string)
    requires NeverBegins(text, pattern) && |pattern| >= 2 && pattern[0] == '<' && pattern[1] != '!'
    ensures NeverBegins(CDATA_OPEN + text + CDATA_CLOSE, pattern)
  {
    assert CDATA_OPEN[0] == '<' && CDATA_OPEN[1] == '!' && Lacks(CDATA_OPEN[1..], '<');
    assert Markup(CDATA_OPEN, '!');
    OtherTagNeverBegins(CDATA_OPEN, '!', pattern);
    TextNeverBeginsTag(CDATA_CLOSE, pattern);
    NeverBeginsAppends(CDATA_OPEN, text, pattern);
    NeverBeginsAppends(CDATA_OPEN + text, CDATA_CLOSE, pattern);
  }

  /** The text of the tag names a certification. */
  predicate Names(xml: string, tag: string, pick: string -> Option<string>) {
    TagText(xml, tag).Some? && pick(TagText(xml, tag).value).Some?
  }

  /** A certification is read exactly when one of the two tags names one; the first tag wins. */
  lemma FirstTagWins(xml: string, pick: string -> Option<string>)
    ensures var r := NfoCertification(xml, pick);
            && (r.Some? <==> Names(xml, "mpaa", pick) || Names(xml, "certification", pick))
            && (Names(xml, "mpaa", pick) ==> r == pick(TagText(xml, "mpaa").value))
            && (!Names(xml, "mpaa", pick) && Names(xml, "certification", pick) ==>
                  r == pick(TagText(xml, "certification").value))
  {
  }
}
