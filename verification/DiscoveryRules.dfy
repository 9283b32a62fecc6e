/**
  What `Discovery` collapses and matches, said of the raw fields of an entry
  (src-tauri/src/discovery.rs:191-219, 424-499).
*/
module DiscoveryRules {
  import opened Wrappers
  import opened Sorting
  import opened Texts
  import opened Discovery
  import Decimal

  // ---- Episode numbers ----

  /** Seasons and episodes are 32-bit numbers. */
  predicate Fits(e: Entry) {
    e.name.episode.Some? ==> e.name.episode.value.0 <= U32_MAX && e.name.episode.value.1 <= U32_MAX
  }

  /** Season and episode as one number; an entry without them gets the fallback. */
  function Number(e: Entry, fallback: nat): nat {
    match e.name.episode
    case Some((season, episode)) => 0x1_0000_0000 * season + episode
    case None => fallback
  }

  lemma EarlierIsSmaller(a: Episode, b: Episode)
    requires a.1 <= U32_MAX && b.1 <= U32_MAX
    ensures Earlier(a, b) <==> 0x1_0000_0000 * a.0 + a.1 < 0x1_0000_0000 * b.0 + b.1
  {
  }

  const LAST: nat := 0x1_0000_0000 * U32_MAX + U32_MAX

  // ---- One card per show ----

  /** An episode of a show with a known title. */
  predicate IsEpisodeOf(e: Entry, show: string) {
    (e.group == "episode" || e.name.episode.Some?) && e.name.title == show != ""
  }

  /** Any other work keeps its card. */
  lemma OtherWorksStay(entries: seq<Entry>, out: seq<Entry>, j: nat)
    requires Fills(out, entries) && j < |entries| && !IsEpisodeOf(entries[j], entries[j].name.title)
    ensures entries[j] in out
  {
    FirstPlacesAre(entries, j);
    SlotsKeepFirstPlaces(entries);
    var at := FirstPlaces(entries);
    assert ShowOf(entries[j]).None?;
    var k :| 0 <= k < |at| && at[k] == j;
    assert Slots(entries)[k] == Single(entries[j]);
    assert Card(entries, Slots(entries)[k]) == Some(out[k]);
  }

  /** Every show that is in the list keeps one card, and no show has two. */
  lemma ShowsKeepOneCard(entries: seq<Entry>, out: seq<Entry>, show: string)
    requires Fills(out, entries)
    ensures (exists k :: 0 <= k < |out| && IsEpisodeOf(out[k], show))
            <==> exists j :: 0 <= j < |entries| && IsEpisodeOf(entries[j], show)
    ensures forall k, l :: 0 <= k < l < |out| ==> !IsEpisodeOf(out[k], show) || !IsEpisodeOf(out[l], show)
  {
    CollapsedShowsOnce(entries, out);
    forall e: Entry ensures IsEpisodeOf(e, show) <==> ShowOf(e) == Some(show) {
    }
    if j :| 0 <= j < |entries| && IsEpisodeOf(entries[j], show) {
      ShowHasSlot(entries, entries[j]);
      assert Show(show) in Slots(entries);
      var k :| 0 <= k < |Slots(entries)| && Slots(entries)[k] == Show(show);
      assert Card(entries, Slots(entries)[k]) == Some(out[k]);
      var at := BestIsFirstEarliest(entries, show);
    }
    if k :| 0 <= k < |out| && IsEpisodeOf(out[k], show) {
      CardIsAnEntry(entries, out, k);
    }
  }

  lemma CardIsAnEntry(entries: seq<Entry>, out: seq<Entry>, k: nat)
    requires Fills(out, entries) && k < |out|
    ensures out[k] in entries
  {
    SlotsKeepFirstPlaces(entries);
    assert Card(entries, Slots(entries)[k]) == Some(out[k]);
    if Slots(entries)[k].Show? {
      var at := BestIsFirstEarliest(entries, Slots(entries)[k].title);
    }
  }

  /** The card of a show has the smallest season, and the smallest episode in it; one without numbers comes last. */
  lemma CardIsTheEarliest(entries: seq<Entry>, out: seq<Entry>, k: nat, j: nat, show: string)
    requires Fills(out, entries) && forall e :: e in entries ==> Fits(e)
    requires k < |out| && j < |entries| && IsEpisodeOf(out[k], show) && IsEpisodeOf(entries[j], show)
    ensures out[k] in entries && Number(out[k], LAST) <= Number(entries[j], LAST)
  {
    CardIsAnEntry(entries, out, k);
    SlotsKeepFirstPlaces(entries);
    assert Card(entries, Slots(entries)[k]) == Some(out[k]);
    assert ShowOf(out[k]) == Some(show);
    var slot := Slots(entries)[k];
    if slot.Show? {
      var at := BestIsFirstEarliest(entries, slot.title);
      assert slot.title == show && entries[j] in entries;
      EarlierIsSmaller(EpisodeKey(entries[j]), EpisodeKey(out[k]));
    }
  }

  // ---- The trending list ----

  /** The entry carries an id of its own. */
  ghost predicate Identified(e: Entry) {
    e.tmdbId.Some? && HasInk(e.tmdbId.value)
  }

  /**
    What can stand for a trending title.  For a series: an episode, by its type or by its
    number; for anything else: a film or video without an episode number.  And a work with
    an id must have the title's; one without must have its cleaned title and, known for
    both, the same year, the work's own before the one in its name.
  */
  lemma EligibleExactlyWhen(title: TrendingTitle, e: Entry)
    ensures Eligible(title, e) <==>
              && (if title.mediaType == "tv" then e.group == "episode" || e.name.episode.Some?
                  else e.name.episode.None? && (e.group == "movie" || e.group == "video"))
              && (if Identified(e) then Trim(e.tmdbId.value) == Decimal.OfInt(title.tmdbId)
                  else title.wanted != "" && e.name.title == title.wanted && title.year.Some?
                       && (e.year == title.year || (e.year.None? && e.name.year == title.year)))
  {
    if e.tmdbId.Some? {
      TrimsAwayExactlyWhen(e.tmdbId.value);
    }
  }

  /**
    What a title gets is, of the works that can stand for it and are not used, one with the
    smallest season and episode, a work without them counting as the last season.
  */
  lemma ChoiceIsTheEarliest(title: TrendingTitle, works: seq<Entry>, used: set<string>, e: Entry)
    requires Choose(title, works, used).Some? && forall w :: w in works ==> Fits(w)
    requires e in works && Eligible(title, e) && e.workKey !in used
    ensures var last := 0x1_0000_0000 * U32_MAX;
            Number(Choose(title, works, used).value, last) <= Number(e, last)
  {
    ChoiceIsFirstEarliestMatch(title, works, used);
    var best := Choose(title, works, used).value;
    var x := if best.name.episode.Some? then best.name.episode.value else (U32_MAX, 0);
    var y := if e.name.episode.Some? then e.name.episode.value else (U32_MAX, 0);
    assert best in works && StandsBefore(best, e);
    EarlierIsSmaller(y, x);
  }

  /** A title uses up the work it gets, and for a series every work that can stand for it. */
  predicate UsesUp(trending: seq<TrendingTitle>, works: seq<Entry>, j: nat, key: string)
    requires j < |trending|
  {
    ChooseAt(trending, works, j).Some?
    && (ChooseAt(trending, works, j).value.workKey == key
        || (trending[j].mediaType == "tv" && exists e :: e in works && Eligible(trending[j], e) && e.workKey == key))
  }

  lemma StepUses(title: TrendingTitle, works: seq<Entry>, used: set<string>, key: string)
    ensures var choice := Choose(title, works, used);
            key in UsedAfter(title, works, used) <==>
              key in used
              || (choice.Some?
                  && (choice.value.workKey == key
                      || (title.mediaType == "tv" && exists e :: e in works && Eligible(title, e) && e.workKey == key)))
  {
    ChoiceIsFirstEarliestMatch(title, works, used);
    var keep := (e: Entry) => Eligible(title, e) && e.workKey !in used;
    forall e ensures e in Matches(title, works, used) <==> e in works && keep(e) {
      FilterHolds(works, keep, e);
    }
  }

  /** What is used when a title's turn comes: exactly what the titles before it used up. */
  lemma {:induction false} UsedExactlyWhen(trending: seq<TrendingTitle>, works: seq<Entry>, i: nat, key: string)
    requires i <= |trending|
    ensures key in UsedBefore(trending, works, i) <==> exists j :: 0 <= j < i && UsesUp(trending, works, j, key)
  {
    if i > 0 {
      UsedExactlyWhen(trending, works, i - 1, key);
      StepUses(trending[i - 1], works, UsedBefore(trending, works, i - 1), key);
      assert key in UsedBefore(trending, works, i)
             <==> key in UsedBefore(trending, works, i - 1) || UsesUp(trending, works, i - 1, key);
    }
  }
}
