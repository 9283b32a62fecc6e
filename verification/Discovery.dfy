/**
  Shelves of the library home (src-tauri/src/discovery.rs): one card per show, and the
  library's works on the trending list.

  An entry carries what the title normaliser and the media-type grouping say of it;
  neither is part of this model.
*/
module Discovery {
  import opened Wrappers
  import opened Sorting
  import opened Texts
  import Decimal

  const U32_MAX: nat := 0xFFFF_FFFF

  type Episode = (nat, nat)

  datatype Normalized = Normalized(title: string, year: Option<int>, episode: Option<Episode>)

  datatype Entry = Entry(
    workKey: string, group: string, name: Normalized, year: Option<int>, tmdbId: Option<string>)

  predicate Earlier(a: Episode, b: Episode) {
    a.0 < b.0 || (a.0 == b.0 && a.1 < b.1)
  }

  // ---- One card per show ----

  /** The show an entry is an episode of, if it is one and its title is known. */
  function ShowOf(e: Entry): Option<string> {
    if (e.group == "episode" || e.name.episode.Some?) && e.name.title != "" then Some(e.name.title) else None
  }

  function EpisodeKey(e: Entry): Episode {
    if e.name.episode.Some? then e.name.episode.value else (U32_MAX, U32_MAX)
  }

  /** A place in the result: a single work, or a show. */
  datatype Slot = Single(entry: Entry) | Show(title: string)

  /** One slot for each work that is no episode, and for the first episode of each show. */
  function Slots(entries: seq<Entry>): seq<Slot> {
    if entries == [] then
      []
    else
      var before, last := Slots(entries[..|entries| - 1]), entries[|entries| - 1];
      match ShowOf(last)
      case None => before + [Single(last)]
      case Some(title) => if Show(title) in before then before else before + [Show(title)]
  }

  /** The earliest episode of a show, the first of them on a tie. */
  function Best(entries: seq<Entry>, title: string): Option<Entry> {
    if entries == [] then
      None
    else
      var before, last := Best(entries[..|entries| - 1], title), entries[|entries| - 1];
      if ShowOf(last) != Some(title) then before
      else if before.None? || Earlier(EpisodeKey(last), EpisodeKey(before.value)) then Some(last)
      else before
  }

  function Card(entries: seq<Entry>, slot: Slot): Option<Entry> {
    match slot
    case Single(e) => Some(e)
    case Show(title) => Best(entries, title)
  }

  /** `cards` shows, slot by slot, what stands for each slot. */
  ghost predicate Fills(cards: seq<Entry>, entries: seq<Entry>) {
    |cards| == |Slots(entries)| && forall k :: 0 <= k < |cards| ==> Card(entries, Slots(entries)[k]) == Some(cards[k])
  }

  method CollapseEpisodes(entries: seq<Entry>) returns (out: seq<Entry>)
    ensures Fills(out, entries)
  {
    var shows: map<string, nat> := map[];
    out := [];
    for i := 0 to |entries|
      invariant Fills(out, entries[..i])
      invariant forall t :: t in shows <==> Show(t) in Slots(entries[..i])
      invariant forall t :: t in shows ==> shows[t] < |out| && Slots(entries[..i])[shows[t]] == Show(t)
    {
      var entry := entries[i];
      assert entries[..i + 1] == entries[..i] + [entry];
      var isEpisode := entry.group == "episode" || entry.name.episode.Some?;
      if !isEpisode || entry.name.title == "" {
        AppendSingle(entries[..i], entry, out);
        out := out + [entry];
      } else {
        var title := entry.name.title;
        var episode := if entry.name.episode.Some? then entry.name.episode.value else (U32_MAX, U32_MAX);
        if title in shows {
          var index := shows[title];
          var shown := out[index];
          var current := if shown.name.episode.Some? then shown.name.episode.value else (U32_MAX, U32_MAX);
          AppendToShow(entries[..i], entry, title, out, index);
          if Earlier(episode, current) {
            out := out[index := entry];
          }
        } else {
          AppendFirst(entries[..i], entry, title, out);
          shows := shows[title := |out|];
          out := out + [entry];
        }
      }
    }
    assert entries[..|entries|] == entries;
  }

  lemma {:induction false} AppendSingle(before: seq<Entry>, entry: Entry, out: seq<Entry>)
    requires Fills(out, before) && ShowOf(entry).None?
    ensures Slots(before + [entry]) == Slots(before) + [Single(entry)]
    ensures Fills(out + [entry], before + [entry])
  {
    assert (before + [entry])[..|before|] == before;
  }

  lemma {:induction false} AppendFirst(before: seq<Entry>, entry: Entry, title: string, out: seq<Entry>)
    requires Fills(out, before) && ShowOf(entry) == Some(title) && Show(title) !in Slots(before)
    ensures Slots(before + [entry]) == Slots(before) + [Show(title)]
    ensures Fills(out + [entry], before + [entry])
  {
    assert (before + [entry])[..|before|] == before;
    BestNeedsSlot(before, title);
  }

  lemma {:induction false} AppendToShow(before: seq<Entry>, entry: Entry, title: string, out: seq<Entry>, index: nat)
    requires Fills(out, before) && ShowOf(entry) == Some(title)
    requires index < |out| && Slots(before)[index] == Show(title)
    ensures Slots(before + [entry]) == Slots(before)
    ensures Fills(if Earlier(EpisodeKey(entry), EpisodeKey(out[index])) then out[index := entry] else out,
                  before + [entry])
  {
    assert (before + [entry])[..|before|] == before;
    SlotsAreDistinct(before);
    assert Card(before, Slots(before)[index]) == Some(out[index]);
  }

  /** No show has two slots. */
  lemma {:induction false} SlotsAreDistinct(entries: seq<Entry>)
    ensures forall i, j :: 0 <= i < j < |Slots(entries)| && Slots(entries)[i].Show? ==> Slots(entries)[i] != Slots(entries)[j]
  {
    if entries != [] {
      SlotsAreDistinct(entries[..|entries| - 1]);
    }
  }

  /** A show has a card exactly when it has a slot. */
  lemma {:induction false} BestNeedsSlot(entries: seq<Entry>, title: string)
    ensures Best(entries, title).Some? <==> Show(title) in Slots(entries)
  {
    if entries != [] {
      BestNeedsSlot(entries[..|entries| - 1], title);
    }
  }

  /** What a show's card is: its earliest episode, and among equally early ones the first. */
  lemma {:induction false} BestIsFirstEarliest(entries: seq<Entry>, title: string) returns (at: nat)
    requires Best(entries, title).Some?
    ensures at < |entries| && Best(entries, title) == Some(entries[at]) && ShowOf(entries[at]) == Some(title)
    ensures forall j :: 0 <= j < |entries| && ShowOf(entries[j]) == Some(title)
              ==> !Earlier(EpisodeKey(entries[j]), EpisodeKey(entries[at]))
                  && (j < at ==> Earlier(EpisodeKey(entries[at]), EpisodeKey(entries[j])))
  {
    var n := |entries| - 1;
    var before, last := entries[..n], entries[n];
    var earlier := Best(before, title);
    at := n;
    if earlier.Some? {
      var k := BestIsFirstEarliest(before, title);
      if ShowOf(last) != Some(title) || !Earlier(EpisodeKey(last), EpisodeKey(entries[k])) {
        at := k;
      }
    } else {
      forall j | 0 <= j < n ensures ShowOf(entries[j]) != Some(title) {
        BestIsNoneOnlyWithoutEpisodes(before, title, j);
      }
    }
  }

  lemma {:induction false} BestIsNoneOnlyWithoutEpisodes(entries: seq<Entry>, title: string, j: nat)
    requires j < |entries| && Best(entries, title).None?
    ensures ShowOf(entries[j]) != Some(title)
  {
    if j < |entries| - 1 {
      BestIsNoneOnlyWithoutEpisodes(entries[..|entries| - 1], title, j);
    }
  }

  function SlotOf(e: Entry): Slot {
    if ShowOf(e).Some? then Show(ShowOf(e).value) else Single(e)
  }

  /** The entry is no episode, or the first of its show. */
  ghost predicate IsFirst(entries: seq<Entry>, j: nat)
    requires j < |entries|
  {
    ShowOf(entries[j]).None? || forall i :: 0 <= i < j ==> ShowOf(entries[i]) != ShowOf(entries[j])
  }

  /** The places of the works that are no episodes and of the first episodes, in order. */
  ghost function FirstPlaces(entries: seq<Entry>): seq<int> {
    if entries == [] then []
    else
      var before := FirstPlaces(entries[..|entries| - 1]);
      if IsFirst(entries, |entries| - 1) then before + [|entries| - 1] else before
  }

  ghost predicate Increasing(at: seq<int>, bound: int) {
    && (forall k :: 0 <= k < |at| ==> 0 <= at[k] < bound)
    && (forall k, l :: 0 <= k < l < |at| ==> at[k] < at[l])
  }

  lemma {:induction false} FirstPlacesIncrease(entries: seq<Entry>)
    ensures Increasing(FirstPlaces(entries), |entries|)
  {
    if entries != [] {
      var n := |entries| - 1;
      FirstPlacesIncrease(entries[..n]);
      var before := FirstPlaces(entries[..n]);
      var at := FirstPlaces(entries);
      assert Increasing(before, n);
      assert at == if IsFirst(entries, n) then before + [n] else before;
    }
  }

  lemma {:induction false} FirstPlacesAre(entries: seq<Entry>, j: nat)
    requires j < |entries|
    ensures j in FirstPlaces(entries) <==> IsFirst(entries, j)
  {
    var n := |entries| - 1;
    var before := entries[..n];
    FirstPlacesIncrease(before);
    assert FirstPlaces(entries) == if IsFirst(entries, n) then FirstPlaces(before) + [n] else FirstPlaces(before);
    if j < n {
      FirstPlacesAre(before, j);
      assert before[j] == entries[j];
      assert forall i :: 0 <= i < j ==> before[i] == entries[i];
    }
  }

  /** The slots stand, in order, where the works that are no episodes and the first episodes stood. */
  lemma {:induction false} SlotsKeepFirstPlaces(entries: seq<Entry>)
    ensures var at := FirstPlaces(entries);
            |at| == |Slots(entries)|
            && forall k :: 0 <= k < |at| ==> 0 <= at[k] < |entries| && Slots(entries)[k] == SlotOf(entries[at[k]])
  {
    if entries != [] {
      var n := |entries| - 1;
      SlotsKeepFirstPlaces(entries[..n]);
      ShowHasSlot(entries[..n], entries[n]);
      assert IsFirst(entries, n) <==>
        ShowOf(entries[n]).None? || !exists i :: 0 <= i < n && ShowOf(entries[..n][i]) == ShowOf(entries[n]);
    }
  }

  lemma {:induction false} ShowHasSlot(entries: seq<Entry>, e: Entry)
    ensures ShowOf(e).Some? ==>
              (Show(ShowOf(e).value) in Slots(entries)
               <==> exists i :: 0 <= i < |entries| && ShowOf(entries[i]) == ShowOf(e))
  {
    if entries != [] {
      var n := |entries| - 1;
      ShowHasSlot(entries[..n], e);
      if ShowOf(entries[n]) != ShowOf(e) && ShowOf(e).Some? && Show(ShowOf(e).value) in Slots(entries) {
        assert Show(ShowOf(e).value) in Slots(entries[..n]);
        var i :| 0 <= i < n && ShowOf(entries[..n][i]) == ShowOf(e);
        assert ShowOf(entries[i]) == ShowOf(e);
      }
      if i :| 0 <= i < |entries| && ShowOf(entries[i]) == ShowOf(e) {
        if i < n {
          assert ShowOf(entries[..n][i]) == ShowOf(e);
        }
      }
    }
  }

  ghost predicate NoShowTwice(entries: seq<Entry>) {
    forall i, j :: 0 <= i < j < |entries| && ShowOf(entries[i]).Some? ==> ShowOf(entries[i]) != ShowOf(entries[j])
  }

  /** After collapsing, no show has two cards. */
  lemma CollapsedShowsOnce(entries: seq<Entry>, out: seq<Entry>)
    requires Fills(out, entries)
    ensures NoShowTwice(out)
  {
    SlotsKeepFirstPlaces(entries);
    SlotsAreDistinct(entries);
    forall k | 0 <= k < |out| ensures SlotOf(out[k]) == Slots(entries)[k] {
      var slot := Slots(entries)[k];
      assert Card(entries, slot) == Some(out[k]);
      if slot.Show? {
        var best := BestIsFirstEarliest(entries, slot.title);
      }
    }
  }

  /** Collapsing changes a list exactly when some show is in it twice; so collapsing again changes nothing. */
  lemma CollapseFixesExactlyTheCollapsed(entries: seq<Entry>, out: seq<Entry>)
    requires Fills(out, entries)
    ensures out == entries <==> NoShowTwice(entries)
  {
    CollapsedShowsOnce(entries, out);
    if NoShowTwice(entries) {
      SlotsKeepFirstPlaces(entries);
      FirstPlacesIncrease(entries);
      forall j | 0 <= j < |entries| ensures j in FirstPlaces(entries) {
        FirstPlacesAre(entries, j);
      }
      IncreasingAll(FirstPlaces(entries), |entries|);
      forall k | 0 <= k < |entries| ensures out[k] == entries[k] {
        var slot := Slots(entries)[k];
        assert slot == SlotOf(entries[k]) && Card(entries, slot) == Some(out[k]);
        if slot.Show? {
          var best := BestIsFirstEarliest(entries, slot.title);
          assert ShowOf(entries[best]) == ShowOf(entries[k]);
        }
      }
    }
  }

  lemma CollapseTwiceIsCollapseOnce(entries: seq<Entry>, out: seq<Entry>, again: seq<Entry>)
    requires Fills(out, entries) && Fills(again, out)
    ensures again == out
  {
    CollapsedShowsOnce(entries, out);
    CollapseFixesExactlyTheCollapsed(out, again);
  }

  /** An increasing list of all numbers below `n` is the list of all numbers below `n`. */
  lemma {:induction false} IncreasingAll(at: seq<int>, n: nat)
    requires Increasing(at, n)
    requires forall j :: 0 <= j < n ==> j in at
    ensures |at| == n && forall k :: 0 <= k < n ==> at[k] == k
  {
    assert |at| > 0 ==> 0 <= at[0] < n;
    if n > 0 {
      assert n - 1 in at;
      var l := |at| - 1;
      var k :| 0 <= k < |at| && at[k] == n - 1;
      assert at[l] < n && k == l;
      forall j | 0 <= j < n - 1 ensures j in at[..l] {
        assert j in at;
        var i :| 0 <= i < |at| && at[i] == j;
        assert at[..l][i] == j;
      }
      IncreasingAll(at[..l], n - 1);
      assert forall i :: 0 <= i < l ==> at[i] == at[..l][i];
    }
  }

  // ---- The trending list ----

  datatype TrendingTitle = TrendingTitle(tmdbId: int, mediaType: string, title: string, wanted: string, year: Option<int>, rank: nat)

  /** A card of the shelf; its reason and score are computed from the title's rank. */
  datatype TrendingCard = TrendingCard(entry: Entry, title: TrendingTitle)

  predicate TypeCompatible(trendingType: string, group: string) {
    if trendingType == "tv" then group == "episode" else group == "movie" || group == "video"
  }

  function CandidateGroup(e: Entry): string {
    if e.name.episode.Some? then "episode" else e.group
  }

  /** The entry's own id, if it carries one. */
  function OwnId(e: Entry): Option<string> {
    if e.tmdbId.Some? && Trim(e.tmdbId.value) != "" then Some(Trim(e.tmdbId.value)) else None
  }

  /** An identified copy is decided by its id; any other by the cleaned title and the exact year. */
  predicate SameWork(title: TrendingTitle, e: Entry) {
    if OwnId(e).Some? then
      OwnId(e).value == Decimal.OfInt(title.tmdbId)
    else if title.wanted == "" || e.name.title != title.wanted then
      false
    else
      var year := if e.year.Some? then e.year else e.name.year;
      year.Some? && year == title.year
  }

  predicate Eligible(title: TrendingTitle, e: Entry) {
    TypeCompatible(title.mediaType, CandidateGroup(e)) && SameWork(title, e)
  }

  function Matches(title: TrendingTitle, works: seq<Entry>, used: set<string>): seq<Entry> {
    Filter(works, (e: Entry) => Eligible(title, e) && e.workKey !in used)
  }

  /** The order in which episodes stand for a show; a work without episode number comes last. */
  predicate StandsBefore(a: Entry, b: Entry) {
    var x := if a.name.episode.Some? then a.name.episode.value else (U32_MAX, 0);
    var y := if b.name.episode.Some? then b.name.episode.value else (U32_MAX, 0);
    !Earlier(y, x)
  }

  function Keys(entries: seq<Entry>): set<string> {
    set e | e in entries :: e.workKey
  }

  function Choose(title: TrendingTitle, works: seq<Entry>, used: set<string>): Option<Entry> {
    var sorted := SortBy(Matches(title, works, used), StandsBefore);
    if sorted == [] then None else Some(sorted[0])
  }

  function UsedAfter(title: TrendingTitle, works: seq<Entry>, used: set<string>): set<string> {
    match Choose(title, works, used)
    case None => used
    case Some(best) =>
      if title.mediaType == "tv" then used + Keys(Matches(title, works, used)) else used + {best.workKey}
  }

  /** The works used by the titles before `i`. */
  function UsedBefore(trending: seq<TrendingTitle>, works: seq<Entry>, i: nat): set<string>
    requires i <= |trending|
  {
    if i == 0 then {} else UsedAfter(trending[i - 1], works, UsedBefore(trending, works, i - 1))
  }

  function ChooseAt(trending: seq<TrendingTitle>, works: seq<Entry>, i: nat): Option<Entry>
    requires i < |trending|
  {
    Choose(trending[i], works, UsedBefore(trending, works, i))
  }

  /** The cards of the first `n` titles. */
  function Cards(trending: seq<TrendingTitle>, works: seq<Entry>, n: nat): seq<TrendingCard>
    requires n <= |trending|
  {
    if n == 0 then []
    else
      var before := Cards(trending, works, n - 1);
      match ChooseAt(trending, works, n - 1)
      case None => before
      case Some(best) => before + [TrendingCard(best, trending[n - 1])]
  }

  method MatchTrending(trending: seq<TrendingTitle>, works: seq<Entry>) returns (out: seq<TrendingCard>)
    ensures out == Cards(trending, works, |trending|)
  {
    var used: set<string> := {};
    out := [];
    for i := 0 to |trending|
      invariant used == UsedBefore(trending, works, i)
      invariant out == Cards(trending, works, i)
    {
      var title := trending[i];
      var matches := Matches(title, works, used);
      SortByLength(matches, StandsBefore);
      if matches != [] {
        var sorted := SortBy(matches, StandsBefore);
        var best := sorted[0];
        if title.mediaType == "tv" {
          used := used + Keys(matches);
        } else {
          used := used + {best.workKey};
        }
        out := out + [TrendingCard(best, title)];
      }
    }
  }

  lemma StandsBeforeIsOrdering()
    ensures Ordering(StandsBefore)
  {
  }

  /** In the list of works, `best` stands before every other unused eligible work that is as early. */
  ghost predicate FirstOnATie(title: TrendingTitle, works: seq<Entry>, used: set<string>, best: Entry) {
    exists at :: 0 <= at < |works| && works[at] == best
                 && forall k :: 0 <= k < at && Eligible(title, works[k]) && works[k].workKey !in used ==>
                      !StandsBefore(works[k], best)
  }

  lemma FirstMatchIsFirst(title: TrendingTitle, works: seq<Entry>, used: set<string>, i: nat)
    requires var matches := Matches(title, works, used);
             i < |matches| && forall j :: 0 <= j < i ==> !StandsBefore(matches[j], matches[i])
    ensures FirstOnATie(title, works, used, Matches(title, works, used)[i])
  {
    var keep := (e: Entry) => Eligible(title, e) && e.workKey !in used;
    var matches := Matches(title, works, used);
    var at := FilterPlace(works, keep, i);
    forall k | 0 <= k < at && keep(works[k]) ensures !StandsBefore(works[k], matches[i]) {
      assert works[k] in works[..at];
      FilterHolds(works[..at], keep, works[k]);
      var j :| 0 <= j < i && matches[..i][j] == works[k];
    }
  }

  /**
    What a title gets: nothing exactly when every eligible work is used; else an unused
    eligible work, the earliest, and the first of those on a tie.
  */
  lemma ChoiceIsFirstEarliestMatch(title: TrendingTitle, works: seq<Entry>, used: set<string>)
    ensures var choice := Choose(title, works, used);
            && (choice.None? <==> forall e :: e in works && Eligible(title, e) ==> e.workKey in used)
            && (choice.Some? ==>
                  choice.value in works && Eligible(title, choice.value) && choice.value.workKey !in used
                  && (forall e :: e in works && Eligible(title, e) && e.workKey !in used ==> StandsBefore(choice.value, e))
                  && FirstOnATie(title, works, used, choice.value))
  {
    var keep := (e: Entry) => Eligible(title, e) && e.workKey !in used;
    var matches := Matches(title, works, used);
    forall e ensures e in matches <==> e in works && keep(e) {
      FilterHolds(works, keep, e);
    }
    SortByLength(matches, StandsBefore);
    if matches != [] {
      StandsBeforeIsOrdering();
      var i := SortByHead(matches, StandsBefore);
      assert matches[i] in matches;
      FirstMatchIsFirst(title, works, used, i);
      forall e | e in matches ensures StandsBefore(matches[i], e) {
        var j :| 0 <= j < |matches| && matches[j] == e;
      }
    } else {
      forall e | e in works && Eligible(title, e) ensures e.workKey in used {
        assert e !in matches;
      }
    }
  }

  lemma {:induction false} UsedGrows(trending: seq<TrendingTitle>, works: seq<Entry>, i: nat, j: nat)
    requires i <= j <= |trending|
    ensures UsedBefore(trending, works, i) <= UsedBefore(trending, works, j)
    decreases j - i
  {
    if i < j {
      UsedGrows(trending, works, i, j - 1);
    }
  }

  /**
    A work stands on the shelf at most once.  Whatever an earlier title claims, its card
    and, for a show, every work that matched it, no later title can be given.
  */
  lemma ClaimedWorksAreNotUsedAgain(trending: seq<TrendingTitle>, works: seq<Entry>, i: nat, j: nat, e: Entry)
    requires i < j < |trending| && ChooseAt(trending, works, i).Some?
    requires e == ChooseAt(trending, works, i).value
             || (trending[i].mediaType == "tv" && e in works && Eligible(trending[i], e))
    ensures ChooseAt(trending, works, j) != Some(e)
    ensures ChooseAt(trending, works, j).Some? ==> ChooseAt(trending, works, j).value.workKey != e.workKey
  {
    ClaimIsUsed(trending[i], works, UsedBefore(trending, works, i), e);
    UsedGrows(trending, works, i + 1, j);
    assert e.workKey in UsedBefore(trending, works, j);
    ChoiceIsFirstEarliestMatch(trending[j], works, UsedBefore(trending, works, j));
  }

  lemma ClaimIsUsed(title: TrendingTitle, works: seq<Entry>, used: set<string>, e: Entry)
    requires Choose(title, works, used).Some?
    requires e == Choose(title, works, used).value || (title.mediaType == "tv" && e in works && Eligible(title, e))
    ensures e.workKey in UsedAfter(title, works, used)
  {
    ChoiceIsFirstEarliestMatch(title, works, used);
    if title.mediaType == "tv" && e.workKey !in used {
      FilterHolds(works, (e: Entry) => Eligible(title, e) && e.workKey !in used, e);
      assert e in Matches(title, works, used);
    }
  }

  /** The places, in the trending list, of the titles that get a card. */
  function Placed(trending: seq<TrendingTitle>, works: seq<Entry>, n: nat): seq<int>
    requires n <= |trending|
  {
    if n == 0 then []
    else
      var before := Placed(trending, works, n - 1);
      if ChooseAt(trending, works, n - 1).Some? then before + [n - 1] else before
  }

  lemma {:induction false} PlacedIncrease(trending: seq<TrendingTitle>, works: seq<Entry>, n: nat)
    requires n <= |trending|
    ensures Increasing(Placed(trending, works, n), n)
  {
    if n > 0 {
      PlacedIncrease(trending, works, n - 1);
      assert Increasing(Placed(trending, works, n - 1), n - 1);
    }
  }

  lemma {:induction false} PlacedAre(trending: seq<TrendingTitle>, works: seq<Entry>, n: nat, i: nat)
    requires i < n <= |trending|
    ensures i in Placed(trending, works, n) <==> ChooseAt(trending, works, i).Some?
  {
    PlacedIncrease(trending, works, n - 1);
    if i < n - 1 {
      PlacedAre(trending, works, n - 1, i);
    }
  }

  /** The cards are the choices of the titles that get one, in the order of the trending list. */
  lemma {:induction false} CardsFollowTheTrendingOrder(trending: seq<TrendingTitle>, works: seq<Entry>, n: nat)
    requires n <= |trending|
    ensures var from, cards := Placed(trending, works, n), Cards(trending, works, n);
            |from| == |cards|
            && forall k :: 0 <= k < |from| ==>
                 0 <= from[k] < n && cards[k].title == trending[from[k]]
                 && ChooseAt(trending, works, from[k]) == Some(cards[k].entry)
  {
    if n > 0 {
      CardsFollowTheTrendingOrder(trending, works, n - 1);
    }
  }

  /** No two cards of the shelf show the same work. */
  lemma {:induction false} NoWorkTwice(trending: seq<TrendingTitle>, works: seq<Entry>, k: nat, l: nat)
    requires k < l < |Cards(trending, works, |trending|)|
    ensures var cards := Cards(trending, works, |trending|);
            cards[k].entry.workKey != cards[l].entry.workKey
  {
    PlacedIncrease(trending, works, |trending|);
    CardsFollowTheTrendingOrder(trending, works, |trending|);
    var from := Placed(trending, works, |trending|);
    var cards := Cards(trending, works, |trending|);
    ClaimedWorksAreNotUsedAgain(trending, works, from[k], from[l], cards[k].entry);
  }
}
