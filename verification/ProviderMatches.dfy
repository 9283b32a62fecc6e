/**
  Merging what metadata providers answer (src-tauri/src/enrichment.rs): field by field,
  the first answer that is not blank wins.
*/
module ProviderMatches {
  import opened Wrappers
  import opened Texts

  datatype Match = Match(
    title: Option<string>,
    overview: Option<string>,
    poster: Option<string>,
    year: Option<int>,
    rating: Option<real>,
    genre: Option<string>,
    tmdbId: Option<string>,
    imdbId: Option<string>)

  predicate Blank(text: Option<string>) {
    text.None? || Trim(text.value) == ""
  }

  /** Blank is a text that is missing, or white throughout. */
  lemma BlankExactlyWhen(text: Option<string>)
    ensures Blank(text) <==> text.None? || !HasInk(text.value)
  {
    if text.Some? {
      TrimsAwayExactlyWhen(text.value);
    }
  }

  function FirstText(a: Option<string>, b: Option<string>): Option<string> {
    if Blank(a) then b else a
  }

  function FirstValue<T>(a: Option<T>, b: Option<T>): Option<T> {
    if a.None? then b else a
  }

  function Merge(primary: Match, secondary: Match): Match {
    Match(FirstText(primary.title, secondary.title),
          FirstText(primary.overview, secondary.overview),
          FirstText(primary.poster, secondary.poster),
          FirstValue(primary.year, secondary.year),
          FirstValue(primary.rating, secondary.rating),
          FirstText(primary.genre, secondary.genre),
          FirstText(primary.tmdbId, secondary.tmdbId),
          FirstText(primary.imdbId, secondary.imdbId))
  }

  method MergeProviderMatches(primary: Match, secondary: Match) returns (merged: Match)
    ensures merged == Merge(primary, secondary)
  {
    merged := primary;
    if Blank(merged.title) {
      merged := merged.(title := secondary.title);
    }
    if Blank(merged.overview) {
      merged := merged.(overview := secondary.overview);
    }
    if Blank(merged.poster) {
      merged := merged.(poster := secondary.poster);
    }
    if merged.year.None? {
      merged := merged.(year := secondary.year);
    }
    if merged.rating.None? {
      merged := merged.(rating := secondary.rating);
    }
    if Blank(merged.genre) {
      merged := merged.(genre := secondary.genre);
    }
    if Blank(merged.tmdbId) {
      merged := merged.(tmdbId := secondary.tmdbId);
    }
    if Blank(merged.imdbId) {
      merged := merged.(imdbId := secondary.imdbId);
    }
  }

  /** All of them merged from left to right. */
  function Reduce(matches: seq<Match>): Match
    requires matches != []
  {
    if |matches| == 1 then matches[0] else Merge(Reduce(matches[..|matches| - 1]), matches[|matches| - 1])
  }

  /** The first text that is not blank; the last one if all are. */
  function FirstNonBlank(texts: seq<Option<string>>): Option<string>
    requires texts != []
  {
    if |texts| == 1 || !Blank(texts[0]) then texts[0] else FirstNonBlank(texts[1..])
  }

  function FirstPresent<T>(values: seq<Option<T>>): Option<T>
    requires values != []
  {
    if |values| == 1 || values[0].Some? then values[0] else FirstPresent(values[1..])
  }

  function Column<T>(matches: seq<Match>, field: Match -> Option<T>): seq<Option<T>> {
    seq(|matches|, i requires 0 <= i < |matches| => field(matches[i]))
  }

  lemma MergeIsAssociative(a: Match, b: Match, c: Match)
    ensures Merge(Merge(a, b), c) == Merge(a, Merge(b, c))
  {
  }

  lemma {:induction false} FirstNonBlankOfOneMore(texts: seq<Option<string>>, last: Option<string>)
    requires texts != []
    ensures FirstNonBlank(texts + [last]) == FirstText(FirstNonBlank(texts), last)
  {
    if |texts| > 1 && Blank(texts[0]) {
      FirstNonBlankOfOneMore(texts[1..], last);
      assert (texts + [last])[1..] == texts[1..] + [last];
    } else if |texts| == 1 {
      assert (texts + [last])[1..] == [last];
    }
  }

  lemma {:induction false} FirstPresentOfOneMore<T>(values: seq<Option<T>>, last: Option<T>)
    requires values != []
    ensures FirstPresent(values + [last]) == FirstValue(FirstPresent(values), last)
  {
    if |values| > 1 && values[0].None? {
      FirstPresentOfOneMore(values[1..], last);
      assert (values + [last])[1..] == values[1..] + [last];
    } else if |values| == 1 {
      assert (values + [last])[1..] == [last];
    }
  }

  lemma ColumnOfOneMore<T>(matches: seq<Match>, field: Match -> Option<T>)
    requires matches != []
    ensures var n := |matches| - 1;
            Column(matches, field) == Column(matches[..n], field) + [field(matches[n])]
  {
  }

  /** Every field is the first one among the matches that says something. */
  predicate TakesFirstFields(r: Match, matches: seq<Match>)
    requires matches != []
  {
    && r.title == FirstNonBlank(Column(matches, (m: Match) => m.title))
    && r.overview == FirstNonBlank(Column(matches, (m: Match) => m.overview))
    && r.poster == FirstNonBlank(Column(matches, (m: Match) => m.poster))
    && r.year == FirstPresent(Column(matches, (m: Match) => m.year))
    && r.rating == FirstPresent(Column(matches, (m: Match) => m.rating))
    && r.genre == FirstNonBlank(Column(matches, (m: Match) => m.genre))
    && r.tmdbId == FirstNonBlank(Column(matches, (m: Match) => m.tmdbId))
    && r.imdbId == FirstNonBlank(Column(matches, (m: Match) => m.imdbId))
  }

  lemma {:induction false} ReduceTakesFirstFields(matches: seq<Match>)
    requires matches != []
    ensures TakesFirstFields(Reduce(matches), matches)
  {
    var n := |matches| - 1;
    if n > 0 {
      ReduceTakesFirstFields(matches[..n]);
      TextColumn(matches, (m: Match) => m.title);
      TextColumn(matches, (m: Match) => m.overview);
      TextColumn(matches, (m: Match) => m.poster);
      ValueColumn(matches, (m: Match) => m.year);
      ValueColumn(matches, (m: Match) => m.rating);
      TextColumn(matches, (m: Match) => m.genre);
      TextColumn(matches, (m: Match) => m.tmdbId);
      TextColumn(matches, (m: Match) => m.imdbId);
    }
  }

  lemma TextColumn(matches: seq<Match>, field: Match -> Option<string>)
    requires |matches| > 1
    ensures var n := |matches| - 1;
            FirstNonBlank(Column(matches, field))
            == FirstText(FirstNonBlank(Column(matches[..n], field)), field(matches[n]))
  {
    ColumnOfOneMore(matches, field);
    FirstNonBlankOfOneMore(Column(matches[..|matches| - 1], field), field(matches[|matches| - 1]));
  }

  lemma ValueColumn<T>(matches: seq<Match>, field: Match -> Option<T>)
    requires |matches| > 1
    ensures var n := |matches| - 1;
            FirstPresent(Column(matches, field))
            == FirstValue(FirstPresent(Column(matches[..n], field)), field(matches[n]))
  {
    ColumnOfOneMore(matches, field);
    FirstPresentOfOneMore(Column(matches[..|matches| - 1], field), field(matches[|matches| - 1]));
  }

  // ---- Resolving an adult item ----

  datatype Answer = Found(found: Match) | Nothing | Failed(error: string)

  /**
    One query: what each provider would answer, and whether a stop would be seen before
    the query and before each provider.
  */
  datatype Query = Query(stop: bool, stopFirst: bool, tpdb: Answer, stopSecond: bool, stashdb: Answer)

  datatype Keys = Keys(tpdb: bool, stashdb: bool)

  /** Whether a stop is seen somewhere in the query. */
  predicate Stops(keys: Keys, q: Query) {
    q.stop || (keys.tpdb && q.stopFirst) || (keys.stashdb && q.stopSecond)
  }

  function FoundBy(asked: bool, answer: Answer): seq<Match> {
    if asked && answer.Found? then [answer.found] else []
  }

  function Matches(keys: Keys, q: Query): seq<Match> {
    FoundBy(keys.tpdb, q.tpdb) + FoundBy(keys.stashdb, q.stashdb)
  }

  /** The query's merged answer, if it carries a title. */
  function Titled(keys: Keys, q: Query): Option<Match> {
    var matches := Matches(keys, q);
    if matches == [] || Reduce(matches).title.None? then None else Some(Reduce(matches))
  }

  predicate HasPoster(m: Match) {
    !Blank(m.poster)
  }

  /** The titled answers of some queries, in order. */
  function TitledOf(keys: Keys, queries: seq<Query>): seq<Match> {
    if queries == [] then []
    else
      var before, last := TitledOf(keys, queries[..|queries| - 1]), Titled(keys, queries[|queries| - 1]);
      if last.Some? then before + [last.value] else before
  }

  /** The query ends the search: it has both a title and a poster. */
  predicate Completes(keys: Keys, q: Query) {
    Titled(keys, q).Some? && HasPoster(Titled(keys, q).value)
  }

  function Best(matches: seq<Match>): Option<Match> {
    if matches == [] then None else Some(Reduce(matches))
  }

  function WithFill(first: Match, fill: Option<Match>): Match {
    if fill.Some? then Merge(first, fill.value) else first
  }

  /** The rest of the search, given the best answer so far. */
  function ResolveFrom(keys: Keys, queries: seq<Query>, best: Option<Match>): Option<Match> {
    if queries == [] then best
    else if Stops(keys, queries[0]) then None
    else match Titled(keys, queries[0])
      case None => ResolveFrom(keys, queries[1..], best)
      case Some(merged) =>
        if HasPoster(merged) then Some(WithFill(merged, best))
        else ResolveFrom(keys, queries[1..], Some(if best.Some? then Merge(best.value, merged) else merged))
  }

  method ResolveProviderMatch(keys: Keys, queries: seq<Query>) returns (r: Option<Match>)
    ensures r == ResolveFrom(keys, queries, None)
  {
    var best: Option<Match> := None;
    for i := 0 to |queries|
      invariant ResolveFrom(keys, queries[i..], best) == ResolveFrom(keys, queries, None)
    {
      var q := queries[i];
      assert queries[i..][1..] == queries[i + 1..];
      if q.stop {
        return None;
      }
      var matches: seq<Match> := [];
      if keys.tpdb {
        if q.stopFirst {
          return None;
        }
        match q.tpdb {
          case Found(m) => matches := matches + [m];
          case Nothing =>
          case Failed(_) =>
        }
      }
      if keys.stashdb {
        if q.stopSecond {
          return None;
        }
        match q.stashdb {
          case Found(m) => matches := matches + [m];
          case Nothing =>
          case Failed(_) =>
        }
      }
      assert matches == Matches(keys, q);
      if matches != [] {
        var merged := Reduce(matches);
        if merged.title.Some? {
          if Blank(merged.poster) {
            if best.Some? {
              merged := MergeProviderMatches(best.value, merged);
            }
            best := Some(merged);
          } else {
            if best.Some? {
              merged := MergeProviderMatches(merged, best.value);
            }
            return Some(merged);
          }
        }
      }
    }
    r := best;
  }

  /**
    One query.  A stop before it or before a provider that has a key gives nothing; else the
    found answers of the providers with a key count, the first provider's before the second's,
    provided that they carry a title.
  */
  lemma {:induction false} OneQueryMeans(keys: Keys, q: Query)
    ensures var r := ResolveFrom(keys, [q], None);
            var found := (if keys.tpdb && q.tpdb.Found? then [q.tpdb.found] else [])
                         + (if keys.stashdb && q.stashdb.Found? then [q.stashdb.found] else []);
            if q.stop || (q.stopFirst && keys.tpdb) || (q.stopSecond && keys.stashdb) || found == [] then
              r.None?
            else
              && (r.Some? <==> FirstNonBlank(Column(found, (m: Match) => m.title)).Some?)
              && (r.Some? ==> TakesFirstFields(r.value, found))
  {
    var found := Matches(keys, q);
    if found != [] {
      ReduceTakesFirstFields(found);
    }
    assert [q][1..] == [];
  }

  /** The first query that stops or completes the search. */
  ghost predicate FirstEnd(keys: Keys, queries: seq<Query>, i: int) {
    && 0 <= i < |queries|
    && (Stops(keys, queries[i]) || Completes(keys, queries[i]))
    && forall j :: 0 <= j < i ==> !Stops(keys, queries[j]) && !Completes(keys, queries[j])
  }

  lemma {:induction false} BestOfOneMore(matches: seq<Match>, m: Match)
    ensures Best(matches + [m]) == Some(if matches == [] then m else Merge(Reduce(matches), m))
  {
    assert (matches + [m])[..|matches|] == matches;
  }

  /** The search picks up after a prefix that neither stops nor completes it. */
  lemma {:induction false} ResolvePrefix(keys: Keys, queries: seq<Query>, i: nat)
    requires i <= |queries|
    requires forall j :: 0 <= j < i ==> !Stops(keys, queries[j]) && !Completes(keys, queries[j])
    ensures ResolveFrom(keys, queries, None) == ResolveFrom(keys, queries[i..], Best(TitledOf(keys, queries[..i])))
  {
    if i == 0 {
      assert queries[0..] == queries && queries[..0] == [];
    } else {
      ResolvePrefix(keys, queries, i - 1);
      assert queries[i - 1..][1..] == queries[i..];
      assert queries[..i][..i - 1] == queries[..i - 1];
      var titled := Titled(keys, queries[i - 1]);
      if titled.Some? {
        BestOfOneMore(TitledOf(keys, queries[..i - 1]), titled.value);
      }
    }
  }

  /**
    What the search returns.  The first query to carry a title and a poster ends it, with
    its blanks filled from the earlier titled answers in order; a stop seen first ends it
    with nothing; without either, all titled answers are merged in order.
  */
  lemma {:induction false} ResolveMeans(keys: Keys, queries: seq<Query>, i: int)
    ensures FirstEnd(keys, queries, i) ==>
              ResolveFrom(keys, queries, None) ==
              if Stops(keys, queries[i]) then None
              else Some(WithFill(Titled(keys, queries[i]).value, Best(TitledOf(keys, queries[..i]))))
    ensures (forall j :: !FirstEnd(keys, queries, j)) ==>
              ResolveFrom(keys, queries, None) == Best(TitledOf(keys, queries))
  {
    if FirstEnd(keys, queries, i) {
      ResolvePrefix(keys, queries, i);
    }
    if forall j :: !FirstEnd(keys, queries, j) {
      NoEnd(keys, queries, |queries|);
      ResolvePrefix(keys, queries, |queries|);
      assert queries[..|queries|] == queries;
    }
  }

  lemma {:induction false} NoEnd(keys: Keys, queries: seq<Query>, n: nat)
    requires n <= |queries| && forall j :: !FirstEnd(keys, queries, j)
    ensures forall j :: 0 <= j < n ==> !Stops(keys, queries[j]) && !Completes(keys, queries[j])
  {
    if n > 0 {
      NoEnd(keys, queries, n - 1);
      assert !FirstEnd(keys, queries, n - 1);
    }
  }

  lemma {:induction false} SomethingIsTitled(keys: Keys, queries: seq<Query>)
    ensures TitledOf(keys, queries) != [] <==> exists j :: 0 <= j < |queries| && Titled(keys, queries[j]).Some?
  {
    if queries != [] {
      SomethingIsTitled(keys, queries[..|queries| - 1]);
      assert forall j :: 0 <= j < |queries| - 1 ==> queries[..|queries| - 1][j] == queries[j];
    }
  }

  lemma {:induction false} TitledArePosterless(keys: Keys, queries: seq<Query>)
    requires forall j :: 0 <= j < |queries| ==> !Completes(keys, queries[j])
    ensures forall m :: m in TitledOf(keys, queries) ==> !HasPoster(m)
  {
    if queries != [] {
      TitledArePosterless(keys, queries[..|queries| - 1]);
      assert !Completes(keys, queries[|queries| - 1]);
    }
  }

  lemma {:induction false} PosterlessReduce(matches: seq<Match>)
    requires matches != [] && forall m :: m in matches ==> !HasPoster(m)
    ensures !HasPoster(Reduce(matches))
  {
    var n := |matches| - 1;
    assert matches[n] in matches;
    if n > 0 {
      assert forall m :: m in matches[..n] ==> m in matches;
      PosterlessReduce(matches[..n]);
    }
  }

  /** Unless it is stopped, the search finds a match exactly when some query has a titled answer, and a poster exactly when some query has both. */
  lemma {:induction false} SearchFindsWhatThereIs(keys: Keys, queries: seq<Query>)
    requires forall j :: 0 <= j < |queries| ==> !Stops(keys, queries[j])
    ensures var r := ResolveFrom(keys, queries, None);
            && (r.Some? <==> exists j :: 0 <= j < |queries| && Titled(keys, queries[j]).Some?)
            && (r.Some? && HasPoster(r.value) <==> exists j :: 0 <= j < |queries| && Completes(keys, queries[j]))
  {
    if i :| FirstEnd(keys, queries, i) {
      ResolveMeans(keys, queries, i);
      assert Completes(keys, queries[i]) && Titled(keys, queries[i]).Some?;
    } else {
      ResolveMeans(keys, queries, 0);
      NoEnd(keys, queries, |queries|);
      SomethingIsTitled(keys, queries);
      TitledArePosterless(keys, queries);
      if TitledOf(keys, queries) != [] {
        PosterlessReduce(TitledOf(keys, queries));
      }
    }
  }

  // ---- The further providers ----

  datatype ExtraAnswer = ExtraFound(found: Match) | ExtraNothing | ExtraTimedOut

  datatype ExtraQuery = ExtraQuery(stop: bool, answer: ExtraAnswer)

  predicate IsComplete(m: Match) {
    !Blank(m.title) && !Blank(m.poster)
  }

  function ExtendFrom(remote: Option<Match>, queries: seq<ExtraQuery>): Option<Match>
    decreases |queries|
  {
    if queries == [] || queries[0].stop then remote
    else match queries[0].answer
      case ExtraFound(found) =>
        var merged := if remote.Some? then Merge(remote.value, found) else found;
        if IsComplete(merged) then Some(merged) else ExtendFrom(Some(merged), queries[1..])
      case _ => ExtendFrom(remote, queries[1..])
  }

  /** The chain runs only when it is configured and something is still missing. */
  function Extended(remote: Option<Match>, configured: bool, queries: seq<ExtraQuery>): Option<Match> {
    if configured && (remote.None? || !IsComplete(remote.value)) then ExtendFrom(remote, queries) else remote
  }

  method AskFurtherProviders(known: Option<Match>, configured: bool, queries: seq<ExtraQuery>)
    returns (remote: Option<Match>)
    ensures remote == Extended(known, configured, queries)
  {
    remote := known;
    if configured && (remote.None? || !IsComplete(remote.value)) {
      for i := 0 to |queries|
        invariant ExtendFrom(remote, queries[i..]) == ExtendFrom(known, queries)
      {
        assert queries[i..][1..] == queries[i + 1..];
        if queries[i].stop {
          return;
        }
        match queries[i].answer {
          case ExtraFound(found) =>
            var merged := found;
            if remote.Some? {
              merged := MergeProviderMatches(remote.value, found);
            }
            remote := Some(merged);
            if IsComplete(merged) {
              return;
            }
          case ExtraNothing =>
          case ExtraTimedOut =>
        }
      }
    }
  }

  /** A field that says something is kept. */
  predicate KeepsText(before: Option<string>, after: Option<string>) {
    !Blank(before) ==> after == before
  }

  predicate KeepsFields(before: Match, after: Match) {
    && KeepsText(before.title, after.title) && KeepsText(before.overview, after.overview)
    && KeepsText(before.poster, after.poster) && KeepsText(before.genre, after.genre)
    && KeepsText(before.tmdbId, after.tmdbId) && KeepsText(before.imdbId, after.imdbId)
    && (before.year.Some? ==> after.year == before.year)
    && (before.rating.Some? ==> after.rating == before.rating)
  }

  /** The chain only fills in: nothing already found is replaced, and a complete match is left as it is. */
  lemma FurtherProvidersOnlyFillIn(known: Match, configured: bool, queries: seq<ExtraQuery>)
    ensures var r := Extended(Some(known), configured, queries);
            r.Some? && KeepsFields(known, r.value) && (IsComplete(known) ==> r.value == known)
  {
    if configured && !IsComplete(known) {
      ExtendOnlyFillsIn(known, queries);
    }
  }

  lemma {:induction false} ExtendOnlyFillsIn(known: Match, queries: seq<ExtraQuery>)
    ensures var r := ExtendFrom(Some(known), queries);
            r.Some? && KeepsFields(known, r.value)
    decreases |queries|
  {
    if queries != [] && !queries[0].stop {
      match queries[0].answer
      case ExtraFound(found) => ExtendOnlyFillsIn(Merge(known, found), queries[1..]);
      case _ => ExtendOnlyFillsIn(known, queries[1..]);
    }
  }

  // ---- What the chain of further providers finds ----

  /** What the queries found, in order. */
  function FoundOf(queries: seq<ExtraQuery>): seq<Match> {
    if queries == [] then []
    else
      var before, last := FoundOf(queries[..|queries| - 1]), queries[|queries| - 1].answer;
      if last.ExtraFound? then before + [last.found] else before
  }

  /** The match known at first, followed by what the first queries found. */
  function SoFar(known: Option<Match>, queries: seq<ExtraQuery>, asked: nat): seq<Match>
    requires asked <= |queries|
  {
    (if known.Some? then [known.value] else []) + FoundOf(queries[..asked])
  }

  /** Some match has a title, and some match a poster. */
  ghost predicate HaveBoth(matches: seq<Match>) {
    && (exists i :: 0 <= i < |matches| && !Blank(matches[i].title))
    && (exists i :: 0 <= i < |matches| && !Blank(matches[i].poster))
  }

  /** The chain asks this many queries: until title and poster are there, or a stop is seen, or no query is left. */
  ghost predicate AsksUpTo(known: Option<Match>, queries: seq<ExtraQuery>, asked: nat) {
    && asked <= |queries|
    && (forall j :: 0 <= j < asked ==> !queries[j].stop && !HaveBoth(SoFar(known, queries, j)))
    && (asked == |queries| || queries[asked].stop || HaveBoth(SoFar(known, queries, asked)))
  }

  lemma {:induction false} ReducedIsComplete(matches: seq<Match>)
    requires matches != []
    ensures !Blank(Reduce(matches).title) <==> exists i :: 0 <= i < |matches| && !Blank(matches[i].title)
    ensures !Blank(Reduce(matches).poster) <==> exists i :: 0 <= i < |matches| && !Blank(matches[i].poster)
  {
    var n := |matches| - 1;
    if n > 0 {
      ReducedIsComplete(matches[..n]);
      assert forall i :: 0 <= i < n ==> matches[..n][i] == matches[i];
    }
  }

  lemma SoFarOfOneMore(known: Option<Match>, queries: seq<ExtraQuery>, asked: nat)
    requires asked < |queries|
    ensures SoFar(known, queries, asked + 1)
            == SoFar(known, queries, asked)
               + if queries[asked].answer.ExtraFound? then [queries[asked].answer.found] else []
  {
    assert queries[..asked + 1][..asked] == queries[..asked];
  }

  /** Complete is what has both. */
  lemma BestHasBoth(matches: seq<Match>)
    ensures HaveBoth(matches) <==> Best(matches).Some? && IsComplete(Best(matches).value)
  {
    if matches != [] {
      ReducedIsComplete(matches);
    }
  }

  /** One query of the chain. */
  lemma {:induction false} ChainSteps(before: seq<Match>, queries: seq<ExtraQuery>)
    requires queries != [] && !queries[0].stop && !HaveBoth(before)
    ensures var after := before + if queries[0].answer.ExtraFound? then [queries[0].answer.found] else [];
            ExtendFrom(Best(before), queries)
            == if HaveBoth(after) then Best(after) else ExtendFrom(Best(after), queries[1..])
  {
    match queries[0].answer
    case ExtraFound(found) =>
      BestHasBoth(before + [found]);
      BestOfOneMore(before, found);
    case _ =>
      assert before + [] == before;
  }

  /** The chain from a query on, as long as something is missing. */
  lemma {:induction false} ChainMeans(known: Option<Match>, queries: seq<ExtraQuery>, from: nat) returns (asked: nat)
    requires from <= |queries| && !HaveBoth(SoFar(known, queries, from))
    requires forall j :: 0 <= j < from ==> !queries[j].stop && !HaveBoth(SoFar(known, queries, j))
    ensures AsksUpTo(known, queries, asked)
    ensures ExtendFrom(Best(SoFar(known, queries, from)), queries[from..]) == Best(SoFar(known, queries, asked))
    decreases |queries| - from
  {
    asked := from;
    if from < |queries| && !queries[from].stop {
      SoFarOfOneMore(known, queries, from);
      assert queries[from..][1..] == queries[from + 1..];
      ChainSteps(SoFar(known, queries, from), queries[from..]);
      asked := from + 1;
      if !HaveBoth(SoFar(known, queries, asked)) {
        asked := ChainMeans(known, queries, asked);
      }
    }
  }

  /**
    What the chain of further providers returns: unless it is not configured, it asks until
    title and poster are there, a stop is seen, or no query is left, and then every field is
    the first one among the known match and the found answers that says something.
  */
  lemma FurtherProvidersMean(known: Option<Match>, configured: bool, queries: seq<ExtraQuery>) returns (asked: nat)
    ensures if configured then AsksUpTo(known, queries, asked) else asked == 0
    ensures var r := Extended(known, configured, queries);
            var matches := SoFar(known, queries, asked);
            if matches == [] then r.None? else r.Some? && TakesFirstFields(r.value, matches)
  {
    asked := 0;
    assert SoFar(known, queries, 0) == if known.Some? then [known.value] else [];
    BestHasBoth(SoFar(known, queries, 0));
    if configured && !HaveBoth(SoFar(known, queries, 0)) {
      asked := ChainMeans(known, queries, 0);
      assert queries[0..] == queries;
    }
    if SoFar(known, queries, asked) != [] {
      ReduceTakesFirstFields(SoFar(known, queries, asked));
    }
  }

  lemma {:induction false} FoundOfHolds(queries: seq<ExtraQuery>)
    ensures FoundOf(queries) != [] <==> exists j :: 0 <= j < |queries| && queries[j].answer.ExtraFound?
  {
    if queries != [] {
      var n := |queries| - 1;
      FoundOfHolds(queries[..n]);
      assert forall j :: 0 <= j < n ==> queries[..n][j] == queries[j];
    }
  }

  /** Where nothing was known and no stop is seen, a configured chain finds a match exactly when some query does. */
  lemma ChainFindsWhatThereIs(queries: seq<ExtraQuery>)
    requires forall j :: 0 <= j < |queries| ==> !queries[j].stop
    ensures Extended(None, true, queries).Some? <==> exists j :: 0 <= j < |queries| && queries[j].answer.ExtraFound?
  {
    var asked := FurtherProvidersMean(None, true, queries);
    FoundOfHolds(queries);
    FoundOfHolds(queries[..asked]);
    if asked == |queries| {
      assert queries[..asked] == queries;
    } else {
      assert FoundOf(queries[..asked]) != [];
      assert forall j :: 0 <= j < asked ==> queries[..asked][j] == queries[j];
    }
  }
}
