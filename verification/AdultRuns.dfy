/**
  What adult enrichment promises, for one pass over an item and over runs of passes
  (src-tauri/src/enrichment.rs and src-tauri/src/adult_attempts.rs).
*/
module AdultRuns {
  import opened Wrappers
  import opened Texts
  import opened ProviderMatches
  import opened AdultItem
  import Attempts = AdultAttempts

  // ---- What a pass writes ----

  /** The pass gets to its update, and the update of the row does not fail. */
  predicate WritesRow(item: Item, env: Environment) {
    AsksProviders(item, env) && !env.timedOut && env.rowFails.None?
  }

  /** What is written: the whole final update, or nothing. */
  lemma WrittenIs(item: Item, env: Environment)
    ensures Verdict(item, env).1 == if WritesRow(item, env) then FinalUpdate(item, Remote(env), env) else NO_UPDATE
  {
    if AsksProviders(item, env) && !env.timedOut {
      var final := FinalUpdate(item, Remote(env), env);
      if final.changedFields == 0 {
        EmptyUpdate(final);
      }
      if Remote(env).None? && !SavesPoster(item, NO_UPDATE, env) {
        EmptyUpdate(final);
      }
    }
  }

  const NOTHING_KNOWN := Match(None, None, None, None, None, None, None, None)

  /** What the providers have found, with every field empty if they found nothing. */
  function Known(env: Environment): Match {
    if Remote(env).Some? then Remote(env).value else NOTHING_KNOWN
  }

  // ---- The poster ----

  /** The providers give a poster that the item can take. */
  predicate OffersPoster(item: Item, known: Match) {
    Blank(item.poster) && known.poster.Some? && !SaysNothing(known.poster.value)
  }

  /** What the providers and the download come to: an address is only kept downloaded. */
  function FetchedPoster(item: Item, known: Match, env: Environment): Option<string> {
    var address :=
      if OffersPoster(item, known) then IsRemote(Trim(known.poster.value))
      else item.poster.Some? && IsRemote(item.poster.value);
    if address then (if env.download.Ok? then Some(env.download.value) else None)
    else if OffersPoster(item, known) then Some(Trim(known.poster.value))
    else None
  }

  /** The poster that a pass gets: the fetched one, or else a chapter frame for an item without a local poster. */
  function GottenPoster(item: Item, known: Match, env: Environment): Option<string> {
    var fetched := FetchedPoster(item, known, env);
    if Blank(fetched) && LocalPoster(item).None? && env.frame.Ok? && env.frame.value.Some? then env.frame.value
    else fetched
  }

  lemma FinalPosterIs(item: Item, env: Environment)
    ensures FinalUpdate(item, Remote(env), env).poster == GottenPoster(item, Known(env), env)
  {
    var start := StartingUpdate(item, Remote(env), env.newTitle);
    assert start.poster == if OffersPoster(item, Known(env)) then Some(Trim(Known(env).poster.value)) else None;
  }

  /** A pass gets a poster exactly when one is offered as a path, downloaded, or promoted from a frame. */
  lemma PosterIsGottenExactlyWhen(item: Item, known: Match, env: Environment)
    ensures GottenPoster(item, known, env).Some? <==>
              || (OffersPoster(item, known) && (!IsRemote(Trim(known.poster.value)) || env.download.Ok?))
              || (!OffersPoster(item, known) && item.poster.Some? && IsRemote(item.poster.value) && env.download.Ok?)
              || (LocalPoster(item).None? && env.frame.Ok? && env.frame.value.Some?)
  {
  }

  /** The download and the chapter frame give paths on disk. */
  predicate SavesLocally(env: Environment) {
    && (env.download.Ok? ==> IsLocal(env.download.value))
    && (env.frame.Ok? && env.frame.value.Some? ==> IsLocal(env.frame.value.value))
  }

  predicate LocalPath(poster: Option<string>) {
    poster.Some? && IsLocal(poster.value) && !IsRemote(poster.value)
  }

  lemma GottenPosterIsLocal(item: Item, known: Match, env: Environment)
    requires SavesLocally(env) && GottenPoster(item, known, env).Some?
    ensures LocalPath(GottenPoster(item, known, env))
  {
    LocalIsNotRemote(GottenPoster(item, known, env).value);
    if OffersPoster(item, known) {
      TrimIsSlice(known.poster.value, ' ');
    }
  }

  /** A web address, its scheme written in any case. */
  predicate IsAddress(path: string) {
    IsRemote(Lower(path))
  }

  predicate HoldsAddress(poster: Option<string>) {
    poster.Some? && IsAddress(poster.value)
  }

  /** What is saved is not even written like an address. */
  predicate SavesOnDisk(env: Environment) {
    && (env.download.Ok? ==> !IsAddress(env.download.value))
    && (env.frame.Ok? && env.frame.value.Some? ==> !IsAddress(env.frame.value.value))
  }

  /** The providers' poster is an address whose scheme is not in lower case. */
  predicate OddAddress(known: Match) {
    known.poster.Some? && IsAddress(Trim(known.poster.value)) && !IsRemote(Trim(known.poster.value))
  }

  lemma LowerKeepsPrefix(path: string, prefix: string)
    requires StartsWith(path, prefix) && forall i :: 0 <= i < |prefix| ==> LowerChar(prefix[i]) == prefix[i]
    ensures StartsWith(Lower(path), prefix)
  {
    assert forall i :: 0 <= i < |prefix| ==> Lower(path)[i] == LowerChar(path[..|prefix|][i]);
  }

  /** An address is one in any case, and says something. */
  lemma AddressSaysSomething(path: string)
    ensures IsRemote(path) ==> IsAddress(path)
    ensures IsAddress(path) ==> Lower(path) != "" && Lower(path) != "n/a"
  {
    if StartsWith(path, "http://") {
      LowerKeepsPrefix(path, "http://");
    } else if StartsWith(path, "https://") {
      LowerKeepsPrefix(path, "https://");
    }
  }

  /** What is gotten is an address exactly when the item can take one whose scheme is not in lower case. */
  lemma AddressIsGottenExactlyWhen(item: Item, known: Match, env: Environment)
    requires SavesOnDisk(env)
    ensures HoldsAddress(GottenPoster(item, known, env)) <==> Blank(item.poster) && OddAddress(known)
  {
    if known.poster.Some? {
      AddressSaysSomething(Trim(known.poster.value));
      TrimIsSlice(known.poster.value, ' ');
    }
  }

  /**
    Exactly when a pass writes a web address as the poster: it writes the row at all, the
    item has no poster, and the providers give an address whose scheme is not in lower case,
    which the code takes for a path.
  */
  lemma AddressIsWrittenExactlyWhen(item: Item, env: Environment)
    requires SavesOnDisk(env)
    ensures HoldsAddress(Verdict(item, env).1.poster)
            <==> WritesRow(item, env) && Blank(item.poster) && OddAddress(Known(env))
  {
    WrittenIs(item, env);
    FinalPosterIs(item, env);
    AddressIsGottenExactlyWhen(item, Known(env), env);
  }

  // ---- The row ----

  /**
    A text of the row is replaced only if it was blank when the item was loaded, and then by
    what is known, trimmed, if that says anything.
  */
  predicate FilledIn(loaded: Option<string>, now: Option<string>, known: Option<string>, after: Option<string>) {
    if Blank(loaded) && known.Some? && !SaysNothing(known.value) then after == Some(Trim(known.value)) else after == now
  }

  /** What a pass that writes makes of a row, which may have changed since the item was loaded. */
  predicate Filled(item: Item, now: Item, env: Environment, after: Item) {
    var known := Known(env);
    && FilledIn(item.overview, now.overview, known.overview, after.overview)
    && FilledIn(item.genre, now.genre, known.genre, after.genre)
    && FilledIn(item.tmdbId, now.tmdbId, known.tmdbId, after.tmdbId)
    && FilledIn(item.imdbId, now.imdbId, known.imdbId, after.imdbId)
    && after.year == (if item.year.None? && known.year.Some? then known.year else now.year)
    && after.rating == (if item.rating.None? && known.rating.Some? then known.rating else now.rating)
    && after.poster == FirstValue(GottenPoster(item, known, env), now.poster)
    && after.title == (if Remote(env).Some? && env.newTitle.Some? then env.newTitle.value else now.title)
    && after.mediaType == (if Remote(env).Some? && Lower(item.mediaType) != "adult" then "adult" else now.mediaType)
    && after.id == now.id && after.filePath == now.filePath
  }

  lemma WrittenIsFilled(item: Item, now: Item, env: Environment)
    ensures Filled(item, now, env, Written(now, FinalUpdate(item, Remote(env), env)))
  {
    FinalPosterIs(item, env);
  }

  /** The rows after a pass, whole: the item's row is filled in if the pass writes it, and nothing else changes. */
  lemma RowsAfterPass(store: Store, pass: Pass)
    ensures var (rows, path) := (store.Enriched(pass).rows, pass.item.filePath);
            && rows.Keys == store.rows.Keys
            && (forall other :: other in rows && other != path ==> rows[other] == store.rows[other])
            && (path in rows ==>
                  if WritesRow(pass.item, pass.env) then Filled(pass.item, store.rows[path], pass.env, rows[path])
                  else rows[path] == store.rows[path])
  {
    WrittenIs(pass.item, pass.env);
    if pass.item.filePath in store.rows {
      WrittenIsFilled(pass.item, store.rows[pass.item.filePath], pass.env);
      NothingWritten(store.rows, pass.item.filePath);
    }
  }

  /** Nothing that the row says, in any field, is another afterwards; a poster counts if it is local. */
  predicate NothingReplaced(before: Item, after: Item) {
    && after.title == before.title && after.mediaType == before.mediaType
    && KeepsText(before.overview, after.overview) && KeepsText(before.genre, after.genre)
    && KeepsText(before.tmdbId, after.tmdbId) && KeepsText(before.imdbId, after.imdbId)
    && (before.year.Some? ==> after.year == before.year) && (before.rating.Some? ==> after.rating == before.rating)
    && (LocalPoster(before).Some? ==> after.poster == before.poster)
  }

  /** What was a gap when the item was loaded, and is going to be filled, is a gap still, or holds the same by now. */
  predicate GapStillOpen(loaded: Option<string>, now: Option<string>, known: Option<string>) {
    Blank(loaded) && known.Some? && !SaysNothing(known.value) ==> Blank(now) || now == Some(Trim(known.value))
  }

  predicate ValueStillOpen<T(==)>(loaded: Option<T>, now: Option<T>, known: Option<T>) {
    loaded.None? && known.Some? ==> now.None? || now == known
  }

  /** Each gap that the pass fills is open in the row as it is now; title and media type are already as they will be. */
  predicate GapsStillOpen(item: Item, now: Item, env: Environment) {
    var known := Known(env);
    && GapStillOpen(item.overview, now.overview, known.overview) && GapStillOpen(item.genre, now.genre, known.genre)
    && GapStillOpen(item.tmdbId, now.tmdbId, known.tmdbId) && GapStillOpen(item.imdbId, now.imdbId, known.imdbId)
    && ValueStillOpen(item.year, now.year, known.year) && ValueStillOpen(item.rating, now.rating, known.rating)
    && (GottenPoster(item, known, env).Some? ==> LocalPoster(now).None? || now.poster == GottenPoster(item, known, env))
    && (Remote(env).Some? && env.newTitle.Some? ==> now.title == env.newTitle.value)
    && (Remote(env).Some? && Lower(item.mediaType) != "adult" ==> now.mediaType == "adult")
  }

  lemma TextKeptExactlyWhen(
    loaded: Option<string>, now: Option<string>, known: Option<string>, after: Option<string>)
    requires FilledIn(loaded, now, known, after)
    ensures KeepsText(now, after) <==> GapStillOpen(loaded, now, known)
  {
  }

  lemma FilledKeepsExactlyWhen(item: Item, now: Item, env: Environment, after: Item)
    requires Filled(item, now, env, after)
    ensures NothingReplaced(now, after) <==> GapsStillOpen(item, now, env)
  {
    var known := Known(env);
    TextKeptExactlyWhen(item.overview, now.overview, known.overview, after.overview);
    TextKeptExactlyWhen(item.genre, now.genre, known.genre, after.genre);
    TextKeptExactlyWhen(item.tmdbId, now.tmdbId, known.tmdbId, after.tmdbId);
    TextKeptExactlyWhen(item.imdbId, now.imdbId, known.imdbId, after.imdbId);
  }

  /**
    A pass replaces nothing that the row says, exactly when it does not write the row or
    each gap that it fills was still open: items are loaded once and worked through for
    hours, and the update does not look at the row again.
  */
  lemma PassOnlyFillsInExactlyWhen(store: Store, pass: Pass)
    requires pass.item.filePath in store.rows
    ensures var now := store.rows[pass.item.filePath];
            NothingReplaced(now, store.Enriched(pass).rows[pass.item.filePath])
            <==> (WritesRow(pass.item, pass.env) ==> GapsStillOpen(pass.item, now, pass.env))
  {
    RowsAfterPass(store, pass);
    if WritesRow(pass.item, pass.env) {
      var path := pass.item.filePath;
      FilledKeepsExactlyWhen(pass.item, store.rows[path], pass.env, store.Enriched(pass).rows[path]);
    }
  }

  /** In a row that has not changed since it was loaded, a pass replaces its title and its media type at most. */
  lemma PassKeepsAnUnchangedRow(store: Store, pass: Pass)
    requires pass.item.filePath in store.rows && store.rows[pass.item.filePath] == pass.item
    ensures var after := store.Enriched(pass).rows[pass.item.filePath];
            NothingReplaced(pass.item, after.(title := pass.item.title, mediaType := pass.item.mediaType))
  {
    RowsAfterPass(store, pass);
    if LocalPoster(pass.item).Some? {
      LocalIsNotRemote(pass.item.poster.value);
    }
  }

  /** The poster of the row after a pass: what it was, or a path on disk; never an address with a lower-case scheme. */
  lemma WrittenPosterIsLocal(store: Store, pass: Pass)
    requires pass.item.filePath in store.rows && SavesLocally(pass.env)
    ensures var poster := store.Enriched(pass).rows[pass.item.filePath].poster;
            poster == store.rows[pass.item.filePath].poster || LocalPath(poster)
  {
    RowsAfterPass(store, pass);
    if GottenPoster(pass.item, Known(pass.env), pass.env).Some? {
      GottenPosterIsLocal(pass.item, Known(pass.env), pass.env);
    }
  }

  /** A poster is reported missing exactly when the row, as it was loaded, is left without a local one. */
  lemma PosterIsMissingExactlyWhen(item: Item, env: Environment)
    requires SavesLocally(env)
    ensures var final := FinalUpdate(item, Remote(env), env);
            PosterMissing(item, final) <==> LocalPoster(Written(item, final)).None?
  {
    FinalPosterIs(item, env);
    if GottenPoster(item, Known(env), env).Some? {
      GottenPosterIsLocal(item, Known(env), env);
    }
  }

  /**
    The report of a pass fits the row it leaves exactly when the pass got a poster, or the
    row still had a local one just if the item had when it was loaded.
  */
  lemma PosterReportFitsTheRowExactlyWhen(store: Store, pass: Pass)
    requires pass.item.filePath in store.rows && SavesLocally(pass.env) && Verdict(pass.item, pass.env).0.Enriched?
    ensures var now, after := store.rows[pass.item.filePath], store.Enriched(pass).rows[pass.item.filePath];
            (Verdict(pass.item, pass.env).0.posterMissing <==> LocalPoster(after).None?)
            <==> GottenPoster(pass.item, Known(pass.env), pass.env).Some?
                 || (LocalPoster(pass.item).None? <==> LocalPoster(now).None?)
  {
    var (item, env) := (pass.item, pass.env);
    FinalPosterIs(item, env);
    assert Verdict(item, env).1 == FinalUpdate(item, Remote(env), env);
    if GottenPoster(item, Known(env), env).Some? {
      GottenPosterIsLocal(item, Known(env), env);
    }
  }

  // ---- Passes that show the failures ----

  /** A pass on which a provider finds just this. */
  function Finding(found: Match): Environment {
    Environment(true, true, false, Keys(true, false), [Query(false, false, Found(found), false, Nothing)], false, [],
                None, Err("offline"), Err("no frames"), false, None, false, 0)
  }

  lemma FindingFinds(found: Match)
    requires found.title.Some?
    ensures Remote(Finding(found)) == Some(found) && Known(Finding(found)) == found
  {
    var (keys, queries) := (Keys(true, false), Finding(found).queries);
    assert queries[1..] == [];
    assert Matches(keys, queries[0]) == [found] && Reduce([found]) == found;
    assert !Stops(keys, queries[0]) && Titled(keys, queries[0]) == Some(found);
    assert ResolveFrom(keys, queries[1..], Some(found)) == Some(found);
  }

  /** An edit made after the item was loaded is overwritten in the row. */
  lemma AnEditIsOverwritten(store: Store, item: Item)
    requires item.overview.None? && item.filePath in store.rows
    requires store.rows[item.filePath] == item.(overview := Some("my own words"))
    ensures var found := NOTHING_KNOWN.(title := Some("a title"), overview := Some("theirs"));
            var after := store.Enriched(Pass(item, Finding(found))).rows[item.filePath];
            after.overview == Some("theirs") && !NothingReplaced(store.rows[item.filePath], after)
  {
    var found := NOTHING_KNOWN.(title := Some("a title"), overview := Some("theirs"));
    FindingFinds(found);
    NothingToTrim("theirs");
    NothingToTrim("my own words");
    assert |Lower("theirs")| != |"n/a"|;
    RowsAfterPass(store, Pass(item, Finding(found)));
  }

  lemma UpperIsOdd(host: string)
    requires host != "" && !IsWhite(host[|host| - 1])
    ensures Trim("HTTP://" + host) == "HTTP://" + host && IsAddress("HTTP://" + host) && !IsRemote("HTTP://" + host)
  {
    var address := "HTTP://" + host;
    NothingToTrim(address);
    assert forall i :: 0 <= i < 7 ==> Lower(address)[i] == LowerChar("HTTP://"[i]);
    assert Lower(address)[..7] == "http://" && address[..7][0] == 'H';
  }

  /** An address gets into the row: its scheme in upper case suffices. */
  lemma AnOddAddressIsWritten(store: Store, item: Item, host: string)
    requires item.poster.None? && item.filePath in store.rows && host != "" && !IsWhite(host[|host| - 1])
    ensures var address := "HTTP://" + host;
            var found := NOTHING_KNOWN.(title := Some("a title"), poster := Some(address));
            store.Enriched(Pass(item, Finding(found))).rows[item.filePath].poster == Some(address) && IsAddress(address)
  {
    var address := "HTTP://" + host;
    var found := NOTHING_KNOWN.(title := Some("a title"), poster := Some(address));
    FindingFinds(found);
    UpperIsOdd(host);
    AddressSaysSomething(address);
    RowsAfterPass(store, Pass(item, Finding(found)));
  }

  // ---- Outcomes ----

  /** A search that missed writes nothing; what is reported as filled in is what is written. */
  lemma MissesWriteNothing(item: Item, env: Environment)
    ensures var (outcome, written) := Verdict(item, env);
            && (!outcome.Enriched? ==> written == NO_UPDATE)
            && (outcome.Enriched? ==> outcome.fieldsUpdated == Populated(written) && (outcome.fromFrame ==> outcome.posterSaved))
            && (outcome.NoMatch? ==> Remote(env).None?)
  {
    if Remote(env).None? && !SavesPoster(item, NO_UPDATE, env) {
      EmptyUpdate(FinalUpdate(item, None, env));
    }
  }

  lemma ConclusionIsRetriedExactlyWhen(
    item: Item, known: bool, final: Update, saved: bool, fromFrame: bool, env: Environment)
    requires PosterMissing(item, final) <==> LocalPoster(Written(item, final)).None?
    ensures var (outcome, written) := Conclusion(item, known, final, saved, fromFrame, env);
            Attempts.NeedsRetry(Recorded(outcome))
            <==> outcome.NoMatch? || outcome.Failed? || LocalPoster(Written(item, written)).None?
  {
  }

  lemma RetriedAfterTheSearch(item: Item, env: Environment)
    requires SavesLocally(env)
    ensures var (outcome, written) := Ending(item, Remote(env), env);
            Attempts.NeedsRetry(Recorded(outcome))
            <==> outcome.NoMatch? || outcome.Failed? || LocalPoster(Written(item, written)).None?
  {
    PosterIsMissingExactlyWhen(item, env);
    var found := Remote(env);
    var start := StartingUpdate(item, found, env.newTitle);
    ConclusionIsRetriedExactlyWhen(item, found.Some?, FinalUpdate(item, found, env), SavesPoster(item, start, env),
                                   TakesFrame(item, start, env), env);
  }

  /**
    The attempt asks for a retry exactly when the search timed out, missed or could not be
    written, or when the row, as it was loaded, is left without a local poster.
  */
  lemma RetriedExactlyWhen(item: Item, env: Environment)
    requires SavesLocally(env)
    ensures var (outcome, written) := Verdict(item, env);
            Attempts.NeedsRetry(Recorded(outcome))
            <==> AsksProviders(item, env)
                 && (outcome.Timeout? || outcome.NoMatch? || outcome.Failed? || LocalPoster(Written(item, written)).None?)
  {
    if AsksProviders(item, env) && !env.timedOut {
      RetriedAfterTheSearch(item, env);
    }
  }

  // ---- Runs ----

  /** The last pass over a file's row that wrote it and got a poster. */
  function LastPoster(passes: seq<Pass>, path: string): Option<Pass> {
    if passes == [] then None
    else
      var last := passes[|passes| - 1];
      if last.item.filePath == path && WritesRow(last.item, last.env)
         && GottenPoster(last.item, Known(last.env), last.env).Some?
      then Some(last) else LastPoster(passes[..|passes| - 1], path)
  }

  /** Over any run a row stays, and its poster is the one that the last such pass got, or the one it had. */
  lemma {:induction false} PosterAfterRun(store: Store, passes: seq<Pass>, path: string)
    requires path in store.rows
    ensures path in store.EnrichedAll(passes).rows
    ensures store.EnrichedAll(passes).rows[path].poster ==
            match LastPoster(passes, path)
            case None => store.rows[path].poster
            case Some(last) => GottenPoster(last.item, Known(last.env), last.env)
  {
    if passes != [] {
      var before, last := passes[..|passes| - 1], passes[|passes| - 1];
      PosterAfterRun(store, before, path);
      RowsAfterPass(store.EnrichedAll(before), last);
    }
  }

  lemma {:induction false} LastPosterIsAPass(passes: seq<Pass>, path: string)
    ensures var last := LastPoster(passes, path);
            last.Some? ==>
              last.value in passes && GottenPoster(last.value.item, Known(last.value.env), last.value.env).Some?
  {
    if passes != [] {
      LastPosterIsAPass(passes[..|passes| - 1], path);
    }
  }

  /**
    Over any run of passes a row's poster ends up as a web address exactly when the last pass
    that got it a poster took one whose scheme is not in lower case, or no pass got it a
    poster and it was one before.
  */
  lemma {:induction false} AddressAfterRunExactlyWhen(store: Store, passes: seq<Pass>, path: string)
    requires path in store.rows && forall pass :: pass in passes ==> SavesOnDisk(pass.env)
    ensures path in store.EnrichedAll(passes).rows
    ensures HoldsAddress(store.EnrichedAll(passes).rows[path].poster) <==>
            match LastPoster(passes, path)
            case None => HoldsAddress(store.rows[path].poster)
            case Some(last) => Blank(last.item.poster) && OddAddress(Known(last.env))
  {
    PosterAfterRun(store, passes, path);
    LastPosterIsAPass(passes, path);
    var last := LastPoster(passes, path);
    if last.Some? {
      AddressIsGottenExactlyWhen(last.value.item, Known(last.value.env), last.value.env);
    }
  }

  /** No run brings an address with a lower-case scheme into a row. */
  lemma {:induction false} NoRunWritesARemotePoster(store: Store, passes: seq<Pass>, path: string)
    requires path in store.rows && forall pass :: pass in passes ==> SavesLocally(pass.env)
    ensures path in store.EnrichedAll(passes).rows
    ensures var poster := store.EnrichedAll(passes).rows[path].poster;
            poster == store.rows[path].poster || LocalPath(poster)
  {
    PosterAfterRun(store, passes, path);
    LastPosterIsAPass(passes, path);
    var last := LastPoster(passes, path);
    if last.Some? {
      GottenPosterIsLocal(last.value.item, Known(last.value.env), last.value.env);
    }
  }

  /** The last pass over an item whose attempt could be recorded. */
  function LastRecorded(passes: seq<Pass>, id: int): Option<Pass> {
    if passes == [] then None
    else
      var last := passes[|passes| - 1];
      if last.item.id == id && !last.env.recordFails then Some(last) else LastRecorded(passes[..|passes| - 1], id)
  }

  /**
    Over any run of passes, from any record: an item is pending exactly when the last pass
    over it whose attempt could be recorded ended in a retryable outcome; an item that no
    such pass went over is pending just if it was before.
  */
  lemma {:induction false} PendingAfterRunExactlyWhen(store: Store, passes: seq<Pass>, id: int)
    ensures Attempts.Pending(store.EnrichedAll(passes).attempts, id)
            <==> match LastRecorded(passes, id)
                 case None => Attempts.Pending(store.attempts, id)
                 case Some(last) => Attempts.NeedsRetry(Recorded(Verdict(last.item, last.env).0))
  {
    if passes != [] {
      PendingAfterRunExactlyWhen(store, passes[..|passes| - 1], id);
    }
  }

  /** The attempts that a run records. */
  function RecordedCalls(passes: seq<Pass>): seq<Attempts.Call> {
    if passes == [] then []
    else
      var before, last := RecordedCalls(passes[..|passes| - 1]), passes[|passes| - 1];
      if last.env.recordFails then before
      else before + [AttemptOf(last.item, Verdict(last.item, last.env).0, last.env.now)]
  }

  /** The record after a run is that of its attempts: every pass records one, unless that fails. */
  lemma {:induction false} RunRecordsItsAttempts(rows: Rows, passes: seq<Pass>)
    ensures Store(rows, map[]).EnrichedAll(passes).attempts == Attempts.RecordAll(RecordedCalls(passes))
  {
    if passes != [] {
      var before := passes[..|passes| - 1];
      RunRecordsItsAttempts(rows, before);
      var calls := RecordedCalls(passes);
      assert !passes[|passes| - 1].env.recordFails ==> calls[..|calls| - 1] == RecordedCalls(before);
    }
  }

  /** The fields written by a run, one pass after the other. */
  function FieldsWritten(passes: seq<Pass>): nat {
    if passes == [] then 0
    else FieldsWritten(passes[..|passes| - 1]) + Populated(Verdict(passes[|passes| - 1].item, passes[|passes| - 1].env).1)
  }

  lemma TallyAddsTheFieldsWritten(report: Report, item: Item, env: Environment)
    ensures Tallied(report, Verdict(item, env).0).fields == report.fields + Populated(Verdict(item, env).1)
  {
    MissesWriteNothing(item, env);
    assert Populated(NO_UPDATE) == 0;
    var outcome := Verdict(item, env).0;
    assert Tallied(report, outcome).fields == report.fields + if outcome.Enriched? then outcome.fieldsUpdated else 0;
  }

  /** A gather reports as many fields as its passes write. */
  lemma {:induction false} ReportCountsTheFieldsWritten(passes: seq<Pass>)
    ensures ReportOn(passes).fields == FieldsWritten(passes)
  {
    if passes != [] {
      var before, last := passes[..|passes| - 1], passes[|passes| - 1];
      ReportCountsTheFieldsWritten(before);
      TallyAddsTheFieldsWritten(ReportOn(before), last.item, last.env);
    }
  }
}
