/**
  What an enrichment pass and a gather report, said of what was there and what was found
  (src-tauri/src/enrichment.rs, `enrich_adult_item` and `gather_adult_metadata`).
*/
module AdultReports {
  import opened Wrappers
  import opened Texts
  import opened Sorting
  import opened ProviderMatches
  import opened AdultItem
  import opened AdultRuns
  import Attempts = AdultAttempts

  // ---- What the providers find ----

  /**
    Unless a stop is seen, and with the further providers configured, something is found
    exactly when some query has a titled answer from a keyed provider, or any answer from a
    further one.
  */
  lemma ProvidersFindWhatThereIs(env: Environment)
    requires forall j :: 0 <= j < |env.queries| ==> !Stops(env.keys, env.queries[j])
    requires env.further && forall j :: 0 <= j < |env.extra| ==> !env.extra[j].stop
    ensures Remote(env).Some? <==>
              || (exists j :: 0 <= j < |env.queries| && Titled(env.keys, env.queries[j]).Some?)
              || (exists j :: 0 <= j < |env.extra| && env.extra[j].answer.ExtraFound?)
  {
    SearchFindsWhatThereIs(env.keys, env.queries);
    var keyed := ResolveFrom(env.keys, env.queries, None);
    if keyed.Some? {
      FurtherProvidersOnlyFillIn(keyed.value, env.further, env.extra);
    } else {
      ChainFindsWhatThereIs(env.extra);
    }
  }

  // ---- Skipping ----

  /** A text that says something: neither blank nor "n/a", in whatever case. */
  lemma SaysNothingExactlyWhen(text: string)
    ensures SaysNothing(text) <==> !HasInk(text) || SpellsWord(Trim(text), "n/a", "N/A")
  {
    TrimsAwayExactlyWhen(text);
    LowerSpells(Trim(text), "n/a", "N/A");
  }

  /**
    Exactly when an item is skipped as complete: it has an overview other than "n/a", a
    poster that is no web address, and a year or a genre.
  */
  lemma CompleteExactlyWhen(item: Item)
    ensures MetadataComplete(item) <==>
              && item.overview.Some? && HasInk(item.overview.value) && !SpellsWord(item.overview.value, "n/a", "N/A")
              && item.poster.Some? && HasInk(item.poster.value)
              && !("http://" <= Trim(item.poster.value)) && !("https://" <= Trim(item.poster.value))
              && (item.year.Some? || (item.genre.Some? && HasInk(item.genre.value)))
  {
    if item.overview.Some? {
      TrimsAwayExactlyWhen(item.overview.value);
      LowerSpells(item.overview.value, "n/a", "N/A");
    }
    if item.poster.Some? {
      TrimsAwayExactlyWhen(item.poster.value);
    }
    if item.genre.Some? {
      TrimsAwayExactlyWhen(item.genre.value);
    }
  }

  // ---- The outcome ----

  /** The pass ends without a match: nothing was found and no poster was gotten. */
  predicate Misses(item: Item, env: Environment) {
    Remote(env).None? && GottenPoster(item, NOTHING_KNOWN, env).None?
  }

  /** The pass has something to write. */
  predicate HasUpdate(item: Item, env: Environment) {
    Populated(FinalUpdate(item, Remote(env), env)) > 0
  }

  lemma MissIsEmpty(item: Item, env: Environment)
    requires Remote(env).None?
    ensures SavesPoster(item, NO_UPDATE, env) <==> GottenPoster(item, NOTHING_KNOWN, env).Some?
    ensures HasUpdate(item, env) <==> GottenPoster(item, NOTHING_KNOWN, env).Some?
  {
    FinalPosterIs(item, env);
    assert Known(env) == NOTHING_KNOWN;
  }

  /** How a pass that asks the providers in time ends. */
  lemma EndsExactlyAs(item: Item, env: Environment)
    requires AsksProviders(item, env) && !env.timedOut
    ensures var outcome := Verdict(item, env).0;
            && (outcome.Failed? <==> env.rowFails.Some? && HasUpdate(item, env))
            && (outcome.NoMatch? <==> Misses(item, env))
            && (outcome.Failed? || outcome.NoMatch? || outcome.Enriched?)
  {
    if Remote(env).None? {
      MissIsEmpty(item, env);
    }
  }

  /** The attempt under which a pass is recorded, told by what was there and what was found. */
  lemma RecordedExactlyAs(store: Store, pass: Pass)
    requires !pass.env.recordFails
    ensures var (item, env) := (pass.item, pass.env);
            var asks := env.isVideo && env.fileExists && !MetadataComplete(item);
            && item.id in store.Enriched(pass).attempts
            && var attempt := store.Enriched(pass).attempts[item.id];
               attempt.filePath == item.filePath && attempt.lastAttemptAt == env.now
               && (attempt.outcome == Attempts.SkippedNonVideo <==> !env.isVideo)
               && (attempt.outcome == Attempts.SkippedMissing <==> env.isVideo && !env.fileExists)
               && (attempt.outcome == Attempts.SkippedComplete <==> env.isVideo && env.fileExists && MetadataComplete(item))
               && (attempt.outcome == Attempts.Timeout <==> asks && env.timedOut)
               && (attempt.outcome == Attempts.Failed <==>
                     asks && !env.timedOut && env.rowFails.Some? && HasUpdate(item, env))
               && (attempt.outcome == Attempts.NoMatch <==> asks && !env.timedOut && Misses(item, env))
               && attempt.lastError == (if attempt.outcome == Attempts.Failed then env.rowFails else None)
  {
    var (item, env) := (pass.item, pass.env);
    if AsksProviders(item, env) && !env.timedOut {
      EndsExactlyAs(item, env);
    }
  }

  // ---- The report ----

  /** The poster of the pass is a chapter frame. */
  predicate UsesFrame(item: Item, env: Environment) {
    Blank(FetchedPoster(item, Known(env), env)) && LocalPoster(item).None? && env.frame.Ok? && env.frame.value.Some?
  }

  /** The pass downloads a poster: the offered one, or else the one that the item points to. */
  predicate Fetches(item: Item, env: Environment) {
    env.download.Ok?
    && if OffersPoster(item, Known(env)) then IsRemote(Trim(Known(env).poster.value))
       else item.poster.Some? && IsRemote(item.poster.value)
  }

  lemma PosterStepsAre(item: Item, env: Environment)
    ensures var start := StartingUpdate(item, Remote(env), env.newTitle);
            && (TakesFrame(item, start, env) <==> UsesFrame(item, env))
            && (Downloads(item, start, env) <==> Fetches(item, env))
  {
    var start := StartingUpdate(item, Remote(env), env.newTitle);
    assert start.poster == if OffersPoster(item, Known(env)) then Some(Trim(Known(env).poster.value)) else None;
  }

  function Bit(b: bool): nat {
    if b then 1 else 0
  }

  predicate CountsAsSkipped(pass: Pass) {
    pass.env.isVideo && pass.env.fileExists && MetadataComplete(pass.item)
  }

  predicate CountsAsEnriched(pass: Pass) {
    WritesRow(pass.item, pass.env) && HasUpdate(pass.item, pass.env)
  }

  predicate CountsAsFrame(pass: Pass) {
    WritesRow(pass.item, pass.env) && UsesFrame(pass.item, pass.env)
  }

  predicate CountsAsPoster(pass: Pass) {
    WritesRow(pass.item, pass.env) && Fetches(pass.item, pass.env) && !UsesFrame(pass.item, pass.env)
  }

  predicate CountsAsSidecar(pass: Pass) {
    WritesRow(pass.item, pass.env) && HasUpdate(pass.item, pass.env) && !pass.env.sidecarFails
  }

  /** A pass that saves a poster has something to write. */
  lemma SavingIsAnUpdate(item: Item, env: Environment)
    requires UsesFrame(item, env) || Fetches(item, env)
    ensures HasUpdate(item, env)
  {
    FinalPosterIs(item, env);
  }

  lemma EndingReports(item: Item, env: Environment)
    requires AsksProviders(item, env) && !env.timedOut
    ensures var outcome, pass := Verdict(item, env).0, Pass(item, env);
            if outcome.Enriched? then
              && (outcome.fieldsUpdated > 0 <==> HasUpdate(item, env))
              && (outcome.fromFrame <==> UsesFrame(item, env))
              && (outcome.posterSaved <==> UsesFrame(item, env) || Fetches(item, env))
              && (outcome.sidecarWritten <==> HasUpdate(item, env) && !env.sidecarFails)
              && (env.rowFails.Some? ==> !HasUpdate(item, env))
            else
              !WritesRow(item, env) || (!HasUpdate(item, env) && !UsesFrame(item, env) && !Fetches(item, env))
  {
    PosterStepsAre(item, env);
    EndsExactlyAs(item, env);
    if Remote(env).None? {
      MissIsEmpty(item, env);
    }
    if UsesFrame(item, env) || Fetches(item, env) {
      SavingIsAnUpdate(item, env);
    }
  }

  lemma TallyCounts(report: Report, pass: Pass)
    ensures var after := Tallied(report, Verdict(pass.item, pass.env).0);
            && after.skipped == report.skipped + Bit(CountsAsSkipped(pass))
            && after.enriched == report.enriched + Bit(CountsAsEnriched(pass))
            && after.frames == report.frames + Bit(CountsAsFrame(pass))
            && after.posters == report.posters + Bit(CountsAsPoster(pass))
            && after.sidecars == report.sidecars + Bit(CountsAsSidecar(pass))
  {
    var (item, env) := (pass.item, pass.env);
    if AsksProviders(item, env) && !env.timedOut {
      EndingReports(item, env);
      if UsesFrame(item, env) || Fetches(item, env) {
        SavingIsAnUpdate(item, env);
      }
    }
  }

  function Count(passes: seq<Pass>, counts: Pass -> bool): nat {
    |Filter(passes, counts)|
  }

  lemma CountOfOneMore(passes: seq<Pass>, counts: Pass -> bool)
    requires passes != []
    ensures var n := |passes| - 1; Count(passes, counts) == Count(passes[..n], counts) + Bit(counts(passes[n]))
  {
    var n := |passes| - 1;
    assert passes == passes[..n] + [passes[n]];
    FilterSplits(passes[..n], [passes[n]], counts);
  }

  /**
    A gather reports how many of its passes skipped a complete item, filled in a field, got
    their poster from a frame or by download, and wrote a sidecar.
  */
  lemma {:induction false} ReportCountsThePasses(passes: seq<Pass>)
    ensures var report := ReportOn(passes);
            && report.skipped == Count(passes, CountsAsSkipped)
            && report.enriched == Count(passes, CountsAsEnriched)
            && report.frames == Count(passes, CountsAsFrame)
            && report.posters == Count(passes, CountsAsPoster)
            && report.sidecars == Count(passes, CountsAsSidecar)
  {
    if passes != [] {
      var before, last := passes[..|passes| - 1], passes[|passes| - 1];
      ReportCountsThePasses(before);
      TallyCounts(ReportOn(before), last);
      CountOfOneMore(passes, CountsAsSkipped);
      CountOfOneMore(passes, CountsAsEnriched);
      CountOfOneMore(passes, CountsAsFrame);
      CountOfOneMore(passes, CountsAsPoster);
      CountOfOneMore(passes, CountsAsSidecar);
    }
  }
}
