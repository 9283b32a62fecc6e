/**
  Enriching one adult item (src-tauri/src/enrichment.rs, `build_metadata_update` and
  `enrich_adult_item`): build the update, get a local poster, write sidecar and row,
  record the attempt.

  What the outside world answers is an `Environment`: the providers' match or a time-out,
  the poster download, the chapter frame, and whether each write succeeds.
*/
module AdultItem {
  import opened Wrappers
  import opened Texts
  import opened ProviderMatches
  import Attempts = AdultAttempts

  datatype Item = Item(
    id: int,
    filePath: string,
    mediaType: string,
    title: string,
    overview: Option<string>,
    poster: Option<string>,
    year: Option<int>,
    rating: Option<real>,
    genre: Option<string>,
    tmdbId: Option<string>,
    imdbId: Option<string>)

  datatype Update = Update(
    title: Option<string>,
    overview: Option<string>,
    poster: Option<string>,
    year: Option<int>,
    rating: Option<real>,
    genre: Option<string>,
    tmdbId: Option<string>,
    imdbId: Option<string>,
    mediaType: Option<string>,
    changedFields: nat)

  const NO_UPDATE := Update(None, None, None, None, None, None, None, None, None, 0)

  predicate StartsWith(s: string, prefix: string) {
    |prefix| <= |s| && s[..|prefix|] == prefix
  }

  predicate IsRemote(path: string) {
    StartsWith(path, "http://") || StartsWith(path, "https://")
  }

  predicate SaysNothing(text: string) {
    Trim(text) == "" || Lower(Trim(text)) == "n/a"
  }

  function NonEmpty(text: Option<string>): Option<string> {
    if text.Some? && !SaysNothing(text.value) then Some(Trim(text.value)) else None
  }

  /** A text field is filled only where the item has none. */
  function FillText(current: Option<string>, incoming: Option<string>): Option<string> {
    if Blank(current) && incoming.Some? && !SaysNothing(incoming.value) then NonEmpty(incoming) else None
  }

  lemma FilledIsTrimmed(current: Option<string>, incoming: Option<string>)
    ensures var filled := FillText(current, incoming);
            filled.Some? ==> Trim(filled.value) == filled.value != ""
  {
    if incoming.Some? {
      TrimIsSlice(incoming.value, ' ');
    }
  }

  function One<T>(field: Option<T>): nat {
    if field.Some? then 1 else 0
  }

  function SaturatingSub(a: nat, b: nat): nat {
    if a < b then 0 else a - b
  }

  /** The number of fields that an update would write. */
  function Populated(u: Update): nat {
    One(u.title) + One(u.overview) + One(u.poster) + One(u.year) + One(u.rating) + One(u.genre)
    + One(u.tmdbId) + One(u.imdbId) + One(u.mediaType)
  }

  /** The update with its field count made right. */
  function Counted(u: Update): Update {
    u.(changedFields := Populated(u))
  }

  /** `newTitle` is the provider's title cleaned for display, if it should replace the item's. */
  function Built(item: Item, provider: Match, newTitle: Option<string>): Update {
    Counted(Update(
      newTitle,
      FillText(item.overview, provider.overview),
      FillText(item.poster, provider.poster),
      if item.year.None? then provider.year else None,
      if item.rating.None? then provider.rating else None,
      FillText(item.genre, provider.genre),
      FillText(item.tmdbId, provider.tmdbId),
      FillText(item.imdbId, provider.imdbId),
      if Lower(item.mediaType) != "adult" then Some("adult") else None,
      0))
  }

  method BuildMetadataUpdate(item: Item, provider: Match, newTitle: Option<string>) returns (u: Update)
    ensures u == Built(item, provider, newTitle)
  {
    var changed := 0;
    var title: Option<string> := None;
    if newTitle.Some? {
      title := newTitle;
      changed := changed + 1;
    }
    var overview := FillText(item.overview, provider.overview);
    changed := changed + One(overview);
    var poster := FillText(item.poster, provider.poster);
    changed := changed + One(poster);
    var year: Option<int> := None;
    if item.year.None? && provider.year.Some? {
      year := provider.year;
      changed := changed + 1;
    }
    var rating: Option<real> := None;
    if item.rating.None? && provider.rating.Some? {
      rating := provider.rating;
      changed := changed + 1;
    }
    var genre := FillText(item.genre, provider.genre);
    changed := changed + One(genre);
    var tmdbId := FillText(item.tmdbId, provider.tmdbId);
    changed := changed + One(tmdbId);
    var imdbId := FillText(item.imdbId, provider.imdbId);
    changed := changed + One(imdbId);
    var mediaType: Option<string> := None;
    if Lower(item.mediaType) != "adult" {
      mediaType := Some("adult");
      changed := changed + 1;
    }
    u := Update(title, overview, poster, year, rating, genre, tmdbId, imdbId, mediaType, changed);
  }

  // ---- The item's own poster ----

  predicate IsLocal(path: string) {
    Trim(path) != "" && !IsRemote(Trim(path))
  }

  function LocalPoster(item: Item): Option<string> {
    if item.poster.Some? && IsLocal(item.poster.value) then item.poster else None
  }

  /** An address stays one when it is trimmed; so what counts as local is not an address. */
  lemma LocalIsNotRemote(path: string)
    ensures IsLocal(path) ==> !IsRemote(path)
  {
    if IsRemote(path) {
      assert TrimStart(path) == path;
      var n := if StartsWith(path, "http://") then 7 else 8;
      assert path[..n][n - 1] == '/' == path[n - 1];
      TrimEndKeepsInk(path, n);
    }
  }

  /** The skip rule: an overview, a local poster, and a year or a genre. */
  predicate MetadataComplete(item: Item) {
    && item.overview.Some? && Trim(item.overview.value) != "" && Lower(item.overview.value) != "n/a"
    && LocalPoster(item).Some?
    && (item.year.Some? || (item.genre.Some? && Trim(item.genre.value) != ""))
  }

  // ---- The pipeline ----

  /** `keys`, `queries`, `further` and `extra` are what the providers would answer, in order. */
  datatype Environment = Environment(
    isVideo: bool,
    fileExists: bool,
    timedOut: bool,
    keys: Keys,
    queries: seq<Query>,
    further: bool,
    extra: seq<ExtraQuery>,
    newTitle: Option<string>,
    download: Result<string, string>,
    frame: Result<Option<string>, string>,
    sidecarFails: bool,
    rowFails: Option<string>,
    recordFails: bool,
    now: int)

  datatype Outcome =
    | SkippedNonVideo
    | SkippedMissingFile
    | SkippedComplete
    | NoMatch
    | Timeout
    | Failed(message: string)
    | Enriched(fieldsUpdated: nat, posterSaved: bool, fromFrame: bool, posterMissing: bool, sidecarWritten: bool)

  /** The row as the database leaves it: a field that the update lacks is kept. */
  function Written(item: Item, u: Update): Item {
    item.(title := if u.title.Some? then u.title.value else item.title,
          overview := FirstValue(u.overview, item.overview),
          poster := FirstValue(u.poster, item.poster),
          year := FirstValue(u.year, item.year),
          rating := FirstValue(u.rating, item.rating),
          genre := FirstValue(u.genre, item.genre),
          tmdbId := FirstValue(u.tmdbId, item.tmdbId),
          imdbId := FirstValue(u.imdbId, item.imdbId),
          mediaType := if u.mediaType.Some? then u.mediaType.value else item.mediaType)
  }

  /** The outcome under which an attempt is recorded. */
  function Recorded(outcome: Outcome): Attempts.Outcome {
    match outcome
    case SkippedNonVideo => Attempts.SkippedNonVideo
    case SkippedMissingFile => Attempts.SkippedMissing
    case SkippedComplete => Attempts.SkippedComplete
    case NoMatch => Attempts.NoMatch
    case Timeout => Attempts.Timeout
    case Failed(_) => Attempts.Failed
    case Enriched(_, _, _, posterMissing, _) =>
      if posterMissing then Attempts.EnrichedPosterMissing else Attempts.Enriched
  }

  function ErrorOf(outcome: Outcome): Option<string> {
    if outcome.Failed? then Some(outcome.message) else None
  }

  function AttemptOf(item: Item, outcome: Outcome, now: int): Attempts.Call {
    Attempts.Call(item.id, item.filePath, now, Recorded(outcome), ErrorOf(outcome))
  }

  /** What the two provider phases find. */
  function Remote(env: Environment): Option<Match> {
    Extended(ResolveFrom(env.keys, env.queries, None), env.further, env.extra)
  }

  function StartingUpdate(item: Item, found: Option<Match>, newTitle: Option<string>): Update {
    if found.Some? then Built(item, found.value, newTitle) else NO_UPDATE
  }

  /** The remote poster to fetch: the update's, else the one the row still points at. */
  function Candidate(item: Item, u: Update): Option<string> {
    if u.poster.Some? then u.poster
    else if item.poster.Some? && IsRemote(item.poster.value) then item.poster
    else None
  }

  predicate Downloads(item: Item, u: Update, env: Environment) {
    Candidate(item, u).Some? && IsRemote(Candidate(item, u).value) && env.download.Ok?
  }

  /** The update's poster once the download has been tried; a remote one does not survive a failure. */
  function AfterDownload(item: Item, u: Update, env: Environment): Option<string> {
    if Downloads(item, u, env) then Some(env.download.value)
    else if u.poster.Some? && IsRemote(u.poster.value) then None
    else u.poster
  }

  predicate TakesFrame(item: Item, u: Update, env: Environment) {
    Blank(AfterDownload(item, u, env)) && LocalPoster(item).None? && env.frame.Ok? && env.frame.value.Some?
  }

  /** A poster is saved, by download or from a chapter frame. */
  predicate SavesPoster(item: Item, u: Update, env: Environment) {
    Downloads(item, u, env) || TakesFrame(item, u, env)
  }

  function WithPoster(item: Item, u: Update, env: Environment): Update {
    Counted(u.(poster := if TakesFrame(item, u, env) then env.frame.value else AfterDownload(item, u, env)))
  }

  /** The update that is written. */
  function FinalUpdate(item: Item, found: Option<Match>, env: Environment): Update {
    WithPoster(item, StartingUpdate(item, found, env.newTitle), env)
  }

  predicate PosterMissing(item: Item, u: Update) {
    u.poster.None? && LocalPoster(item).None?
  }

  /** How an item ends and what is written, given its final update and how its poster was got. */
  function Conclusion(item: Item, known: bool, final: Update, saved: bool, fromFrame: bool, env: Environment)
    : (Outcome, Update)
  {
    if final.changedFields > 0 && env.rowFails.Some? then
      (Outcome.Failed(env.rowFails.value), NO_UPDATE)
    else if !known && !saved then
      (NoMatch, final)
    else
      (Enriched(final.changedFields, saved, fromFrame, PosterMissing(item, final),
                (final.changedFields > 0 || final.poster.Some?) && !env.sidecarFails),
       final)
  }

  /** How an item ends that the providers have answered for, and what is written to its row. */
  function Ending(item: Item, found: Option<Match>, env: Environment): (Outcome, Update) {
    var start := StartingUpdate(item, found, env.newTitle);
    Conclusion(item, found.Some?, WithPoster(item, start, env), SavesPoster(item, start, env),
               TakesFrame(item, start, env), env)
  }

  predicate AsksProviders(item: Item, env: Environment) {
    env.isVideo && env.fileExists && !MetadataComplete(item)
  }

  /** The whole pipeline, for an item as it was loaded. */
  function Verdict(item: Item, env: Environment): (Outcome, Update) {
    if !env.isVideo then (SkippedNonVideo, NO_UPDATE)
    else if !env.fileExists then (SkippedMissingFile, NO_UPDATE)
    else if MetadataComplete(item) then (SkippedComplete, NO_UPDATE)
    else if env.timedOut then (Timeout, NO_UPDATE)
    else Ending(item, Remote(env), env)
  }

  type Rows = map<string, Item>

  /** The row of a file after the update; the row may have changed, or gone, since the item was loaded. */
  function RowWritten(rows: Rows, path: string, u: Update): Rows {
    if path in rows then rows[path := Written(rows[path], u)] else rows
  }

  /** An item as it was loaded, and what happens while it is enriched. */
  datatype Pass = Pass(item: Item, env: Environment)

  /** The library's rows, by file path, and the attempt record. */
  datatype Store = Store(rows: Rows, attempts: Attempts.Table) {
    function Enriched(pass: Pass): Store {
      var (outcome, written) := Verdict(pass.item, pass.env);
      Store(RowWritten(rows, pass.item.filePath, written),
            if pass.env.recordFails then attempts
            else Attempts.Recorded(attempts, AttemptOf(pass.item, outcome, pass.env.now)))
    }

    function EnrichedAll(passes: seq<Pass>): Store {
      if passes == [] then this else EnrichedAll(passes[..|passes| - 1]).Enriched(passes[|passes| - 1])
    }
  }

  /** What a gather reports of the items it went through. */
  datatype Report = Report(enriched: nat, fields: nat, posters: nat, frames: nat, skipped: nat, sidecars: nat)

  function Tallied(report: Report, outcome: Outcome): Report {
    match outcome
    case SkippedComplete => report.(skipped := report.skipped + 1)
    case Enriched(fieldsUpdated, posterSaved, fromFrame, _, sidecarWritten) =>
      report.(enriched := report.enriched + (if fieldsUpdated > 0 then 1 else 0),
              fields := report.fields + fieldsUpdated,
              frames := report.frames + (if posterSaved && fromFrame then 1 else 0),
              posters := report.posters + (if posterSaved && !fromFrame then 1 else 0),
              sidecars := report.sidecars + (if sidecarWritten then 1 else 0))
    case _ => report
  }

  function ReportOn(passes: seq<Pass>): Report {
    if passes == [] then Report(0, 0, 0, 0, 0, 0)
    else Tallied(ReportOn(passes[..|passes| - 1]), Verdict(passes[|passes| - 1].item, passes[|passes| - 1].env).0)
  }

  /** The state and the report after the first `n` passes. */
  ghost predicate WentThrough(before: Store, passes: seq<Pass>, n: nat, now: Store, report: Report) {
    n <= |passes| && now == before.EnrichedAll(passes[..n]) && report == ReportOn(passes[..n])
  }

  class AdultLibrary {
    var rows: Rows
    const log: Attempts.AttemptLog

    constructor (rows: Rows, log: Attempts.AttemptLog)
      ensures this.rows == rows && this.log == log
    {
      this.rows, this.log := rows, log;
    }

    ghost function State(): Store
      reads this, log
    {
      Store(rows, log.table)
    }

    /** The poster steps: download a remote candidate, and fall back to a chapter frame. */
    method GetPoster(item: Item, start: Update, env: Environment)
      returns (u: Update, posterSaved: bool, fromFrame: bool)
      requires start == Counted(start)
      ensures u == WithPoster(item, start, env)
      ensures posterSaved <==> SavesPoster(item, start, env)
      ensures fromFrame <==> TakesFrame(item, start, env)
    {
      u, posterSaved, fromFrame := start, false, false;
      var candidate := u.poster;
      if candidate.None? && item.poster.Some? && IsRemote(item.poster.value) {
        candidate := item.poster;
      }
      if candidate.Some? && IsRemote(candidate.value) {
        match env.download {
          case Ok(local) =>
            if u.poster.None? {
              u := u.(changedFields := u.changedFields + 1);
            }
            u := u.(poster := Some(local));
            posterSaved := true;
          case Err(_) =>
            if u.poster.Some? && IsRemote(u.poster.value) {
              u := u.(poster := None, changedFields := SaturatingSub(u.changedFields, 1));
            }
        }
      }
      if Blank(u.poster) && LocalPoster(item).None? {
        match env.frame {
          case Ok(found) =>
            if found.Some? {
              if u.poster.None? {
                u := u.(changedFields := u.changedFields + 1);
              }
              u := u.(poster := found);
              posterSaved, fromFrame := true, true;
            }
          case Err(_) =>
        }
      }
    }

    method Record(item: Item, outcome: Outcome, env: Environment)
      modifies log
      ensures log.table == if env.recordFails then old(log.table)
                           else Attempts.Recorded(old(log.table), AttemptOf(item, outcome, env.now))
    {
      if !env.recordFails {
        log.RecordAttempt(item.id, item.filePath, env.now, Recorded(outcome), ErrorOf(outcome));
      }
    }

    method UpdateRow(path: string, u: Update)
      modifies this`rows
      ensures rows == RowWritten(old(rows), path, u)
    {
      if path in rows {
        rows := rows[path := Written(rows[path], u)];
      }
    }

    /** Sidecar, row and attempt record, once the update is final. */
    method Conclude(item: Item, known: bool, u: Update, posterSaved: bool, fromFrame: bool, env: Environment)
      returns (outcome: Outcome)
      requires u == Counted(u)
      modifies this`rows, log
      ensures var (ended, written) := Conclusion(item, known, u, posterSaved, fromFrame, env);
              && outcome == ended && rows == RowWritten(old(rows), item.filePath, written)
              && log.table == if env.recordFails then old(log.table)
                              else Attempts.Recorded(old(log.table), AttemptOf(item, outcome, env.now))
    {
      NothingWritten(rows, item.filePath);
      var posterMissing := u.poster.None? && LocalPoster(item).None?;
      var sidecarWritten := (u.changedFields > 0 || u.poster.Some?) && !env.sidecarFails;
      if u.changedFields > 0 {
        if env.rowFails.Some? {
          outcome := Outcome.Failed(env.rowFails.value);
          Record(item, outcome, env);
          return;
        }
        UpdateRow(item.filePath, u);
      } else {
        EmptyUpdate(u);
      }
      if !known && !posterSaved {
        outcome := NoMatch;
      } else {
        outcome := Enriched(u.changedFields, posterSaved, fromFrame, posterMissing, sidecarWritten);
      }
      Record(item, outcome, env);
    }

    /** From the resolved match on: build the update, get a poster, write, and record. */
    method EnrichResolved(item: Item, found: Option<Match>, env: Environment) returns (outcome: Outcome)
      modifies this`rows, log
      ensures var (ended, written) := Ending(item, found, env);
              && outcome == ended && rows == RowWritten(old(rows), item.filePath, written)
              && log.table == if env.recordFails then old(log.table)
                              else Attempts.Recorded(old(log.table), AttemptOf(item, outcome, env.now))
    {
      var u := NO_UPDATE;
      if found.Some? {
        u := BuildMetadataUpdate(item, found.value, env.newTitle);
      }
      var posterSaved, fromFrame;
      u, posterSaved, fromFrame := GetPoster(item, u, env);
      outcome := Conclude(item, found.Some?, u, posterSaved, fromFrame, env);
    }

    /**
      Every call records one attempt, under the outcome it returns, and writes at most the
      row of the item's file, whatever that row has become since the item was loaded.
    */
    method EnrichAdultItem(item: Item, env: Environment) returns (outcome: Outcome)
      modifies this`rows, log
      ensures State() == old(State()).Enriched(Pass(item, env)) && outcome == Verdict(item, env).0
      ensures outcome.SkippedNonVideo? <==> !env.isVideo
      ensures outcome.SkippedMissingFile? <==> env.isVideo && !env.fileExists
      ensures outcome.SkippedComplete? <==> env.isVideo && env.fileExists && MetadataComplete(item)
      ensures outcome.Timeout? <==> AsksProviders(item, env) && env.timedOut
    {
      NothingWritten(rows, item.filePath);
      if !env.isVideo {
        outcome := SkippedNonVideo;
      } else if !env.fileExists {
        outcome := SkippedMissingFile;
      } else if MetadataComplete(item) {
        outcome := SkippedComplete;
      } else if env.timedOut {
        outcome := Timeout;
      } else {
        var found := ResolveProviderMatch(env.keys, env.queries);
        found := AskFurtherProviders(found, env.further, env.extra);
        outcome := EnrichResolved(item, found, env);
        return;
      }
      Record(item, outcome, env);
    }

    method EnrichNext(pass: Pass, report: Report) returns (tally: Report)
      modifies this`rows, log
      ensures State() == old(State()).Enriched(pass) && tally == Tallied(report, Verdict(pass.item, pass.env).0)
    {
      var outcome := EnrichAdultItem(pass.item, pass.env);
      tally := Tallied(report, outcome);
    }

    /** Works through items that were all loaded beforehand, until a stop is seen. */
    method GatherAdultMetadata(passes: seq<Pass>, stopSeen: seq<bool>) returns (report: Report, ghost done: nat)
      requires |stopSeen| == |passes|
      modifies this`rows, log
      ensures done <= |passes| && (done < |passes| ==> stopSeen[done]) && forall k :: 0 <= k < done ==> !stopSeen[k]
      ensures WentThrough(old(State()), passes, done, State(), report)
    {
      report := Report(0, 0, 0, 0, 0, 0);
      var i := 0;
      while i < |passes| && !stopSeen[i]
        invariant i <= |passes| && forall k :: 0 <= k < i ==> !stopSeen[k]
        invariant WentThrough(old(State()), passes, i, State(), report)
      {
        OnePassMore(old(State()), passes, i, State(), report);
        report := EnrichNext(passes[i], report);
        i := i + 1;
      }
      done := i;
    }

    /** The items to retry, out of the same record. */
    method ItemsToRetry() returns (ids: seq<int>)
      ensures forall id :: id in ids <==> Attempts.Pending(State().attempts, id)
      ensures Attempts.InRetryOrder(State().attempts, ids)
    {
      ids := log.PendingItemIds();
    }
  }

  lemma OnePassMore(before: Store, passes: seq<Pass>, n: nat, now: Store, report: Report)
    requires n < |passes| && WentThrough(before, passes, n, now, report)
    ensures WentThrough(before, passes, n + 1, now.Enriched(passes[n]),
                        Tallied(report, Verdict(passes[n].item, passes[n].env).0))
  {
    assert passes[..n + 1][..n] == passes[..n];
  }

  lemma NothingWritten(rows: Rows, path: string)
    ensures RowWritten(rows, path, NO_UPDATE) == rows
  {
    if path in rows {
      assert Written(rows[path], NO_UPDATE) == rows[path];
    }
  }

  lemma EmptyUpdate(u: Update)
    requires u == Counted(u) && u.changedFields == 0
    ensures u == NO_UPDATE
  {
  }
}
