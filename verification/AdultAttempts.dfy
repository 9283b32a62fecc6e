/**
  The durable record of enrichment attempts (src-tauri/src/adult_attempts.rs): one row
  for each item, holding its last outcome and how often it was tried.

  Time stamps are carried as numbers; the source writes them so that their text order is
  their time order.
*/
module AdultAttempts {
  import opened Wrappers

  datatype Outcome =
    | Enriched
    | EnrichedPosterMissing
    | SkippedComplete
    | SkippedMissing
    | SkippedNonVideo
    | NoMatch
    | Timeout
    | Failed

  predicate NeedsRetry(outcome: Outcome) {
    outcome.NoMatch? || outcome.Failed? || outcome.Timeout? || outcome.EnrichedPosterMissing?
  }

  datatype Attempt = Attempt(
    filePath: string, lastAttemptAt: int, outcome: Outcome, attempts: nat, lastError: Option<string>, needsRetry: bool)

  type Table = map<int, Attempt>

  datatype Call = Call(id: int, filePath: string, at: int, outcome: Outcome, error: Option<string>)

  /** The item is to be retried. */
  predicate Pending(table: Table, id: int) {
    id in table && table[id].needsRetry
  }

  function Recorded(table: Table, call: Call): Table {
    table[call.id := Attempt(call.filePath, call.at, call.outcome,
                             if call.id in table then table[call.id].attempts + 1 else 1,
                             call.error, NeedsRetry(call.outcome))]
  }

  function RecordAll(calls: seq<Call>): Table {
    if calls == [] then map[] else Recorded(RecordAll(calls[..|calls| - 1]), calls[|calls| - 1])
  }

  class AttemptLog {
    var table: Table

    method RecordAttempt(id: int, filePath: string, at: int, outcome: Outcome, error: Option<string>)
      modifies this
      ensures table == Recorded(old(table), Call(id, filePath, at, outcome, error))
    {
      var needsRetry := NeedsRetry(outcome);
      if id in table {
        var row := table[id];
        table := table[id := row.(filePath := filePath, lastAttemptAt := at, outcome := outcome,
                                  attempts := row.attempts + 1, lastError := error, needsRetry := needsRetry)];
      } else {
        table := table[id := Attempt(filePath, at, outcome, 1, error, needsRetry)];
      }
    }

    /** The rows to retry, oldest attempt first, and by number among attempts of the same time. */
    method PendingItemIds() returns (ids: seq<int>)
      ensures forall id :: id in ids <==> Pending(table, id)
      ensures InRetryOrder(table, ids)
    {
      ids := [];
      var unseen := table.Items;
      while unseen != {}
        invariant unseen <= table.Items
        invariant forall k :: k in ids <==> k in table && (k, table[k]) !in unseen && table[k].needsRetry
        invariant InRetryOrder(table, ids)
        decreases unseen
      {
        var row :| row in unseen;
        unseen := unseen - {row};
        if row.1.needsRetry {
          ids := InsertOlderFirst(table, row.0, ids);
        }
      }
    }
  }

  /** `id` placed behind the older ones. */
  function InsertOlderFirst(table: Table, id: int, ids: seq<int>): (longer: seq<int>)
    requires id in table && id !in ids && (forall k :: k in ids ==> k in table) && InRetryOrder(table, ids)
    ensures forall k :: k in longer <==> k in ids || k == id
    ensures InRetryOrder(table, longer)
  {
    if ids == [] || OlderFirst(table, id, ids[0]) then [id] + ids
    else
      assert ids == [ids[0]] + ids[1..];
      var rest := InsertOlderFirst(table, id, ids[1..]);
      assert forall k :: k in rest ==> OlderFirst(table, ids[0], k);
      [ids[0]] + rest
  }

  predicate OlderFirst(table: Table, a: int, b: int) {
    && a in table && b in table
    && (table[a].lastAttemptAt < table[b].lastAttemptAt
        || (table[a].lastAttemptAt == table[b].lastAttemptAt && a < b))
  }

  /** Strictly increasing by time and number; so no number comes twice. */
  ghost predicate InRetryOrder(table: Table, ids: seq<int>) {
    forall i, j :: 0 <= i < j < |ids| ==> OlderFirst(table, ids[i], ids[j])
  }

  /** In retry order an attempt comes before all later ones, and among those of one time the smaller number first. */
  lemma OlderComesFirst(table: Table, ids: seq<int>, i: nat, j: nat)
    requires InRetryOrder(table, ids) && i < j < |ids|
    ensures ids[i] in table && ids[j] in table
    ensures var a, b := table[ids[i]].lastAttemptAt, table[ids[j]].lastAttemptAt;
            a < b || (a == b && ids[i] < ids[j])
  {
  }

  /** The last call about an item. */
  function LastOf(calls: seq<Call>, id: int): Option<Call> {
    if calls == [] then None
    else if calls[|calls| - 1].id == id then Some(calls[|calls| - 1])
    else LastOf(calls[..|calls| - 1], id)
  }

  function CountOf(calls: seq<Call>, id: int): nat {
    if calls == [] then 0
    else CountOf(calls[..|calls| - 1], id) + if calls[|calls| - 1].id == id then 1 else 0
  }

  /**
    Over any sequence of attempts, an item's row is its last attempt, with the number of
    all its attempts; so an item is pending exactly when its last outcome is retryable.
  */
  lemma {:induction false} RowIsTheLastAttempt(calls: seq<Call>, id: int)
    ensures match LastOf(calls, id)
            case None => id !in RecordAll(calls) && CountOf(calls, id) == 0
            case Some(last) =>
              id in RecordAll(calls) && last.id == id
              && RecordAll(calls)[id] == Attempt(last.filePath, last.at, last.outcome, CountOf(calls, id), last.error,
                                                 NeedsRetry(last.outcome))
  {
    if calls != [] {
      RowIsTheLastAttempt(calls[..|calls| - 1], id);
    }
  }

  /**
    What is pending after any sequence of attempts: the items whose last attempt missed,
    failed, timed out or left the poster missing, and no others.
  */
  lemma {:induction false} PendingIsWhatFailedLast(calls: seq<Call>, id: int)
    ensures Pending(RecordAll(calls), id) <==>
              LastOf(calls, id).Some? && LastOf(calls, id).value.outcome in {NoMatch, Failed, Timeout, EnrichedPosterMissing}
  {
    RowIsTheLastAttempt(calls, id);
  }
}
