/**
  The stored collections (src-tauri/src/collections.rs, `rebuild`): two tables that a
  rebuild brings in line with a fresh grouping, in one transaction.
*/
module CollectionStore {
  import opened Wrappers
  import opened Sorting
  import opened Collections
  import CollectionFacts

  datatype Row = Row(id: int, name: string, kind: Kind, itemCount: nat, poster: Option<string>, updatedAt: string)

  datatype Report = Report(series: nat, franchises: nat, genres: nat, itemsGrouped: nat)

  /** `items` maps a collection's id and a media id to a position; `lastId` is the last id given out. */
  datatype Tables = Tables(rows: map<string, Row>, items: map<(int, int), nat>, lastId: int) {
    function Upsert(g: Group, now: string): Tables {
      var key := FullKey(g);
      var id := if key in rows then rows[key].id else lastId + 1;
      this.(rows := rows[key := Row(id, g.name, g.kind, |g.itemIds|, g.poster, now)],
            lastId := if key in rows then lastId else id)
    }

    /** The items of a collection up to a position; one that is already there is left alone. */
    function WithItems(id: int, ids: seq<int>, count: nat): Tables
      requires count <= |ids|
    {
      if count == 0 then this
      else
        var before := WithItems(id, ids, count - 1);
        if (id, ids[count - 1]) in before.items then before
        else before.(items := before.items[(id, ids[count - 1]) := count - 1])
    }

    function StoreGroup(g: Group, now: string): Tables {
      var upserted := Upsert(g, now);
      upserted.WithItems(upserted.rows[FullKey(g)].id, g.itemIds, |g.itemIds|)
    }

    function StoreAll(groups: seq<Group>, now: string): Tables {
      if groups == [] then this
      else StoreAll(groups[..|groups| - 1], now).StoreGroup(groups[|groups| - 1], now)
    }

    function DropStale(kept: set<string>): Tables {
      this.(rows := map key | key in rows && key in kept :: rows[key])
    }

    function Rebuilt(groups: seq<Group>, now: string): Tables {
      this.(items := map[]).StoreAll(groups, now).DropStale(KeysOf(groups))
    }
  }

  function KeysOf(groups: seq<Group>): set<string> {
    if groups == [] then {} else KeysOf(groups[..|groups| - 1]) + {FullKey(groups[|groups| - 1])}
  }

  function Counted(report: Report, g: Group): Report {
    var grouped := report.(itemsGrouped := report.itemsGrouped + |g.itemIds|);
    match g.kind
    case Series => grouped.(series := grouped.series + 1)
    case Franchise => grouped.(franchises := grouped.franchises + 1)
    case Genre => grouped.(genres := grouped.genres + 1)
  }

  function ReportOn(groups: seq<Group>): Report {
    if groups == [] then Report(0, 0, 0, 0) else Counted(ReportOn(groups[..|groups| - 1]), groups[|groups| - 1])
  }

  class CollectionTables {
    var rows: map<string, Row>
    var items: map<(int, int), nat>
    var lastId: int

    ghost function State(): Tables
      reads this
    {
      Tables(rows, items, lastId)
    }

    method StoreGroup(g: Group, now: string)
      modifies this
      ensures State() == old(State()).StoreGroup(g, now)
    {
      var key := FullKey(g);
      if key in rows {
        rows := rows[key := Row(rows[key].id, g.name, g.kind, |g.itemIds|, g.poster, now)];
      } else {
        lastId := lastId + 1;
        rows := rows[key := Row(lastId, g.name, g.kind, |g.itemIds|, g.poster, now)];
      }
      var id := rows[key].id;
      ghost var upserted := State();
      for position := 0 to |g.itemIds|
        invariant State() == upserted.WithItems(id, g.itemIds, position)
      {
        if (id, g.itemIds[position]) !in items {
          items := items[(id, g.itemIds[position]) := position];
        }
      }
    }

    method DropStale(kept: set<string>)
      modifies this`rows
      ensures State() == old(State()).DropStale(kept)
    {
      var unseen := rows.Keys;
      while unseen != {}
        invariant unseen <= rows.Keys <= old(rows).Keys
        invariant forall key :: key in old(rows) && (key in kept || key in unseen) ==> key in rows
        invariant forall key :: key in rows ==> rows[key] == old(rows)[key] && (key in kept || key in unseen)
        decreases unseen
      {
        var key :| key in unseen;
        unseen := unseen - {key};
        if key !in kept {
          rows := rows - {key};
        }
      }
    }

    /** The statements of a rebuild, up to the one that fails, if any. */
    method StoreGroups(groups: seq<Group>, now: string, fault: Option<nat>) returns (report: Report, failed: bool)
      modifies this
      ensures failed <==> fault.Some? && fault.value <= |groups|
      ensures !failed ==> State() == old(State()).Rebuilt(groups, now) && report == ReportOn(groups)
    {
      items := map[];
      report, failed := Report(0, 0, 0, 0), false;
      var kept: set<string> := {};
      ghost var cleared := State();
      for i := 0 to |groups|
        invariant fault.None? || i <= fault.value
        invariant State() == cleared.StoreAll(groups[..i], now)
        invariant kept == KeysOf(groups[..i]) && report == ReportOn(groups[..i])
      {
        if fault == Some(i) {
          failed := true;
          return;
        }
        assert groups[..i + 1][..i] == groups[..i];
        StoreGroup(groups[i], now);
        kept := kept + {FullKey(groups[i])};
        report := Counted(report, groups[i]);
      }
      assert groups[..|groups|] == groups;
      DropStale(kept);
      failed := fault == Some(|groups|);
    }

    /**
      One transaction over the groups of a library.  `fault` numbers the group at which a
      statement fails, or is the number of groups if the cleaning up or the commit does;
      nothing of a failed transaction stays.
    */
    method Rebuild(library: seq<Item>, settings: Settings, norm: string -> string, now: string, fault: Option<nat>)
      returns (r: Option<Report>)
      modifies this
      ensures var groups := Groups(library, settings, norm);
              && (r.None? <==> fault.Some? && fault.value <= |groups|)
              && (r.Some? ==> State() == old(State()).Rebuilt(groups, now) && r.value == ReportOn(groups))
              && (r.None? ==> State() == old(State()))
    {
      var groups := BuildGroups(library, settings, norm);
      var rowsBefore, itemsBefore, lastIdBefore := rows, items, lastId;
      var report, failed := StoreGroups(groups, now, fault);
      if failed {
        rows, items, lastId := rowsBefore, itemsBefore, lastIdBefore;
        r := None;
      } else {
        r := Some(report);
      }
    }
  }

  // ---- What a rebuild leaves ----

  /** Row ids are given out once, in increasing order. */
  ghost predicate WellKept(t: Tables) {
    && (forall key :: key in t.rows ==> t.rows[key].id <= t.lastId)
    && (forall a, b :: a in t.rows && b in t.rows && a != b ==> t.rows[a].id != t.rows[b].id)
  }

  /** Groups with distinct keys and without repeated members, as `Collections.BuildGroups` returns them. */
  ghost predicate Storable(groups: seq<Group>) {
    && (forall i, j :: 0 <= i < j < |groups| ==> FullKey(groups[i]) != FullKey(groups[j]))
    && (forall i :: 0 <= i < |groups| ==> NoRepeats(groups[i].itemIds))
  }

  /** The group's row and exactly its members, each at its position. */
  ghost predicate Stored(t: Tables, g: Group, now: string) {
    && FullKey(g) in t.rows
    && t.rows[FullKey(g)] == Row(t.rows[FullKey(g)].id, g.name, g.kind, |g.itemIds|, g.poster, now)
    && HasItems(t.items, t.rows[FullKey(g)].id, g.itemIds, |g.itemIds|)
  }

  ghost predicate HasItems(items: map<(int, int), nat>, id: int, ids: seq<int>, count: nat)
    requires count <= |ids|
  {
    && (forall i :: 0 <= i < count ==> (id, ids[i]) in items && items[(id, ids[i])] == i)
    && (forall p :: p in items && p.0 == id ==> p.1 in ids[..count])
  }

  lemma {:induction false} ItemsKeepRows(t: Tables, id: int, ids: seq<int>, count: nat)
    requires count <= |ids|
    ensures t.WithItems(id, ids, count).rows == t.rows && t.WithItems(id, ids, count).lastId == t.lastId
    decreases count
  {
    if count > 0 {
      ItemsKeepRows(t, id, ids, count - 1);
    }
  }

  lemma {:induction false} ItemsKeepOthers(t: Tables, id: int, ids: seq<int>, count: nat, p: (int, int))
    requires count <= |ids|
    ensures var after := t.WithItems(id, ids, count).items;
            && (p.0 != id && p in after ==> p in t.items)
            && (p in t.items ==> p in after && after[p] == t.items[p])
    decreases count
  {
    if count > 0 {
      ItemsKeepOthers(t, id, ids, count - 1, p);
    }
  }

  lemma {:induction false} ItemsAreAdded(t: Tables, id: int, ids: seq<int>, count: nat)
    requires count <= |ids| && NoRepeats(ids) && forall p :: p in t.items ==> p.0 != id
    ensures HasItems(t.WithItems(id, ids, count).items, id, ids, count)
    decreases count
  {
    if count > 0 {
      ItemsAreAdded(t, id, ids, count - 1);
      assert ids[..count] == ids[..count - 1] + [ids[count - 1]];
      assert ids[count - 1] !in ids[..count - 1];
    }
  }

  lemma {:induction false} WithItemsStores(t: Tables, id: int, ids: seq<int>)
    requires NoRepeats(ids) && forall p :: p in t.items ==> p.0 != id
    ensures var after := t.WithItems(id, ids, |ids|);
            && HasItems(after.items, id, ids, |ids|)
            && after.rows == t.rows && after.lastId == t.lastId
            && (forall p :: p in after.items && p.0 != id ==> p in t.items && after.items[p] == t.items[p])
            && (forall p :: p in t.items ==> p in after.items && after.items[p] == t.items[p])
  {
    ItemsAreAdded(t, id, ids, |ids|);
    ItemsKeepRows(t, id, ids, |ids|);
    var after := t.WithItems(id, ids, |ids|).items;
    forall p: (int, int)
      ensures p.0 != id && p in after ==> p in t.items
      ensures p in t.items ==> p in after && after[p] == t.items[p]
    {
      ItemsKeepOthers(t, id, ids, |ids|, p);
    }
  }

  /** What storing the first groups has done so far. */
  ghost predicate StoredSoFar(was: Tables, t: Tables, groups: seq<Group>, now: string) {
    && WellKept(t) && was.lastId <= t.lastId
    && (forall g :: g in groups ==> Stored(t, g, now))
    && (forall key :: key in t.rows && key !in KeysOf(groups) ==> key in was.rows && t.rows[key] == was.rows[key])
    && (forall key :: key in was.rows ==> key in t.rows && t.rows[key].id == was.rows[key].id)
    && (forall key :: key in t.rows && key !in was.rows ==> t.rows[key].id > was.lastId)
    && (forall p :: p in t.items ==> exists g :: g in groups && FullKey(g) in t.rows && t.rows[FullKey(g)].id == p.0)
  }

  lemma {:induction false} KeysOfHold(groups: seq<Group>, key: string)
    ensures key in KeysOf(groups) <==> exists g :: g in groups && FullKey(g) == key
  {
    if groups != [] {
      var n := |groups| - 1;
      KeysOfHold(groups[..n], key);
      assert groups == groups[..n] + [groups[n]];
    }
  }

  lemma UpsertKeepsIds(t: Tables, g: Group, now: string)
    requires WellKept(t)
    ensures var after := t.Upsert(g, now);
            && WellKept(after) && t.lastId <= after.lastId
            && (forall key :: key in t.rows ==> key in after.rows && after.rows[key].id == t.rows[key].id)
            && (forall key :: key in t.rows && key != FullKey(g) ==> after.rows[key] == t.rows[key])
            && (FullKey(g) !in t.rows ==> after.rows[FullKey(g)].id == t.lastId + 1)
  {
  }

  /** The row that the next group gets has no items yet. */
  lemma NextRowIsEmpty(was: Tables, t: Tables, groups: seq<Group>, g: Group, now: string)
    requires StoredSoFar(was, t, groups, now)
    requires forall other :: other in groups ==> FullKey(other) != FullKey(g)
    ensures var upserted := t.Upsert(g, now);
            forall p :: p in upserted.items ==> p.0 != upserted.rows[FullKey(g)].id
  {
    var id := t.Upsert(g, now).rows[FullKey(g)].id;
    forall p | p in t.items ensures p.0 != id {
      var other :| other in groups && FullKey(other) in t.rows && t.rows[FullKey(other)].id == p.0;
      assert FullKey(other) != FullKey(g);
    }
  }

  lemma StoreGroupKeepsItems(was: Tables, t: Tables, groups: seq<Group>, g: Group, now: string)
    requires StoredSoFar(was, t, groups, now) && NoRepeats(g.itemIds)
    requires forall other :: other in groups ==> FullKey(other) != FullKey(g)
    ensures var after := t.StoreGroup(g, now);
            && (forall other :: other in groups + [g] ==> Stored(after, other, now))
            && (forall p :: p in after.items ==>
                  exists h :: h in groups + [g] && FullKey(h) in after.rows && after.rows[FullKey(h)].id == p.0)
            && after.rows == t.Upsert(g, now).rows && after.lastId == t.Upsert(g, now).lastId
  {
    UpsertKeepsIds(t, g, now);
    NextRowIsEmpty(was, t, groups, g, now);
    var upserted := t.Upsert(g, now);
    var id := upserted.rows[FullKey(g)].id;
    WithItemsStores(upserted, id, g.itemIds);
    var after := t.StoreGroup(g, now);
    assert g.itemIds[..|g.itemIds|] == g.itemIds;
    forall other | other in groups + [g] ensures Stored(after, other, now) {
      if other != g {
        assert other in groups && Stored(t, other, now);
      }
    }
    forall p | p in after.items
      ensures exists h :: h in groups + [g] && FullKey(h) in after.rows && after.rows[FullKey(h)].id == p.0
    {
      if p.0 == id {
        assert g in groups + [g];
      } else {
        var h :| h in groups && FullKey(h) in t.rows && t.rows[FullKey(h)].id == p.0;
        assert h in groups + [g];
      }
    }
  }

  lemma StoreGroupKeepsStored(was: Tables, t: Tables, groups: seq<Group>, g: Group, now: string)
    requires StoredSoFar(was, t, groups, now) && NoRepeats(g.itemIds)
    requires forall other :: other in groups ==> FullKey(other) != FullKey(g)
    ensures StoredSoFar(was, t.StoreGroup(g, now), groups + [g], now)
  {
    UpsertKeepsIds(t, g, now);
    StoreGroupKeepsItems(was, t, groups, g, now);
    assert (groups + [g])[..|groups|] == groups;
    assert KeysOf(groups + [g]) == KeysOf(groups) + {FullKey(g)};
  }

  lemma StorableFront(groups: seq<Group>)
    requires Storable(groups) && groups != []
    ensures var n := |groups| - 1;
            && Storable(groups[..n]) && NoRepeats(groups[n].itemIds)
            && forall other :: other in groups[..n] ==> FullKey(other) != FullKey(groups[n])
  {
  }

  lemma {:induction false} StoreAllStores(was: Tables, groups: seq<Group>, now: string)
    requires WellKept(was) && Storable(groups)
    ensures StoredSoFar(was, was.(items := map[]).StoreAll(groups, now), groups, now)
  {
    if groups != [] {
      var front, last := groups[..|groups| - 1], groups[|groups| - 1];
      StorableFront(groups);
      StoreAllStores(was, front, now);
      assert groups == front + [last];
      StoreGroupKeepsStored(was, was.(items := map[]).StoreAll(front, now), front, last, now);
    }
  }

  /**
    The tables hold exactly the groups: a row for each, with its members at positions
    0, 1, 2, ..., and nothing else.
  */
  ghost predicate Mirrors(t: Tables, groups: seq<Group>, now: string) {
    && WellKept(t)
    && (forall key :: key in t.rows <==> exists g :: g in groups && FullKey(g) == key)
    && (forall g :: g in groups ==> Stored(t, g, now))
    && (forall p :: p in t.items ==> exists g :: g in groups && FullKey(g) in t.rows && t.rows[FullKey(g)].id == p.0)
  }

  /** After a rebuild the tables mirror the groups; a key that was there keeps its id, a new one gets a new id. */
  lemma RebuildMirrorsTheGroups(was: Tables, groups: seq<Group>, now: string)
    requires WellKept(was) && Storable(groups)
    ensures var t := was.Rebuilt(groups, now);
            && Mirrors(t, groups, now)
            && (forall key :: key in t.rows ==>
                  if key in was.rows then t.rows[key].id == was.rows[key].id else t.rows[key].id > was.lastId)
  {
    StoreAllStores(was, groups, now);
    var stored := was.(items := map[]).StoreAll(groups, now);
    var t := was.Rebuilt(groups, now);
    forall key ensures key in KeysOf(groups) <==> exists g :: g in groups && FullKey(g) == key {
      KeysOfHold(groups, key);
    }
    forall g | g in groups ensures Stored(t, g, now) && FullKey(g) in t.rows {
      assert Stored(stored, g, now);
    }
  }

  /** The stored item count is the number of item rows. */
  lemma ItemCountIsTheNumberOfRows(t: Tables, groups: seq<Group>, now: string, g: Group)
    requires Mirrors(t, groups, now) && g in groups && NoRepeats(g.itemIds)
    ensures FullKey(g) in t.rows
            && t.rows[FullKey(g)].itemCount == |set p | p in t.items && p.0 == t.rows[FullKey(g)].id|
  {
    assert Stored(t, g, now);
    ItemsAreCounted(t.items, t.rows[FullKey(g)].id, g.itemIds);
  }

  lemma ItemsAreCounted(items: map<(int, int), nat>, id: int, ids: seq<int>)
    requires HasItems(items, id, ids, |ids|) && NoRepeats(ids)
    ensures |set p | p in items && p.0 == id| == |ids|
  {
    assert ids[..|ids|] == ids;
    PairsOf(id, ids);
    var pairs := set m | m in ids :: (id, m);
    forall p ensures p in items && p.0 == id <==> p in pairs {
      assert p.0 == id ==> p == (id, p.1);
      assert p in items && p.0 == id ==> p.1 in ids[..|ids|];
      if p.1 in ids {
        var i :| 0 <= i < |ids| && ids[i] == p.1;
        assert (id, ids[i]) in items;
      }
    }
    assert (set p | p in items && p.0 == id) == pairs;
  }

  lemma {:induction false} PairsOf(id: int, ids: seq<int>)
    requires NoRepeats(ids)
    ensures |set m | m in ids :: (id, m)| == |ids|
  {
    if ids != [] {
      var n := |ids| - 1;
      PairsOf(id, ids[..n]);
      assert ids == ids[..n] + [ids[n]];
      assert (set m | m in ids :: (id, m)) == (set m | m in ids[..n] :: (id, m)) + {(id, ids[n])};
    }
  }

  lemma {:induction false} ItemsAddTheirNumber(t: Tables, id: int, ids: seq<int>, count: nat)
    requires count <= |ids| && NoRepeats(ids) && forall p :: p in t.items ==> p.0 != id
    ensures |t.WithItems(id, ids, count).items| == |t.items| + count
    decreases count
  {
    if count > 0 {
      ItemsAddTheirNumber(t, id, ids, count - 1);
      ItemsAreAdded(t, id, ids, count - 1);
      var before := t.WithItems(id, ids, count - 1).items;
      assert ids[count - 1] !in ids[..count - 1];
      assert (id, ids[count - 1]) !in before;
      assert before[(id, ids[count - 1]) := count - 1].Keys == before.Keys + {(id, ids[count - 1])};
    }
  }

  lemma {:induction false} StoringOneMoreCountsItems(was: Tables, groups: seq<Group>, now: string)
    requires WellKept(was) && Storable(groups) && groups != []
    ensures var front, last := groups[..|groups| - 1], groups[|groups| - 1];
            && Storable(front)
            && |was.(items := map[]).StoreAll(groups, now).items|
               == |was.(items := map[]).StoreAll(front, now).items| + |last.itemIds|
  {
    var front, last := groups[..|groups| - 1], groups[|groups| - 1];
    StorableFront(groups);
    StoreAllStores(was, front, now);
    StoringOneCountsItems(was, was.(items := map[]).StoreAll(front, now), front, last, now);
  }

  lemma {:induction false} StoringCountsItems(was: Tables, groups: seq<Group>, now: string)
    requires WellKept(was) && Storable(groups)
    ensures |was.(items := map[]).StoreAll(groups, now).items| == ReportOn(groups).itemsGrouped
  {
    if groups != [] {
      StoringOneMoreCountsItems(was, groups, now);
      StoringCountsItems(was, groups[..|groups| - 1], now);
    }
  }

  lemma StoringOneCountsItems(was: Tables, t: Tables, groups: seq<Group>, g: Group, now: string)
    requires StoredSoFar(was, t, groups, now) && NoRepeats(g.itemIds)
    requires forall other :: other in groups ==> FullKey(other) != FullKey(g)
    ensures |t.StoreGroup(g, now).items| == |t.items| + |g.itemIds|
  {
    NextRowIsEmpty(was, t, groups, g, now);
    var upserted := t.Upsert(g, now);
    ItemsAddTheirNumber(upserted, upserted.rows[FullKey(g)].id, g.itemIds, |g.itemIds|);
  }

  /** The number of grouped items in the report is the number of item rows after the rebuild. */
  lemma {:induction false} ReportCountsTheItemRows(was: Tables, groups: seq<Group>, now: string)
    requires WellKept(was) && Storable(groups)
    ensures ReportOn(groups).itemsGrouped == |was.Rebuilt(groups, now).items|
  {
    StoringCountsItems(was, groups, now);
  }

  function OfKind(groups: seq<Group>, kind: Kind): seq<Group> {
    Filter(groups, (g: Group) => g.kind == kind)
  }

  /** The report counts the groups of each kind. */
  lemma {:induction false} ReportCountsTheGroups(groups: seq<Group>)
    ensures var report := ReportOn(groups);
            && report.series == |OfKind(groups, Series)|
            && report.franchises == |OfKind(groups, Franchise)|
            && report.genres == |OfKind(groups, Genre)|
  {
    if groups != [] {
      var n := |groups| - 1;
      ReportCountsTheGroups(groups[..n]);
      KindOfOneMore(groups[..n], groups[n], Series);
      KindOfOneMore(groups[..n], groups[n], Franchise);
      KindOfOneMore(groups[..n], groups[n], Genre);
      assert groups == groups[..n] + [groups[n]];
    }
  }

  lemma KindOfOneMore(groups: seq<Group>, g: Group, kind: Kind)
    ensures |OfKind(groups + [g], kind)| == |OfKind(groups, kind)| + if g.kind == kind then 1 else 0
  {
    FilterSplits(groups, [g], (g: Group) => g.kind == kind);
  }

  // ---- Rebuilding again ----

  function Restamped(t: Tables, now: string): Tables {
    t.(rows := map key | key in t.rows :: t.rows[key].(updatedAt := now))
  }

  lemma RowsAgree(t: Tables, u: Tables, groups: seq<Group>, now: string, later: string, key: string)
    requires Mirrors(t, groups, now) && Mirrors(u, groups, later) && key in t.rows
    ensures key in u.rows && u.rows[key] == t.rows[key].(id := u.rows[key].id, updatedAt := later)
  {
    var g :| g in groups && FullKey(g) == key;
    assert Stored(t, g, now) && Stored(u, g, later);
  }

  lemma ItemsAgree(t: Tables, u: Tables, groups: seq<Group>, now: string, later: string, p: (int, int))
    requires Mirrors(t, groups, now) && Mirrors(u, groups, later) && p in t.items
    requires forall g :: g in groups && FullKey(g) in t.rows && FullKey(g) in u.rows ==>
               t.rows[FullKey(g)].id == u.rows[FullKey(g)].id
    ensures p in u.items && u.items[p] == t.items[p]
  {
    var g :| g in groups && FullKey(g) in t.rows && t.rows[FullKey(g)].id == p.0;
    assert Stored(t, g, now) && Stored(u, g, later);
    SameItem(t.items, u.items, p.0, g.itemIds, p.1);
  }

  lemma RowsRestamped(t: Tables, u: Tables, groups: seq<Group>, now: string, later: string)
    requires Mirrors(t, groups, now) && Mirrors(u, groups, later)
    requires forall key :: key in t.rows && key in u.rows ==> t.rows[key].id == u.rows[key].id
    ensures u.rows == Restamped(t, later).rows
  {
    forall key ensures key in u.rows <==> key in t.rows {
    }
    forall key | key in t.rows ensures u.rows[key] == t.rows[key].(updatedAt := later) {
      RowsAgree(t, u, groups, now, later, key);
    }
    assert u.rows.Keys == Restamped(t, later).rows.Keys;
  }

  lemma ItemsIncluded(t: Tables, u: Tables, groups: seq<Group>, now: string, later: string)
    requires Mirrors(t, groups, now) && Mirrors(u, groups, later)
    requires forall g :: g in groups && FullKey(g) in t.rows && FullKey(g) in u.rows ==>
               t.rows[FullKey(g)].id == u.rows[FullKey(g)].id
    ensures forall p :: p in t.items ==> p in u.items && u.items[p] == t.items[p]
  {
    forall p | p in t.items ensures p in u.items && u.items[p] == t.items[p] {
      ItemsAgree(t, u, groups, now, later, p);
    }
  }

  lemma MapsAgree<K, V>(a: map<K, V>, b: map<K, V>)
    requires forall k :: k in a ==> k in b && b[k] == a[k]
    requires forall k :: k in b ==> k in a && a[k] == b[k]
    ensures a == b
  {
  }

  lemma SameItem(a: map<(int, int), nat>, b: map<(int, int), nat>, id: int, ids: seq<int>, m: int)
    requires HasItems(a, id, ids, |ids|) && HasItems(b, id, ids, |ids|) && (id, m) in a
    ensures (id, m) in b && b[(id, m)] == a[(id, m)]
  {
    assert ids[..|ids|] == ids;
    var i :| 0 <= i < |ids| && ids[i] == m;
  }

  /** Rebuilding an unchanged library changes nothing but the time stamps. */
  lemma RebuildAgainOnlyRestamps(was: Tables, groups: seq<Group>, now: string, later: string)
    requires WellKept(was) && Storable(groups)
    ensures was.Rebuilt(groups, now).Rebuilt(groups, later) == Restamped(was.Rebuilt(groups, now), later)
  {
    var t := was.Rebuilt(groups, now);
    RebuildMirrorsTheGroups(was, groups, now);
    RebuildMirrorsTheGroups(t, groups, later);
    RowsRestamped(t, t.Rebuilt(groups, later), groups, now, later);
    ItemsIncluded(t, t.Rebuilt(groups, later), groups, now, later);
    ItemsIncluded(t.Rebuilt(groups, later), t, groups, later, now);
    MapsAgree(t.items, t.Rebuilt(groups, later).items);
    LastIdStays(t, groups, later);
  }

  lemma LastIdStays(t: Tables, groups: seq<Group>, now: string)
    requires forall g :: g in groups ==> FullKey(g) in t.rows
    ensures t.Rebuilt(groups, now).lastId == t.lastId
  {
    StoreAllKeepsLastId(t.(items := map[]), groups, now);
  }

  lemma {:induction false} StoreAllKeepsLastId(t: Tables, groups: seq<Group>, now: string)
    requires forall g :: g in groups ==> FullKey(g) in t.rows
    ensures t.StoreAll(groups, now).lastId == t.lastId
    ensures forall key :: key in t.rows ==> key in t.StoreAll(groups, now).rows
  {
    if groups != [] {
      var n := |groups| - 1;
      StoreAllKeepsLastId(t, groups[..n], now);
      var before := t.StoreAll(groups[..n], now);
      var upserted := before.Upsert(groups[n], now);
      ItemsKeepRows(upserted, upserted.rows[FullKey(groups[n])].id, groups[n].itemIds, |groups[n].itemIds|);
    }
  }

  /** What the grouping of a library returns can always be stored, as long as every item has its own id. */
  lemma GroupsAreStorable(library: seq<Item>, settings: Settings, norm: string -> string)
    requires forall i, j :: 0 <= i < j < |library| ==> library[i].id != library[j].id
    ensures Storable(Groups(library, settings, norm))
  {
    var groups := Groups(library, settings, norm);
    forall i, j | 0 <= i < j < |groups| ensures FullKey(groups[i]) != FullKey(groups[j]) {
      CollectionFacts.StoredKeysAreDistinct(library, settings, norm, i, j);
    }
    forall i | 0 <= i < |groups| ensures NoRepeats(groups[i].itemIds) {
      CollectionFacts.NoGroupListsAnIdTwice(library, settings, norm, i);
    }
  }
}
