/**
  Rebuilding the stored collections of one library whose rows are loaded in two orders.
*/
module CollectionReorders {
  import opened Wrappers
  import opened Sorting
  import opened Collections
  import opened CollectionFacts
  import opened CollectionOrders
  import opened CollectionStore

  lemma ChosenGroupIsThere(
    kind: Kind, items: seq<Item>, settings: Settings, norm: string -> string, key: string)
    requires HasGroup(kind, items, settings, norm, key)
    ensures GroupUnder(kind, items, norm, key) in Groups(items, settings, norm)
  {
    var keys := Chosen(kind, Offers(kind, items, SeriesIds(items), norm), settings);
    var k :| 0 <= k < |keys| && keys[k] == key;
    var groups := GroupsOf(kind, items, settings, norm);
    assert groups[k] == GroupUnder(kind, items, norm, key) && groups[k] in groups;
  }

  lemma SameChosen(
    kind: Kind, items: seq<Item>, items': seq<Item>, settings: Settings, norm: string -> string, key: string)
    requires multiset(items) == multiset(items') && HasGroup(kind, items, settings, norm, key)
    ensures HasGroup(kind, items', settings, norm, key)
  {
    var offers, offers' := Offers(kind, items, SeriesIds(items), norm), Offers(kind, items', SeriesIds(items'), norm);
    forall other ensures |Members(offers, other)| == |Members(offers', other)| {
      MembersAreBelonging(kind, items, SeriesIds(items), norm, other);
      MembersAreBelonging(kind, items', SeriesIds(items'), norm, other);
      SameMembers(kind, items, items', norm, other);
    }
    ChosenAlike(kind, offers, offers', settings);
  }

  /** Each group of the one load has its counterpart in the other, under the same key and with the same members. */
  lemma GroupHasCounterpart(
    items: seq<Item>, items': seq<Item>, settings: Settings, norm: string -> string, g: Group)
    requires multiset(items) == multiset(items') && g in Groups(items, settings, norm)
    ensures g == GroupUnder(g.kind, items, norm, g.key)
    ensures var g' := GroupUnder(g.kind, items', norm, g.key);
            g' in Groups(items', settings, norm) && SameGroup(g, g') && FullKey(g') == FullKey(g)
  {
    var i :| 0 <= i < |Groups(items, settings, norm)| && Groups(items, settings, norm)[i] == g;
    GroupComesFromAKey(items, settings, norm, i);
    SameChosen(g.kind, items, items', settings, norm, g.key);
    ChosenGroupIsThere(g.kind, items', settings, norm, g.key);
    GroupsForKeyAlike(g.kind, items, items', norm, g.key);
  }

  /** Group by group, the one list holds a counterpart of each group of the other. */
  ghost predicate Counterparts(groups: seq<Group>, groups': seq<Group>) {
    forall g :: g in groups ==> HasCounterpart(g, groups')
  }

  ghost predicate HasCounterpart(g: Group, groups': seq<Group>) {
    exists g' :: g' in groups' && SameGroup(g, g') && FullKey(g') == FullKey(g)
  }

  lemma GroupsAreCounterparts(items: seq<Item>, items': seq<Item>, settings: Settings, norm: string -> string)
    requires multiset(items) == multiset(items')
    ensures Counterparts(Groups(items, settings, norm), Groups(items', settings, norm))
  {
    forall g | g in Groups(items, settings, norm) ensures HasCounterpart(g, Groups(items', settings, norm)) {
      GroupHasCounterpart(items, items', settings, norm, g);
    }
  }

  /** What a row keeps: key, id, kind and number of items. */
  ghost predicate RowKept(t: Tables, u: Tables, key: string) {
    && key in t.rows && key in u.rows
    && u.rows[key].id == t.rows[key].id && u.rows[key].kind == t.rows[key].kind
    && u.rows[key].itemCount == t.rows[key].itemCount
  }

  lemma RowIsKept(
    t: Tables, u: Tables, groups: seq<Group>, groups': seq<Group>, now: string, later: string, key: string)
    requires Mirrors(t, groups, now) && Mirrors(u, groups', later) && Counterparts(groups, groups') && key in t.rows
    requires key in u.rows ==> u.rows[key].id == t.rows[key].id
    ensures RowKept(t, u, key)
  {
    var g :| g in groups && FullKey(g) == key;
    assert HasCounterpart(g, groups');
    var g' :| g' in groups' && SameGroup(g, g') && FullKey(g') == FullKey(g);
    assert Stored(t, g, now) && Stored(u, g', later);
  }

  lemma MemberIsKept(
    a: map<(int, int), nat>, b: map<(int, int), nat>, id: int, ids: seq<int>, ids': seq<int>, m: int)
    requires HasItems(a, id, ids, |ids|) && HasItems(b, id, ids', |ids'|) && (id, m) in a
    requires forall n :: n in ids ==> n in ids'
    ensures (id, m) in b
  {
    assert ids[..|ids|] == ids && (id, m).1 == m;
    var i :| 0 <= i < |ids'| && ids'[i] == m;
  }

  lemma ItemIsKept(
    t: Tables, u: Tables, groups: seq<Group>, groups': seq<Group>, now: string, later: string, p: (int, int))
    requires Mirrors(t, groups, now) && Mirrors(u, groups', later) && Counterparts(groups, groups') && p in t.items
    requires IdsKept(t, u)
    ensures p in u.items
  {
    var g :| g in groups && FullKey(g) in t.rows && t.rows[FullKey(g)].id == p.0;
    assert HasCounterpart(g, groups');
    var g' :| g' in groups' && SameGroup(g, g') && FullKey(g') == FullKey(g);
    assert Stored(t, g, now) && Stored(u, g', later);
    MemberIsKept(t.items, u.items, p.0, g.itemIds, g'.itemIds, p.1);
  }

  ghost predicate IdsKept(t: Tables, u: Tables) {
    forall key :: key in t.rows && key in u.rows ==> u.rows[key].id == t.rows[key].id
  }

  /** Everything in the first tables is in the second, under the same key and id. */
  ghost predicate Kept(t: Tables, u: Tables) {
    (forall key :: key in t.rows ==> RowKept(t, u, key)) && (forall p :: p in t.items ==> p in u.items)
  }

  lemma CollectionsAreKept(t: Tables, u: Tables, groups: seq<Group>, groups': seq<Group>, now: string, later: string)
    requires Mirrors(t, groups, now) && Mirrors(u, groups', later) && Counterparts(groups, groups') && IdsKept(t, u)
    ensures Kept(t, u)
  {
    forall key | key in t.rows ensures RowKept(t, u, key) {
      RowIsKept(t, u, groups, groups', now, later, key);
    }
    forall p | p in t.items ensures p in u.items {
      ItemIsKept(t, u, groups, groups', now, later, p);
    }
  }

  /**
    Rebuilding a library whose rows are loaded in another order keeps every collection: its
    key, its id, its kind, its number of items and the items themselves.
  */
  lemma ReorderedRebuildKeepsCollections(
    was: Tables, library: seq<Item>, library': seq<Item>, settings: Settings, norm: string -> string, now: string, later: string)
    requires WellKept(was) && multiset(library) == multiset(library')
    requires forall i, j :: 0 <= i < j < |library| ==> library[i].id != library[j].id
    ensures var t := was.Rebuilt(Groups(library, settings, norm), now);
            var u := t.Rebuilt(Groups(library', settings, norm), later);
            Kept(t, u) && Kept(u, t)
  {
    var groups, groups' := Groups(library, settings, norm), Groups(library', settings, norm);
    GroupsAreStorable(library, settings, norm);
    ReorderedIdsAreDistinct(library, library');
    GroupsAreStorable(library', settings, norm);
    var t := was.Rebuilt(groups, now);
    RebuildMirrorsTheGroups(was, groups, now);
    RebuildMirrorsTheGroups(t, groups', later);
    GroupsAreCounterparts(library, library', settings, norm);
    GroupsAreCounterparts(library', library, settings, norm);
    var u := t.Rebuilt(groups', later);
    CollectionsAreKept(t, u, groups, groups', now, later);
    CollectionsAreKept(u, t, groups', groups, later, now);
  }

  lemma ReorderedIdsAreDistinct(library: seq<Item>, library': seq<Item>)
    requires multiset(library) == multiset(library')
    requires forall i, j :: 0 <= i < j < |library| ==> library[i].id != library[j].id
    ensures forall i, j :: 0 <= i < j < |library'| ==> library'[i].id != library'[j].id
    ensures DistinctIds(library)
  {
    assert NoRepeats(library);
    FewerHaveNoRepeats(library', library);
    SameItems(library, library');
    forall x, y | x in library && y in library && x.id == y.id ensures x == y {
      var i :| 0 <= i < |library| && library[i] == x;
      var j :| 0 <= j < |library| && library[j] == y;
    }
    forall i, j | 0 <= i < j < |library'| ensures library'[i].id != library'[j].id {
      assert library'[i] in library && library'[j] in library;
    }
  }

  /** The members of a group stand at the same positions in both tables. */
  ghost predicate SamePositions(t: Tables, u: Tables, id: int) {
    forall p :: p in t.items && p.0 == id ==> p in u.items && u.items[p] == t.items[p]
  }

  lemma PositionsStayExactlyWhen(t: Tables, u: Tables, g: Group, g': Group, now: string, later: string)
    requires Stored(t, g, now) && Stored(u, g', later) && FullKey(g') == FullKey(g)
    requires u.rows[FullKey(g)].id == t.rows[FullKey(g)].id && |g'.itemIds| == |g.itemIds|
    requires NoRepeats(g.itemIds)
    ensures SamePositions(t, u, t.rows[FullKey(g)].id) <==> g'.itemIds == g.itemIds
  {
    var id := t.rows[FullKey(g)].id;
    assert g.itemIds[..|g.itemIds|] == g.itemIds && g'.itemIds[..|g'.itemIds|] == g'.itemIds;
    if SamePositions(t, u, id) {
      forall i | 0 <= i < |g.itemIds| ensures g'.itemIds[i] == g.itemIds[i] {
        var p := (id, g.itemIds[i]);
        assert p in t.items && t.items[p] == i;
        assert p in u.items && p.1 in g'.itemIds;
        var j :| 0 <= j < |g'.itemIds| && g'.itemIds[j] == p.1;
        assert u.items[(id, g'.itemIds[j])] == j;
      }
    }
    if g'.itemIds == g.itemIds {
      forall p | p in t.items && p.0 == id ensures p in u.items && u.items[p] == t.items[p] {
        SameItem(t.items, u.items, id, g.itemIds, p.1);
      }
    }
  }

  /**
    What may change is a collection's name, the order of its items and its poster.  The name
    stays exactly when the first item loaded for it calls it the same, and the order exactly
    when the members that tie are loaded in the same order; then the poster stays, too.
  */
  lemma ReorderedRebuildStaysExactlyWhen(
    was: Tables, library: seq<Item>, library': seq<Item>, settings: Settings, norm: string -> string, now: string, later: string,
    g: Group)
    requires WellKept(was) && multiset(library) == multiset(library') && g in Groups(library, settings, norm)
    requires forall i, j :: 0 <= i < j < |library| ==> library[i].id != library[j].id
    ensures var t := was.Rebuilt(Groups(library, settings, norm), now);
            var u := t.Rebuilt(Groups(library', settings, norm), later);
            var members, members' := MembersOf(g.kind, library, norm, g.key), MembersOf(g.kind, library', norm, g.key);
            && FullKey(g) in t.rows && FullKey(g) in u.rows && members != [] && members' != []
            && (u.rows[FullKey(g)].name == t.rows[FullKey(g)].name
                <==> NameUnder(g.kind, members'[0], norm, g.key) == NameUnder(g.kind, members[0], norm, g.key))
            && (SamePositions(t, u, t.rows[FullKey(g)].id) <==> TiesAlike(members, members', ItemLe(g.kind)))
            && (TiesAlike(members, members', ItemLe(g.kind)) ==> u.rows[FullKey(g)].poster == t.rows[FullKey(g)].poster)
  {
    var groups, groups' := Groups(library, settings, norm), Groups(library', settings, norm);
    var t := was.Rebuilt(groups, now);
    GroupsAreStorable(library, settings, norm);
    ReorderedIdsAreDistinct(library, library');
    GroupsAreStorable(library', settings, norm);
    RebuildMirrorsTheGroups(was, groups, now);
    RebuildMirrorsTheGroups(t, groups', later);
    var i :| 0 <= i < |groups| && groups[i] == g;
    GroupComesFromAKey(library, settings, norm, i);
    ChosenIsBigEnough(g.kind, library, settings, norm, g.key);
    GroupHasCounterpart(library, library', settings, norm, g);
    GroupStaysExactlyWhen(g.kind, library, library', norm, g.key);
    var g' := GroupUnder(g.kind, library', norm, g.key);
    assert Stored(t, g, now) && Stored(t.Rebuilt(groups', later), g', later);
    PositionsStayExactlyWhen(t, t.Rebuilt(groups', later), g, g', now, later);
  }
}
