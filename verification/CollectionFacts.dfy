/**
  What the groups are: a declarative account of `Collections.Groups`, which the loops
  of `Collections.BuildGroups` compute with tables.
*/
module CollectionFacts {
  import opened Wrappers
  import opened Texts
  import opened Sorting
  import opened Collections

  /** Whether an item belongs under a key, said without tables. */
  ghost predicate Belongs(kind: Kind, item: Item, inSeries: set<int>, norm: string -> string, key: string) {
    match kind
    case Series => Eligible(item) && SeriesOf(item).Some? && norm(SeriesOf(item).value) == key
    case Franchise => Loose(item, inSeries) && CollectionOf(item).Some? && norm(CollectionOf(item).value) == key
    case Genre =>
      Loose(item, inSeries) && key != ""
      && exists i :: 0 <= i < |SplitGenres(item.genre)| && norm(SplitGenres(item.genre)[i]) == key
  }

  /** The items that belong under a key, in library order. */
  ghost function BelongingIn(kind: Kind, items: seq<Item>, inSeries: set<int>, norm: string -> string, key: string)
    : seq<Item>
  {
    if items == [] then []
    else
      var before, last := BelongingIn(kind, items[..|items| - 1], inSeries, norm, key), items[|items| - 1];
      if Belongs(kind, last, inSeries, norm, key) then before + [last] else before
  }

  // ---- Reading a genre list ----

  /** Names written one after the other with a separator between them. */
  function Listed(names: seq<string>, separator: char): string {
    if names == [] then "" else if |names| == 1 then names[0] else names[0] + [separator] + Listed(names[1..], separator)
  }

  /** The text holds none of the four separators. */
  ghost predicate IsName(name: string) {
    forall i :: 0 <= i < |name| ==> name[i] != ',' && name[i] != '/' && name[i] != '|' && name[i] != ';'
  }

  lemma {:induction false} TrimmedOneByOne(parts: seq<string>)
    ensures |TrimAll(parts)| == |parts|
    ensures forall i :: 0 <= i < |parts| ==> TrimAll(parts)[i] == Trim(parts[i])
  {
    if parts != [] {
      TrimmedOneByOne(parts[1..]);
    }
  }

  lemma {:induction false} NameIsNotSplit(name: string)
    requires IsName(name)
    ensures SplitAtSeparators(name) == [name]
  {
    if name != "" {
      NameIsNotSplit(name[1..]);
      assert [name[0]] + name[1..] == name;
    }
  }

  lemma {:induction false} SplitAfterName(name: string, separator: char, tail: string)
    requires IsName(name) && IsSeparator(separator)
    ensures SplitAtSeparators(name + [separator] + tail) == [name] + SplitAtSeparators(tail)
  {
    var s := name + [separator] + tail;
    if name == "" {
      assert s[1..] == tail;
    } else {
      SplitAfterName(name[1..], separator, tail);
      assert s[1..] == name[1..] + [separator] + tail;
      assert [name[0]] + name[1..] == name;
    }
  }

  lemma {:induction false} ListedNamesAreSplit(names: seq<string>, separator: char)
    requires names != [] && IsSeparator(separator) && forall i :: 0 <= i < |names| ==> IsName(names[i])
    ensures SplitAtSeparators(Listed(names, separator)) == names
  {
    if |names| == 1 {
      NameIsNotSplit(names[0]);
    } else {
      ListedNamesAreSplit(names[1..], separator);
      SplitAfterName(names[0], separator, Listed(names[1..], separator));
    }
  }

  /**
    Whichever of the four separators a list of genres is written with, it reads as its names
    in order, trimmed, without the blank ones.
  */
  lemma {:induction false} GenreListReads(names: seq<string>, separator: char)
    requires names != [] && separator in {',', '/', '|', ';'} && forall i :: 0 <= i < |names| ==> IsName(names[i])
    ensures |TrimAll(names)| == |names| && forall i :: 0 <= i < |names| ==> TrimAll(names)[i] == Trim(names[i])
    ensures SplitGenres(Some(Listed(names, separator))) == Filter(TrimAll(names), (name: string) => name != "")
    ensures SplitGenres(None) == []
  {
    TrimmedOneByOne(names);
    ListedNamesAreSplit(names, separator);
    assert TrimAll([""]) == [Trim("")];
  }

  // ---- Members ----

  lemma {:induction false} MembersSplit(a: seq<Offer>, b: seq<Offer>, key: string)
    ensures Members(a + b, key) == Members(a, key) + Members(b, key)
  {
    if b == [] {
      assert a + b == a;
    } else {
      var n := |b| - 1;
      assert (a + b)[..|a + b| - 1] == a + b[..n];
      MembersSplit(a, b[..n], key);
    }
  }

  lemma {:induction false} GenreMembers(
    item: Item, genres: seq<string>, seen: set<string>, norm: string -> string, key: string)
    ensures Members(GenreOffers(item, genres, seen, norm), key)
            == if key != "" && key !in seen && (exists i :: 0 <= i < |genres| && norm(genres[i]) == key) then [item] else []
  {
    if genres != [] {
      var first, rest := norm(genres[0]), genres[1..];
      var skips := first == "" || first in seen;
      GenreMembers(item, rest, if skips then seen else seen + {first}, norm, key);
      assert (exists i :: 0 <= i < |genres| && norm(genres[i]) == key)
             <==> first == key || exists i :: 0 <= i < |rest| && norm(rest[i]) == key by {
        if i :| 0 <= i < |genres| && norm(genres[i]) == key {
          assert i > 0 ==> rest[i - 1] == genres[i];
        }
        if i :| 0 <= i < |rest| && norm(rest[i]) == key {
          assert genres[i + 1] == rest[i];
        }
      }
      if !skips {
        MembersSplit([Offer(first, genres[0], item)], GenreOffers(item, rest, seen + {first}, norm), key);
      }
    }
  }

  /** An item is offered at most once under a key, and exactly when it belongs there. */
  lemma {:induction false} OneOfferPerKey(
    kind: Kind, item: Item, inSeries: set<int>, norm: string -> string, key: string)
    ensures Members(OfferOf(kind, item, inSeries, norm), key)
            == if Belongs(kind, item, inSeries, norm, key) then [item] else []
  {
    if kind.Genre? {
      GenreMembers(item, SplitGenres(item.genre), {}, norm, key);
    }
  }

  /** The members collected under a key are the items that belong there, in library order. */
  lemma {:induction false} MembersAreBelonging(
    kind: Kind, items: seq<Item>, inSeries: set<int>, norm: string -> string, key: string)
    ensures Members(Offers(kind, items, inSeries, norm), key) == BelongingIn(kind, items, inSeries, norm, key)
  {
    if items != [] {
      var n := |items| - 1;
      MembersAreBelonging(kind, items[..n], inSeries, norm, key);
      OneOfferPerKey(kind, items[n], inSeries, norm, key);
      MembersSplit(Offers(kind, items[..n], inSeries, norm), OfferOf(kind, items[n], inSeries, norm), key);
    }
  }

  lemma {:induction false} KeysAreOffered(offers: seq<Offer>, key: string)
    ensures key in Keys(offers) <==> Members(offers, key) != []
  {
    if offers != [] {
      var n := |offers| - 1;
      KeysAreOffered(offers[..n], key);
      InsertHolds(offers[n].key, Keys(offers[..n]), StringLe, key);
    }
  }

  lemma StringLeIsOrdering()
    ensures Ordering(StringLe)
  {
    forall a: string, b: string ensures StringLe(a, b) || StringLe(b, a) {
      StringLeIsTotal(a, b);
    }
    forall a: string, b: string, c: string | StringLe(a, b) && StringLe(b, c) ensures StringLe(a, c) {
      StringLeIsTransitive(a, b, c);
    }
  }

  /** The keys come in order, each once. */
  lemma {:induction false} KeysAreDistinct(offers: seq<Offer>)
    ensures Sorted(Keys(offers), StringLe) && NoRepeats(Keys(offers))
  {
    if offers != [] {
      var n := |offers| - 1;
      var before, key := Keys(offers[..n]), offers[n].key;
      KeysAreDistinct(offers[..n]);
      StringLeIsOrdering();
      InsertSorts(key, before, StringLe);
      InsertCounts(key, before, StringLe);
      if key !in before {
        assert NoRepeats([key] + before);
        assert multiset(Insert(key, before, StringLe)) == multiset([key] + before);
        FewerHaveNoRepeats(Insert(key, before, StringLe), [key] + before);
      }
    }
  }

  lemma ItemLeIsOrdering(kind: Kind)
    ensures Ordering(ItemLe(kind))
  {
    StringLeIsOrdering();
    match kind
    case Series => assert Ordering(SeriesLe);
    case Franchise => assert Ordering(FranchiseLe);
    case Genre => assert Ordering(GenreLe);
  }

  // ---- Which keys get a group ----

  ghost function MembersOf(kind: Kind, items: seq<Item>, norm: string -> string, key: string): seq<Item> {
    BelongingIn(kind, items, SeriesIds(items), norm, key)
  }

  /** Enough members for a group of its kind, and at least one. */
  ghost predicate BigEnough(kind: Kind, items: seq<Item>, settings: Settings, norm: string -> string, key: string) {
    var size := |MembersOf(kind, items, norm, key)|;
    && size > 0 && size >= settings.minItems
    && (kind.Series? ==> key != "")
    && (kind.Genre? ==> size >= 3)
  }

  ghost predicate HasGroup(kind: Kind, items: seq<Item>, settings: Settings, norm: string -> string, key: string) {
    key in Chosen(kind, Offers(kind, items, SeriesIds(items), norm), settings)
  }

  lemma {:induction false} LargeIsBigEnough(
    kind: Kind, items: seq<Item>, settings: Settings, norm: string -> string, key: string)
    ensures var offers := Offers(kind, items, SeriesIds(items), norm);
            key in Filter(Keys(offers), (key: string) => Large(kind, offers, settings, key))
            <==> BigEnough(kind, items, settings, norm, key)
  {
    var offers := Offers(kind, items, SeriesIds(items), norm);
    FilterHolds(Keys(offers), (key: string) => Large(kind, offers, settings, key), key);
    KeysAreOffered(offers, key);
    MembersAreBelonging(kind, items, SeriesIds(items), norm, key);
  }

  /** A series or franchise gets a group exactly when it is big enough. */
  lemma SeriesAndFranchisesAreComplete(
    kind: Kind, items: seq<Item>, settings: Settings, norm: string -> string, key: string)
    requires !kind.Genre?
    ensures HasGroup(kind, items, settings, norm, key) <==> BigEnough(kind, items, settings, norm, key)
  {
    LargeIsBigEnough(kind, items, settings, norm, key);
  }

  lemma RankedGenres(items: seq<Item>, settings: Settings, norm: string -> string) returns (ranked: seq<string>)
    ensures forall key :: key in ranked <==> BigEnough(Genre, items, settings, norm, key)
    ensures forall i, j :: 0 <= i < j < |ranked| ==>
              |MembersOf(Genre, items, norm, ranked[i])| >= |MembersOf(Genre, items, norm, ranked[j])|
    ensures Chosen(Genre, Offers(Genre, items, SeriesIds(items), norm), settings)
            == if |ranked| <= settings.topGenres then ranked else ranked[..settings.topGenres]
  {
    var offers := Offers(Genre, items, SeriesIds(items), norm);
    var large := Filter(Keys(offers), (key: string) => Large(Genre, offers, settings, key));
    var order := (a: string, b: string) => BiggerFirst(offers, a, b);
    ranked := SortBy(large, order);
    SortByLength(large, order);
    forall key ensures key in ranked <==> BigEnough(Genre, items, settings, norm, key) {
      LargeIsBigEnough(Genre, items, settings, norm, key);
    }
    StringLeIsOrdering();
    assert Ordering(order);
    SortBySorts(large, order);
    forall i, j | 0 <= i < j < |ranked|
      ensures |MembersOf(Genre, items, norm, ranked[i])| >= |MembersOf(Genre, items, norm, ranked[j])|
    {
      assert order(ranked[i], ranked[j]);
      MembersAreBelonging(Genre, items, SeriesIds(items), norm, ranked[i]);
      MembersAreBelonging(Genre, items, SeriesIds(items), norm, ranked[j]);
    }
  }

  /** Only big enough genres are chosen, and none that is passed over has more members than a chosen one. */
  lemma ChosenGenresAreTheLargest(
    items: seq<Item>, settings: Settings, norm: string -> string, chosen: string, other: string)
    requires HasGroup(Genre, items, settings, norm, chosen)
    ensures BigEnough(Genre, items, settings, norm, chosen)
    ensures BigEnough(Genre, items, settings, norm, other) && !HasGroup(Genre, items, settings, norm, other) ==>
              |MembersOf(Genre, items, norm, other)| <= |MembersOf(Genre, items, norm, chosen)|
              && |GroupsOf(Genre, items, settings, norm)| == settings.topGenres
  {
    var ranked := RankedGenres(items, settings, norm);
    var keys := Chosen(Genre, Offers(Genre, items, SeriesIds(items), norm), settings);
    var i :| 0 <= i < |keys| && keys[i] == chosen;
    assert ranked[i] == chosen;
    if other in ranked && other !in keys {
      var j :| 0 <= j < |ranked| && ranked[j] == other;
      assert forall k :: 0 <= k < |keys| ==> ranked[k] == keys[k] != other;
    }
  }

  /** No more genres are grouped than the settings allow. */
  lemma GenresAreFew(items: seq<Item>, settings: Settings, norm: string -> string)
    ensures |GroupsOf(Genre, items, settings, norm)| <= settings.topGenres
  {
  }

  lemma {:induction false} LargeAreDistinct(kind: Kind, offers: seq<Offer>, settings: Settings)
    ensures NoRepeats(Filter(Keys(offers), (key: string) => Large(kind, offers, settings, key)))
  {
    var keep := (key: string) => Large(kind, offers, settings, key);
    KeysAreDistinct(offers);
    FilterIsFewer(Keys(offers), keep);
    FewerHaveNoRepeats(Filter(Keys(offers), keep), Keys(offers));
  }

  lemma {:induction false} SortedStayDistinct<T(!new)>(s: seq<T>, le: (T, T) -> bool)
    requires NoRepeats(s)
    ensures NoRepeats(SortBy(s, le))
  {
    SortBySorts(s, le);
    FewerHaveNoRepeats(SortBy(s, le), s);
  }

  lemma ChosenAreDistinct(kind: Kind, offers: seq<Offer>, settings: Settings)
    ensures NoRepeats(Chosen(kind, offers, settings))
  {
    LargeAreDistinct(kind, offers, settings);
    SortedStayDistinct(Filter(Keys(offers), (key: string) => Large(kind, offers, settings, key)),
                       (a: string, b: string) => BiggerFirst(offers, a, b));
  }

  // ---- What a group holds ----

  ghost predicate ComesFromAKey(g: Group, items: seq<Item>, settings: Settings, norm: string -> string) {
    && HasGroup(g.kind, items, settings, norm, g.key)
    && g == GroupFor(g.kind, Offers(g.kind, items, SeriesIds(items), norm), g.key)
  }

  lemma GroupsOfComeFromKeys(kind: Kind, items: seq<Item>, settings: Settings, norm: string -> string, k: nat)
    requires k < |GroupsOf(kind, items, settings, norm)|
    ensures ComesFromAKey(GroupsOf(kind, items, settings, norm)[k], items, settings, norm)
  {
    var keys := Chosen(kind, Offers(kind, items, SeriesIds(items), norm), settings);
    assert keys[k] in keys;
  }

  lemma PartOf<T>(a: seq<T>, b: seq<T>, c: seq<T>, i: nat)
    requires i < |a + b + c|
    ensures (a + b + c)[i] == if i < |a| then a[i] else if i < |a| + |b| then b[i - |a|] else c[i - (|a| + |b|)]
  {
  }

  /** A group of the library is the group of a chosen key of its kind. */
  lemma GroupComesFromAKey(items: seq<Item>, settings: Settings, norm: string -> string, i: nat)
    requires i < |Groups(items, settings, norm)|
    ensures ComesFromAKey(Groups(items, settings, norm)[i], items, settings, norm)
  {
    var a, b := GroupsOf(Series, items, settings, norm), GroupsOf(Franchise, items, settings, norm);
    PartOf(a, b, GroupsOf(Genre, items, settings, norm), i);
    if i < |a| {
      GroupsOfComeFromKeys(Series, items, settings, norm, i);
    } else if i < |a| + |b| {
      GroupsOfComeFromKeys(Franchise, items, settings, norm, i - |a|);
    } else {
      GroupsOfComeFromKeys(Genre, items, settings, norm, i - (|a| + |b|));
    }
  }

  lemma ChosenIsBigEnough(kind: Kind, items: seq<Item>, settings: Settings, norm: string -> string, key: string)
    requires HasGroup(kind, items, settings, norm, key)
    ensures BigEnough(kind, items, settings, norm, key)
  {
    if kind.Genre? {
      var ranked := RankedGenres(items, settings, norm);
      assert key in ranked;
    } else {
      LargeIsBigEnough(kind, items, settings, norm, key);
    }
  }

  /**
    Every group holds exactly the items that belong under its key, in the order of its
    kind, and at least as many as the settings ask for.
  */
  lemma GroupHoldsItsMembersInOrder(items: seq<Item>, settings: Settings, norm: string -> string, i: nat)
    returns (ordered: seq<Item>)
    requires i < |Groups(items, settings, norm)|
    ensures var g := Groups(items, settings, norm)[i];
            && HasGroup(g.kind, items, settings, norm, g.key) && BigEnough(g.kind, items, settings, norm, g.key)
            && multiset(ordered) == multiset(MembersOf(g.kind, items, norm, g.key)) && Sorted(ordered, ItemLe(g.kind))
            && g.itemIds == Ids(ordered) && g.poster == FirstPoster(ordered)
  {
    var g := Groups(items, settings, norm)[i];
    GroupComesFromAKey(items, settings, norm, i);
    ChosenIsBigEnough(g.kind, items, settings, norm, g.key);
    var members := Members(Offers(g.kind, items, SeriesIds(items), norm), g.key);
    ordered := SortBy(members, ItemLe(g.kind));
    MembersAreBelonging(g.kind, items, SeriesIds(items), norm, g.key);
    ItemLeIsOrdering(g.kind);
    SortBySorts(members, ItemLe(g.kind));
  }

  lemma {:induction false} BelongingHolds(
    kind: Kind, items: seq<Item>, inSeries: set<int>, norm: string -> string, key: string, item: Item)
    ensures item in BelongingIn(kind, items, inSeries, norm, key)
            <==> item in items && Belongs(kind, item, inSeries, norm, key)
  {
    if items != [] {
      BelongingHolds(kind, items[..|items| - 1], inSeries, norm, key, item);
    }
  }

  lemma {:induction false} SeriesIdsHold(items: seq<Item>, item: Item)
    requires item in items && Eligible(item) && SeriesOf(item).Some?
    ensures item.id in SeriesIds(items)
  {
    var n := |items| - 1;
    if item != items[n] {
      assert item in items[..n];
      SeriesIdsHold(items[..n], item);
    }
  }

  /** An item is grouped unless its media type is "adult" or "music", in whatever case. */
  lemma EligibleExactlyWhen(item: Item)
    ensures Eligible(item)
            <==> !SpellsWord(item.mediaType, "adult", "ADULT") && !SpellsWord(item.mediaType, "music", "MUSIC")
  {
    LowerSpells(item.mediaType, "adult", "ADULT");
    LowerSpells(item.mediaType, "music", "MUSIC");
  }

  /** The text is there, and some character of it is not white. */
  ghost predicate Says(text: Option<string>) {
    text.Some? && HasInk(text.value)
  }

  /** Something names the item's show: its own data, or the release name in its path or in its title. */
  ghost predicate NamesAShow(item: Item) {
    Says(item.seriesTitle)
    || (item.path.episode.Some? && item.path.title != "")
    || (item.release.episode.Some? && item.release.title != "")
  }

  /**
    The show of an episode is the one that its own data name; without such data the one in
    the file's path, if that names an episode, and else the one in the title.
  */
  lemma ShowIs(item: Item)
    ensures SeriesOf(item).Some? <==> NamesAShow(item)
    ensures Says(item.seriesTitle) ==> SeriesOf(item) == item.seriesTitle
    ensures !Says(item.seriesTitle) && item.path.episode.Some? && item.path.title != "" ==>
              SeriesOf(item) == Some(item.path.title)
    ensures !Says(item.seriesTitle) && (item.path.episode.None? || item.path.title == "") && NamesAShow(item) ==>
              SeriesOf(item) == Some(item.release.title)
  {
    if item.seriesTitle.Some? {
      TrimsAwayExactlyWhen(item.seriesTitle.value);
    }
  }

  /** A franchise is the collection that an item names, trimmed. */
  lemma FranchiseIs(item: Item)
    ensures CollectionOf(item) == if Says(item.collectionName) then Some(Trim(item.collectionName.value)) else None
  {
    if item.collectionName.Some? {
      TrimsAwayExactlyWhen(item.collectionName.value);
    }
  }

  /**
    No adult or music item is in any group, and nothing recognised as an episode is in a
    franchise or a genre.
  */
  lemma GroupsLeaveOutAdultMusicAndEpisodes(
    items: seq<Item>, settings: Settings, norm: string -> string, i: nat, id: int)
    requires i < |Groups(items, settings, norm)| && id in Groups(items, settings, norm)[i].itemIds
    ensures exists item :: item in items && item.id == id
              && !SpellsWord(item.mediaType, "adult", "ADULT") && !SpellsWord(item.mediaType, "music", "MUSIC")
    ensures !Groups(items, settings, norm)[i].kind.Series? ==>
              forall item :: item in items && item.id == id && NamesAShow(item) ==>
                SpellsWord(item.mediaType, "adult", "ADULT") || SpellsWord(item.mediaType, "music", "MUSIC")
  {
    var g := Groups(items, settings, norm)[i];
    var ordered := GroupHoldsItsMembersInOrder(items, settings, norm, i);
    var at :| 0 <= at < |ordered| && Ids(ordered)[at] == id;
    var item := ordered[at];
    assert item in multiset(MembersOf(g.kind, items, norm, g.key));
    BelongingHolds(g.kind, items, SeriesIds(items), norm, g.key, item);
    assert item in items && Eligible(item);
    EligibleExactlyWhen(item);
    forall other | other in items && other.id == id && NamesAShow(other)
      ensures Eligible(other) ==> id in SeriesIds(items)
      ensures Eligible(other) <==> !SpellsWord(other.mediaType, "adult", "ADULT")
                                   && !SpellsWord(other.mediaType, "music", "MUSIC")
    {
      ShowIs(other);
      EligibleExactlyWhen(other);
      if Eligible(other) {
        SeriesIdsHold(items, other);
      }
    }
  }

  lemma {:induction false} BelongingIsFewer(
    kind: Kind, items: seq<Item>, inSeries: set<int>, norm: string -> string, key: string)
    ensures multiset(BelongingIn(kind, items, inSeries, norm, key)) <= multiset(items)
  {
    if items != [] {
      var n := |items| - 1;
      BelongingIsFewer(kind, items[..n], inSeries, norm, key);
      assert items == items[..n] + [items[n]];
    }
  }

  /** Where every item has its own id, no group lists an id twice. */
  lemma NoGroupListsAnIdTwice(items: seq<Item>, settings: Settings, norm: string -> string, at: nat)
    requires at < |Groups(items, settings, norm)|
    requires forall i, j :: 0 <= i < j < |items| ==> items[i].id != items[j].id
    ensures NoRepeats(Groups(items, settings, norm)[at].itemIds)
  {
    var g := Groups(items, settings, norm)[at];
    var ordered := GroupHoldsItsMembersInOrder(items, settings, norm, at);
    BelongingIsFewer(g.kind, items, SeriesIds(items), norm, g.key);
    assert NoRepeats(items);
    FewerHaveNoRepeats(ordered, items);
    forall i, j | 0 <= i < j < |ordered| ensures Ids(ordered)[i] != Ids(ordered)[j] {
      assert ordered[i] in multiset(ordered) && ordered[j] in multiset(ordered);
      assert ordered[i] in multiset(items) && ordered[j] in multiset(items);
      var a :| 0 <= a < |items| && items[a] == ordered[i];
      var b :| 0 <= b < |items| && items[b] == ordered[j];
      assert a != b;
    }
  }

  // ---- Keys ----

  lemma FullKeysDiffer(a: Group, b: Group)
    ensures FullKey(a) == FullKey(b) <==> a.kind == b.kind && a.key == b.key
    ensures FullKey(a) == (if a.kind.Series? then "series:" else if a.kind.Franchise? then "franchise:" else "genre:") + a.key
  {
    assert FullKey(a)[0] == Prefix(a.kind)[0] && FullKey(b)[0] == Prefix(b.kind)[0];
    assert FullKey(a)[|Prefix(a.kind)|..] == a.key && FullKey(b)[|Prefix(b.kind)|..] == b.key;
  }

  /** Groups of one kind, each under a key of its own. */
  ghost predicate OneKind(kind: Kind, groups: seq<Group>) {
    && (forall k :: 0 <= k < |groups| ==> groups[k].kind == kind)
    && (forall k, l :: 0 <= k < l < |groups| ==> groups[k].key != groups[l].key)
  }

  lemma GroupsOfAreOneKind(kind: Kind, items: seq<Item>, settings: Settings, norm: string -> string)
    ensures OneKind(kind, GroupsOf(kind, items, settings, norm))
  {
    ChosenAreDistinct(kind, Offers(kind, items, SeriesIds(items), norm), settings);
  }

  lemma KindsStayApart(a: seq<Group>, b: seq<Group>, c: seq<Group>, i: nat, j: nat)
    requires OneKind(Series, a) && OneKind(Franchise, b) && OneKind(Genre, c) && i < j < |a + b + c|
    ensures FullKey((a + b + c)[i]) != FullKey((a + b + c)[j])
  {
    PartOf(a, b, c, i);
    PartOf(a, b, c, j);
    FullKeysDiffer((a + b + c)[i], (a + b + c)[j]);
  }

  /** No two groups are stored under the same key. */
  lemma StoredKeysAreDistinct(items: seq<Item>, settings: Settings, norm: string -> string, i: nat, j: nat)
    requires i < j < |Groups(items, settings, norm)|
    ensures FullKey(Groups(items, settings, norm)[i]) != FullKey(Groups(items, settings, norm)[j])
  {
    GroupsOfAreOneKind(Series, items, settings, norm);
    GroupsOfAreOneKind(Franchise, items, settings, norm);
    GroupsOfAreOneKind(Genre, items, settings, norm);
    KindsStayApart(GroupsOf(Series, items, settings, norm), GroupsOf(Franchise, items, settings, norm),
                   GroupsOf(Genre, items, settings, norm), i, j);
  }
}
