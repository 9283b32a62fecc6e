/**
  What a regrouping keeps when the library's rows are loaded in another order: they are
  selected without one (src-tauri/src/collections.rs, `load_inputs`).
*/
module CollectionOrders {
  import opened Wrappers
  import opened Texts
  import opened Sorting
  import opened Collections
  import opened CollectionFacts

  ghost predicate Recognised(items: seq<Item>, id: int) {
    exists item :: item in items && Eligible(item) && SeriesOf(item).Some? && item.id == id
  }

  lemma {:induction false} SeriesIdsAreRecognised(items: seq<Item>, id: int)
    ensures id in SeriesIds(items) <==> Recognised(items, id)
  {
    if items != [] {
      var before, last := items[..|items| - 1], items[|items| - 1];
      SeriesIdsAreRecognised(before, id);
      assert items == before + [last];
      if Recognised(before, id) {
        var item :| item in before && Eligible(item) && SeriesOf(item).Some? && item.id == id;
        assert item in items;
      }
    }
  }

  lemma SameItems(items: seq<Item>, items': seq<Item>)
    requires multiset(items) == multiset(items')
    ensures forall item :: item in items <==> item in items'
  {
    forall item ensures item in items <==> item in items' {
      assert item in items <==> item in multiset(items);
      assert item in items' <==> item in multiset(items');
    }
  }

  lemma {:induction false} SameSeriesIds(items: seq<Item>, items': seq<Item>)
    requires multiset(items) == multiset(items')
    ensures SeriesIds(items) == SeriesIds(items')
  {
    SameItems(items, items');
    forall id ensures id in SeriesIds(items) <==> id in SeriesIds(items') {
      SeriesIdsAreRecognised(items, id);
      SeriesIdsAreRecognised(items', id);
    }
  }

  lemma {:induction false} BelongingCounts(
    kind: Kind, items: seq<Item>, inSeries: set<int>, norm: string -> string, key: string, x: Item)
    ensures multiset(BelongingIn(kind, items, inSeries, norm, key))[x]
            == if Belongs(kind, x, inSeries, norm, key) then multiset(items)[x] else 0
  {
    if items != [] {
      var before, last := items[..|items| - 1], items[|items| - 1];
      BelongingCounts(kind, before, inSeries, norm, key, x);
      assert items == before + [last];
    }
  }

  lemma SameMembers(kind: Kind, items: seq<Item>, items': seq<Item>, norm: string -> string, key: string)
    requires multiset(items) == multiset(items')
    ensures multiset(MembersOf(kind, items, norm, key)) == multiset(MembersOf(kind, items', norm, key))
    ensures |MembersOf(kind, items, norm, key)| == |MembersOf(kind, items', norm, key)|
  {
    SameSeriesIds(items, items');
    var members, members' := MembersOf(kind, items, norm, key), MembersOf(kind, items', norm, key);
    forall x ensures multiset(members)[x] == multiset(members')[x] {
      BelongingCounts(kind, items, SeriesIds(items), norm, key, x);
      BelongingCounts(kind, items', SeriesIds(items'), norm, key, x);
    }
    assert multiset(members) == multiset(members');
    assert |multiset(members)| == |members| && |multiset(members')| == |members'|;
  }

  lemma TailsAlike<T>(a: seq<T>, b: seq<T>)
    requires a != [] && b != [] && a[0] == b[0] && multiset(a) == multiset(b)
    ensures multiset(a[1..]) == multiset(b[1..])
  {
    assert a == [a[0]] + a[1..] && b == [b[0]] + b[1..];
    assert multiset(a[1..]) == multiset(a) - multiset{a[0]} == multiset(b[1..]);
  }

  lemma SortedHeads<T(!new)>(a: seq<T>, b: seq<T>, le: (T, T) -> bool)
    requires a != [] && b != [] && multiset(a) == multiset(b) && Sorted(a, le) && Sorted(b, le) && (forall x :: le(x, x))
    ensures b[0] in a && le(b[0], a[0]) && le(a[0], b[0])
  {
    assert a[0] in multiset(b) && b[0] in multiset(a);
    var i :| 0 <= i < |b| && b[i] == a[0];
    var j :| 0 <= j < |a| && a[j] == b[0];
  }

  ghost predicate NoTies<T>(s: seq<T>, le: (T, T) -> bool) {
    forall x, y :: x in s && y in s && le(x, y) && le(y, x) ==> x == y
  }

  /** Two sorted lists of the same elements, where no two different elements tie, are the same list. */
  lemma {:induction false} SortedAlike<T(!new)>(a: seq<T>, b: seq<T>, le: (T, T) -> bool)
    requires multiset(a) == multiset(b) && Sorted(a, le) && Sorted(b, le) && (forall x :: le(x, x)) && NoTies(a, le)
    ensures a == b
  {
    assert |multiset(a)| == |a| && |multiset(b)| == |b|;
    if a != [] {
      SortedHeads(a, b, le);
      assert a[0] == b[0];
      TailsAlike(a, b);
      SortedAlike(a[1..], b[1..], le);
      assert a == [a[0]] + a[1..] && b == [b[0]] + b[1..];
    }
  }

  lemma DistinctCounts<T>(s: seq<T>, x: T)
    requires NoRepeats(s)
    ensures multiset(s)[x] == if x in s then 1 else 0
  {
    CountOfDistinct(s, x);
    assert x in s <==> x in multiset(s);
  }

  lemma {:induction false} KeysAlike(a: seq<Offer>, b: seq<Offer>)
    requires forall key :: Members(a, key) == [] <==> Members(b, key) == []
    ensures Keys(a) == Keys(b)
  {
    KeysAreDistinct(a);
    KeysAreDistinct(b);
    forall key ensures multiset(Keys(a))[key] == multiset(Keys(b))[key] {
      KeysAreOffered(a, key);
      KeysAreOffered(b, key);
      DistinctCounts(Keys(a), key);
      DistinctCounts(Keys(b), key);
    }
    assert multiset(Keys(a)) == multiset(Keys(b));
    forall x: string, y: string ensures StringLe(x, x) && (StringLe(x, y) && StringLe(y, x) ==> x == y) {
      StringLeIsTotal(x, y);
      StringLeIsTotal(x, x);
    }
    SortedAlike(Keys(a), Keys(b), StringLe);
  }

  lemma {:induction false} FilterAgrees<T(!new)>(s: seq<T>, keep: T -> bool, keep': T -> bool)
    requires forall x :: keep(x) == keep'(x)
    ensures Filter(s, keep) == Filter(s, keep')
  {
    if s != [] {
      FilterAgrees(s[1..], keep, keep');
    }
  }

  /** Under every key the two lists of offers hold equally many items. */
  ghost predicate EquallyMany(a: seq<Offer>, b: seq<Offer>) {
    forall key :: |Members(a, key)| == |Members(b, key)|
  }

  lemma ChosenAlike(kind: Kind, a: seq<Offer>, b: seq<Offer>, settings: Settings)
    requires EquallyMany(a, b)
    ensures Chosen(kind, a, settings) == Chosen(kind, b, settings)
  {
    forall key ensures Members(a, key) == [] <==> Members(b, key) == [] {
      assert |Members(a, key)| == |Members(b, key)|;
    }
    KeysAlike(a, b);
    var keep, keep' := (key: string) => Large(kind, a, settings, key), (key: string) => Large(kind, b, settings, key);
    FilterAgrees(Keys(a), keep, keep');
    var order, order' := (x: string, y: string) => BiggerFirst(a, x, y), (x: string, y: string) => BiggerFirst(b, x, y);
    SortByAgrees(Filter(Keys(a), keep), order, order');
  }

  /** The same group but for its name, the order of its members and its poster. */
  ghost predicate SameGroup(g: Group, g': Group) {
    g.kind == g'.kind && g.key == g'.key && |g.itemIds| == |g'.itemIds|
    && forall id :: id in g.itemIds <==> id in g'.itemIds
  }

  /** No two different items of the library come equally early in the order of this kind. */
  ghost predicate Untied(kind: Kind, items: seq<Item>) {
    forall x, y :: x in items && y in items && ItemLe(kind)(x, y) && ItemLe(kind)(y, x) ==> x == y
  }

  lemma IdsAlike(a: seq<Item>, b: seq<Item>)
    requires multiset(a) == multiset(b)
    ensures |Ids(a)| == |Ids(b)| && forall id :: id in Ids(a) <==> id in Ids(b)
  {
    SameItems(a, b);
    assert |multiset(a)| == |a| && |multiset(b)| == |b|;
    forall id ensures id in Ids(a) <==> id in Ids(b) {
      IdsHold(a, id);
      IdsHold(b, id);
    }
  }

  lemma IdsHold(items: seq<Item>, id: int)
    ensures id in Ids(items) <==> exists item :: item in items && item.id == id
  {
    if id in Ids(items) {
      var i :| 0 <= i < |items| && Ids(items)[i] == id;
      assert items[i] in items;
    }
    if item :| item in items && item.id == id {
      var i :| 0 <= i < |items| && items[i] == item;
      assert Ids(items)[i] == id;
    }
  }

  lemma {:induction false} SortedMembersAlike(kind: Kind, a: seq<Item>, b: seq<Item>)
    requires multiset(a) == multiset(b)
    ensures multiset(SortBy(a, ItemLe(kind))) == multiset(SortBy(b, ItemLe(kind)))
    ensures Untied(kind, a) ==> SortBy(a, ItemLe(kind)) == SortBy(b, ItemLe(kind))
  {
    var le := ItemLe(kind);
    ItemLeIsOrdering(kind);
    SortBySorts(a, le);
    SortBySorts(b, le);
    if Untied(kind, a) {
      SortByLength(a, le);
      SortedAlike(SortBy(a, le), SortBy(b, le), le);
    }
  }

  lemma {:induction false} GroupsForKeyAlike(
    kind: Kind, items: seq<Item>, items': seq<Item>, norm: string -> string, key: string)
    requires multiset(items) == multiset(items')
    ensures var g, g' := GroupFor(kind, Offers(kind, items, SeriesIds(items), norm), key),
                         GroupFor(kind, Offers(kind, items', SeriesIds(items'), norm), key);
            SameGroup(g, g') && (Untied(kind, items) ==> g'.(name := g.name) == g)
  {
    SameMembers(kind, items, items', norm, key);
    MembersAreBelonging(kind, items, SeriesIds(items), norm, key);
    MembersAreBelonging(kind, items', SeriesIds(items'), norm, key);
    var members, members' := MembersOf(kind, items, norm, key), MembersOf(kind, items', norm, key);
    SortedMembersAlike(kind, members, members');
    IdsAlike(SortBy(members, ItemLe(kind)), SortBy(members', ItemLe(kind)));
    forall x | x in members ensures x in items {
      BelongingHolds(kind, items, SeriesIds(items), norm, key, x);
    }
  }

  /**
    In whatever order the rows are loaded, a kind has the same groups under the same keys,
    in the same order and with the same members.  Where no two items tie, the members are
    also in the same order and the poster is the same; only the name can then differ.
  */
  lemma RegroupingKeepsGroups(
    kind: Kind, items: seq<Item>, items': seq<Item>, settings: Settings, norm: string -> string)
    requires multiset(items) == multiset(items')
    ensures var groups, groups' := GroupsOf(kind, items, settings, norm), GroupsOf(kind, items', settings, norm);
            && |groups| == |groups'|
            && forall i :: 0 <= i < |groups| ==>
                 SameGroup(groups[i], groups'[i]) && (Untied(kind, items) ==> groups'[i].(name := groups[i].name) == groups[i])
  {
    var offers, offers' := Offers(kind, items, SeriesIds(items), norm), Offers(kind, items', SeriesIds(items'), norm);
    forall key ensures |Members(offers, key)| == |Members(offers', key)| {
      MembersAreBelonging(kind, items, SeriesIds(items), norm, key);
      MembersAreBelonging(kind, items', SeriesIds(items'), norm, key);
      SameMembers(kind, items, items', norm, key);
    }
    ChosenAlike(kind, offers, offers', settings);
    var keys := Chosen(kind, offers, settings);
    var groups, groups' := GroupsOf(kind, items, settings, norm), GroupsOf(kind, items', settings, norm);
    forall i | 0 <= i < |keys|
      ensures SameGroup(groups[i], groups'[i]) && (Untied(kind, items) ==> groups'[i].(name := groups[i].name) == groups[i])
    {
      GroupsForKeyAlike(kind, items, items', norm, keys[i]);
    }
  }

  // ---- Ties ----

  /** What comes equally early as `x`. */
  function TiedWith<T>(le: (T, T) -> bool, x: T): T -> bool {
    y => le(x, y) && le(y, x)
  }

  lemma {:induction false} InsertKeepsTies<T(!new)>(x: T, s: seq<T>, le: (T, T) -> bool, z: T)
    requires Ordering(le)
    ensures Filter(Insert(x, s, le), TiedWith(le, z)) == Filter([x] + s, TiedWith(le, z))
  {
    var tied := TiedWith(le, z);
    assert ([x] + s)[1..] == s;
    if s != [] && !le(x, s[0]) {
      InsertKeepsTies(x, s[1..], le, z);
      var rest := s[1..];
      assert ([x] + rest)[1..] == rest;
    }
  }

  /** Sorting is stable: what ties keeps its order. */
  lemma {:induction false} SortKeepsTies<T(!new)>(s: seq<T>, le: (T, T) -> bool, z: T)
    requires Ordering(le)
    ensures Filter(SortBy(s, le), TiedWith(le, z)) == Filter(s, TiedWith(le, z))
  {
    if s != [] {
      SortKeepsTies(s[1..], le, z);
      InsertKeepsTies(s[0], SortBy(s[1..], le), le, z);
      assert ([s[0]] + SortBy(s[1..], le))[1..] == SortBy(s[1..], le);
    }
  }

  /** In both lists the elements that tie come in the same order. */
  ghost predicate TiesAlike<T(!new)>(a: seq<T>, b: seq<T>, le: (T, T) -> bool) {
    forall z :: Filter(a, TiedWith(le, z)) == Filter(b, TiedWith(le, z))
  }

  lemma TailTiesAlike<T(!new)>(a: seq<T>, b: seq<T>, le: (T, T) -> bool)
    requires a != [] && b != [] && a[0] == b[0] && TiesAlike(a, b, le)
    ensures TiesAlike(a[1..], b[1..], le)
  {
    forall z ensures Filter(a[1..], TiedWith(le, z)) == Filter(b[1..], TiedWith(le, z)) {
      var tied := TiedWith(le, z);
      assert Filter(a, tied) == Filter(b, tied);
      if tied(a[0]) {
        assert Filter(a, tied)[1..] == Filter(a[1..], tied) && Filter(b, tied)[1..] == Filter(b[1..], tied);
      }
    }
  }

  lemma {:induction false} SortedWithTiesAlike<T(!new)>(a: seq<T>, b: seq<T>, le: (T, T) -> bool)
    requires Ordering(le) && multiset(a) == multiset(b) && Sorted(a, le) && Sorted(b, le) && TiesAlike(a, b, le)
    ensures a == b
  {
    assert |multiset(a)| == |a| && |multiset(b)| == |b|;
    if a != [] {
      SortedHeads(a, b, le);
      var tied := TiedWith(le, a[0]);
      assert tied(a[0]) && tied(b[0]);
      assert Filter(a, tied)[0] == a[0] && Filter(b, tied)[0] == b[0];
      TailsAlike(a, b);
      TailTiesAlike(a, b, le);
      SortedWithTiesAlike(a[1..], b[1..], le);
      assert a == [a[0]] + a[1..] && b == [b[0]] + b[1..];
    }
  }

  /** Two loads of the same elements sort alike exactly when the elements that tie come in the same order in both. */
  lemma {:induction false} SortsAlikeExactlyWhen<T(!new)>(a: seq<T>, b: seq<T>, le: (T, T) -> bool)
    requires Ordering(le) && multiset(a) == multiset(b)
    ensures SortBy(a, le) == SortBy(b, le) <==> TiesAlike(a, b, le)
  {
    SortBySorts(a, le);
    SortBySorts(b, le);
    forall z
      ensures Filter(SortBy(a, le), TiedWith(le, z)) == Filter(a, TiedWith(le, z))
      ensures Filter(SortBy(b, le), TiedWith(le, z)) == Filter(b, TiedWith(le, z))
    {
      SortKeepsTies(a, le, z);
      SortKeepsTies(b, le, z);
    }
    if TiesAlike(a, b, le) {
      SortedWithTiesAlike(SortBy(a, le), SortBy(b, le), le);
    }
  }

  // ---- Names ----

  /** The first genre with this key. */
  function GenreWith(genres: seq<string>, norm: string -> string, key: string): string {
    if genres == [] then "" else if norm(genres[0]) == key then genres[0] else GenreWith(genres[1..], norm, key)
  }

  /** What an item that belongs under a key calls the group. */
  function NameUnder(kind: Kind, item: Item, norm: string -> string, key: string): string {
    match kind
    case Series => if SeriesOf(item).Some? then SeriesOf(item).value else ""
    case Franchise => if CollectionOf(item).Some? then CollectionOf(item).value else ""
    case Genre => GenreWith(SplitGenres(item.genre), norm, key)
  }

  lemma {:induction false} FirstNameSplits(a: seq<Offer>, b: seq<Offer>, key: string)
    ensures FirstName(a + b, key) == if Members(a, key) != [] then FirstName(a, key) else FirstName(b, key)
  {
    if b == [] {
      assert a + b == a;
      if Members(a, key) == [] {
        NoMembersNoName(a, key);
      }
    } else {
      var n := |b| - 1;
      assert (a + b)[..|a + b| - 1] == a + b[..n];
      FirstNameSplits(a, b[..n], key);
      MembersSplit(a, b[..n], key);
    }
  }

  lemma {:induction false} NoMembersNoName(offers: seq<Offer>, key: string)
    requires Members(offers, key) == []
    ensures FirstName(offers, key) == ""
  {
    if offers != [] {
      NoMembersNoName(offers[..|offers| - 1], key);
    }
  }

  lemma {:induction false} GenreOffersName(
    item: Item, genres: seq<string>, seen: set<string>, norm: string -> string, key: string)
    requires key != "" && key !in seen
    ensures FirstName(GenreOffers(item, genres, seen, norm), key) == GenreWith(genres, norm, key)
  {
    if genres != [] {
      var first, rest := norm(genres[0]), genres[1..];
      if first == key {
        var head := [Offer(first, genres[0], item)];
        FirstNameSplits(head, GenreOffers(item, rest, seen + {first}, norm), key);
        assert Members(head, key) == [item] && FirstName(head, key) == genres[0];
      } else if first == "" || first in seen {
        GenreOffersName(item, rest, seen, norm, key);
      } else {
        GenreOffersName(item, rest, seen + {first}, norm, key);
        var head := [Offer(first, genres[0], item)];
        FirstNameSplits(head, GenreOffers(item, rest, seen + {first}, norm), key);
        assert Members(head, key) == [];
      }
    }
  }

  lemma {:induction false} OfferedName(kind: Kind, item: Item, inSeries: set<int>, norm: string -> string, key: string)
    requires Belongs(kind, item, inSeries, norm, key)
    ensures FirstName(OfferOf(kind, item, inSeries, norm), key) == NameUnder(kind, item, norm, key)
  {
    if kind.Genre? {
      GenreOffersName(item, SplitGenres(item.genre), {}, norm, key);
    }
  }

  /** A group is named by the first item that belongs to it, in the order in which the rows are loaded. */
  lemma {:induction false} NamedByTheFirst(
    kind: Kind, items: seq<Item>, inSeries: set<int>, norm: string -> string, key: string)
    ensures var members := BelongingIn(kind, items, inSeries, norm, key);
            FirstName(Offers(kind, items, inSeries, norm), key)
            == if members == [] then "" else NameUnder(kind, members[0], norm, key)
  {
    if items != [] {
      var before, last := items[..|items| - 1], items[|items| - 1];
      NamedByTheFirst(kind, before, inSeries, norm, key);
      MembersAreBelonging(kind, before, inSeries, norm, key);
      FirstNameSplits(Offers(kind, before, inSeries, norm), OfferOf(kind, last, inSeries, norm), key);
      OneOfferPerKey(kind, last, inSeries, norm, key);
      if Belongs(kind, last, inSeries, norm, key) {
        OfferedName(kind, last, inSeries, norm, key);
      } else {
        NoMembersNoName(OfferOf(kind, last, inSeries, norm), key);
      }
    }
  }

  // ---- What depends on the order of loading ----

  ghost function GroupUnder(kind: Kind, items: seq<Item>, norm: string -> string, key: string): Group {
    GroupFor(kind, Offers(kind, items, SeriesIds(items), norm), key)
  }

  lemma GroupUnderIs(kind: Kind, items: seq<Item>, norm: string -> string, key: string)
    requires MembersOf(kind, items, norm, key) != []
    ensures var g, members := GroupUnder(kind, items, norm, key), MembersOf(kind, items, norm, key);
            && g.name == NameUnder(kind, members[0], norm, key)
            && g.itemIds == Ids(SortBy(members, ItemLe(kind))) && g.poster == FirstPoster(SortBy(members, ItemLe(kind)))
  {
    NamedByTheFirst(kind, items, SeriesIds(items), norm, key);
    MembersAreBelonging(kind, items, SeriesIds(items), norm, key);
  }

  lemma {:induction false} IdsTellApart(a: seq<Item>, b: seq<Item>)
    requires Ids(a) == Ids(b)
    requires forall x, y :: x in a && y in b && x.id == y.id ==> x == y
    ensures a == b
  {
    assert |Ids(a)| == |a| && |Ids(b)| == |b|;
    forall i | 0 <= i < |a| ensures a[i] == b[i] {
      assert Ids(a)[i] == Ids(b)[i] && a[i] in a && b[i] in b;
    }
  }

  ghost predicate DistinctIds(items: seq<Item>) {
    forall x, y :: x in items && y in items && x.id == y.id ==> x == y
  }

  /**
    What a regrouping keeps of a group, exactly.  Its name stays if and only if the first
    item loaded for it calls it the same; the order of its members stays if and only if
    those that tie are loaded in the same order, and then its poster stays, too.
  */
  lemma GroupStaysExactlyWhen(kind: Kind, items: seq<Item>, items': seq<Item>, norm: string -> string, key: string)
    requires multiset(items) == multiset(items') && DistinctIds(items) && MembersOf(kind, items, norm, key) != []
    ensures MembersOf(kind, items', norm, key) != []
    ensures var g, g' := GroupUnder(kind, items, norm, key), GroupUnder(kind, items', norm, key);
            var members, members' := MembersOf(kind, items, norm, key), MembersOf(kind, items', norm, key);
            && (g'.name == g.name <==> NameUnder(kind, members'[0], norm, key) == NameUnder(kind, members[0], norm, key))
            && (g'.itemIds == g.itemIds <==> TiesAlike(members, members', ItemLe(kind)))
            && (g'.itemIds == g.itemIds ==> g'.poster == g.poster)
  {
    SameMembers(kind, items, items', norm, key);
    GroupUnderIs(kind, items, norm, key);
    GroupUnderIs(kind, items', norm, key);
    var le := ItemLe(kind);
    var members, members' := MembersOf(kind, items, norm, key), MembersOf(kind, items', norm, key);
    ItemLeIsOrdering(kind);
    SortsAlikeExactlyWhen(members, members', le);
    if Ids(SortBy(members, le)) == Ids(SortBy(members', le)) {
      SortByLength(members, le);
      SortByLength(members', le);
      SameItems(members, members');
      forall x | x in members ensures x in items {
        BelongingHolds(kind, items, SeriesIds(items), norm, key, x);
      }
      IdsTellApart(SortBy(members, le), SortBy(members', le));
    }
  }
}
