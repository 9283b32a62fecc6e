/**
  The orders of automatic collections, said of the raw fields of an item
  (src-tauri/src/collections.rs:174-185, 219-222, 261-276): what `Collections.ItemLe` and
  the lists of chosen keys mean.
*/
module CollectionRules {
  import opened Wrappers
  import opened Texts
  import opened Sorting
  import opened Collections
  import opened CollectionFacts

  // ---- Inside a group ----

  /** The first number given, or the fallback. */
  function FirstNumber(numbers: seq<Option<int>>, fallback: int): int {
    if numbers == [] then fallback
    else if numbers[0].Some? then numbers[0].value
    else FirstNumber(numbers[1..], fallback)
  }

  /**
    What an item is sorted by before its title, small numbers first.  An episode: its season
    and its number, each from its own data, else from its path, else from its title.  A film
    of a franchise: its year, an unknown one last.  One of a genre: the rating, best first,
    then the year, newest first and an unknown one last.
  */
  function Ranks(kind: Kind, item: Item): seq<int> {
    match kind
    case Series => [FirstNumber([item.season, item.path.season, item.release.season], 0),
                    FirstNumber([item.episode, item.path.episode, item.release.episode], 0)]
    case Franchise => [FirstNumber([item.year], 9999)]
    case Genre => [-FirstNumber([item.rating], 0), if item.year.Some? then 0 else 1, -FirstNumber([item.year], 0)]
  }

  ghost predicate BelowAt(a: seq<int>, b: seq<int>, i: nat) {
    i < |a| && i < |b| && a[i] < b[i] && forall j :: 0 <= j < i ==> a[j] == b[j]
  }

  /** The numbers differ, and at the first place where they do `a` has the smaller one; or the titles decide. */
  ghost predicate Precedes(kind: Kind, a: Item, b: Item) {
    (exists i: nat :: BelowAt(Ranks(kind, a), Ranks(kind, b), i))
    || (Ranks(kind, a) == Ranks(kind, b) && Lexicographic(a.title, b.title))
  }

  lemma BelowIs(a: seq<int>, b: seq<int>)
    requires |a| == |b| && 1 <= |a| <= 3
    ensures (exists i: nat :: BelowAt(a, b, i))
            <==> a[0] < b[0]
                 || (|a| > 1 && a[0] == b[0]
                     && (a[1] < b[1] || (|a| > 2 && a[1] == b[1] && a[2] < b[2])))
  {
    if a[0] < b[0] {
      assert BelowAt(a, b, 0);
    } else if |a| > 1 && a[0] == b[0] && a[1] < b[1] {
      assert BelowAt(a, b, 1);
    } else if |a| > 2 && a[0] == b[0] && a[1] == b[1] && a[2] < b[2] {
      assert BelowAt(a, b, 2);
    }
  }

  lemma {:induction false} FirstOfMore(n: Option<int>, rest: seq<Option<int>>, fallback: int)
    ensures FirstNumber([n] + rest, fallback) == if n.Some? then n.value else FirstNumber(rest, fallback)
  {
    assert ([n] + rest)[1..] == rest;
  }

  lemma {:induction false} FirstOfOne(n: Option<int>, fallback: int)
    ensures FirstNumber([n], fallback) == if n.Some? then n.value else fallback
  {
    FirstOfMore(n, [], fallback);
    assert [n] + [] == [n];
  }

  lemma FirstOfThree(a: Option<nat>, b: Option<nat>, c: Option<nat>)
    ensures FirstNumber([a, b, c], 0) == OrZero(FirstOf(a, b, c))
  {
    FirstOfMore(a, [b, c], 0);
    FirstOfMore(b, [c], 0);
    FirstOfOne(c, 0);
    assert [a] + [b, c] == [a, b, c] && [b] + [c] == [b, c];
  }

  /** The orders of the three kinds are the orders of these numbers, then of the titles. */
  lemma ItemLeMeans(kind: Kind, a: Item, b: Item)
    ensures ItemLe(kind)(a, b) <==> Precedes(kind, a, b)
  {
    var x, y := Ranks(kind, a), Ranks(kind, b);
    BelowIs(x, y);
    StringLeIsLexicographic(a.title, b.title);
    match kind
    case Series =>
      FirstOfThree(a.season, a.path.season, a.release.season);
      FirstOfThree(a.episode, a.path.episode, a.release.episode);
      FirstOfThree(b.season, b.path.season, b.release.season);
      FirstOfThree(b.episode, b.path.episode, b.release.episode);
      assert x == y <==> x[0] == y[0] && x[1] == y[1];
    case Franchise =>
      FirstOfOne(a.year, 9999);
      FirstOfOne(b.year, 9999);
      assert x == y <==> x[0] == y[0];
    case Genre =>
      FirstOfOne(a.rating, 0);
      FirstOfOne(b.rating, 0);
      FirstOfOne(a.year, 0);
      FirstOfOne(b.year, 0);
      assert x == y <==> x[0] == y[0] && x[1] == y[1] && x[2] == y[2];
  }

  /** The members of a group stand in that order, and its poster is the first that one of them has. */
  lemma GroupIsInOrder(items: seq<Item>, settings: Settings, norm: string -> string, i: nat)
    returns (ordered: seq<Item>)
    requires i < |Groups(items, settings, norm)|
    ensures var g := Groups(items, settings, norm)[i];
            && multiset(ordered) == multiset(MembersOf(g.kind, items, norm, g.key))
            && g.itemIds == Ids(ordered)
            && (forall j, k :: 0 <= j < k < |ordered| ==> Precedes(g.kind, ordered[j], ordered[k]))
            && if g.poster.None? then forall j :: 0 <= j < |ordered| ==> !Says(ordered[j].poster)
               else exists j :: IsFirstPoster(ordered, j) && g.poster == ordered[j].poster
  {
    var g := Groups(items, settings, norm)[i];
    ordered := GroupHoldsItsMembersInOrder(items, settings, norm, i);
    forall j, k | 0 <= j < k < |ordered| ensures Precedes(g.kind, ordered[j], ordered[k]) {
      ItemLeMeans(g.kind, ordered[j], ordered[k]);
    }
    FirstPosterIs(ordered);
  }

  ghost predicate IsFirstPoster(items: seq<Item>, j: int) {
    0 <= j < |items| && Says(items[j].poster) && forall k :: 0 <= k < j ==> !Says(items[k].poster)
  }

  lemma {:induction false} FirstPosterIs(items: seq<Item>)
    ensures if FirstPoster(items).None? then forall j :: 0 <= j < |items| ==> !Says(items[j].poster)
            else exists j :: IsFirstPoster(items, j) && FirstPoster(items) == items[j].poster
  {
    if items != [] {
      FirstPosterIs(items[1..]);
      if items[0].poster.Some? {
        TrimsAwayExactlyWhen(items[0].poster.value);
      }
      if Says(items[0].poster) {
        assert IsFirstPoster(items, 0);
      } else {
        assert forall j :: 1 <= j < |items| ==> items[j] == items[1..][j - 1];
        if j :| IsFirstPoster(items[1..], j) && FirstPoster(items[1..]) == items[1..][j].poster {
          assert IsFirstPoster(items, j + 1);
        }
      }
    }
  }

  // ---- Between groups ----

  /** Where a kind stands. */
  function Place(kind: Kind): nat {
    match kind
    case Series => 0
    case Franchise => 1
    case Genre => 2
  }

  /** Series come first, then franchises, then genres; within those by key, but the biggest genres first. */
  ghost predicate Leads(a: Group, b: Group) {
    Place(a.kind) < Place(b.kind)
    || (a.kind == b.kind
        && if a.kind.Genre?
           then |a.itemIds| > |b.itemIds| || (|a.itemIds| == |b.itemIds| && Lexicographic(a.key, b.key))
           else Lexicographic(a.key, b.key))
  }

  lemma {:induction false} SizeOfGroup(kind: Kind, offers: seq<Offer>, key: string)
    ensures |GroupFor(kind, offers, key).itemIds| == |Members(offers, key)|
  {
    SortByLength(Members(offers, key), ItemLe(kind));
  }

  lemma GroupsOfAKindAreInOrder(
    kind: Kind, items: seq<Item>, settings: Settings, norm: string -> string, i: nat, j: nat)
    requires i < j < |GroupsOf(kind, items, settings, norm)|
    ensures Leads(GroupsOf(kind, items, settings, norm)[i], GroupsOf(kind, items, settings, norm)[j])
  {
    var offers := Offers(kind, items, SeriesIds(items), norm);
    var keep := (key: string) => Large(kind, offers, settings, key);
    var large, chosen := Filter(Keys(offers), keep), Chosen(kind, offers, settings);
    StringLeIsOrdering();
    StringLeIsLexicographic(chosen[i], chosen[j]);
    if kind.Genre? {
      var order := (a: string, b: string) => BiggerFirst(offers, a, b);
      assert Ordering(order);
      SortBySorts(large, order);
      assert order(chosen[i], chosen[j]);
      SizeOfGroup(kind, offers, chosen[i]);
      SizeOfGroup(kind, offers, chosen[j]);
    } else {
      KeysAreDistinct(offers);
      FilterKeepsSorted(Keys(offers), keep, StringLe);
    }
  }

  lemma {:induction false} FilterKeepsSorted<T>(s: seq<T>, keep: T -> bool, le: (T, T) -> bool)
    requires Sorted(s, le)
    ensures Sorted(Filter(s, keep), le)
  {
    if s != [] {
      FilterKeepsSorted(s[1..], keep, le);
      var rest := Filter(s[1..], keep);
      forall j | 0 <= j < |rest| ensures le(s[0], rest[j]) {
        FilterHolds(s[1..], keep, rest[j]);
        var k :| 0 <= k < |s[1..]| && s[1..][k] == rest[j];
        assert le(s[0], s[k + 1]);
      }
    }
  }

  ghost predicate LeadInOrder(groups: seq<Group>) {
    forall i, j :: 0 <= i < j < |groups| ==> Leads(groups[i], groups[j])
  }

  lemma KindsAreInOrder(a: seq<Group>, b: seq<Group>, c: seq<Group>)
    requires OneKind(Series, a) && OneKind(Franchise, b) && OneKind(Genre, c)
    requires LeadInOrder(a) && LeadInOrder(b) && LeadInOrder(c)
    ensures LeadInOrder(a + b + c)
  {
    forall i, j | 0 <= i < j < |a + b + c| ensures Leads((a + b + c)[i], (a + b + c)[j]) {
      PartOf(a, b, c, i);
      PartOf(a, b, c, j);
    }
  }

  lemma KindIsInOrder(kind: Kind, items: seq<Item>, settings: Settings, norm: string -> string)
    ensures OneKind(kind, GroupsOf(kind, items, settings, norm)) && LeadInOrder(GroupsOf(kind, items, settings, norm))
  {
    GroupsOfAreOneKind(kind, items, settings, norm);
    var groups := GroupsOf(kind, items, settings, norm);
    forall i, j | 0 <= i < j < |groups| ensures Leads(groups[i], groups[j]) {
      GroupsOfAKindAreInOrder(kind, items, settings, norm, i, j);
    }
  }

  /** The groups of a library come in this order. */
  lemma GroupsComeInOrder(items: seq<Item>, settings: Settings, norm: string -> string)
    ensures LeadInOrder(Groups(items, settings, norm))
  {
    KindIsInOrder(Series, items, settings, norm);
    KindIsInOrder(Franchise, items, settings, norm);
    KindIsInOrder(Genre, items, settings, norm);
    KindsAreInOrder(GroupsOf(Series, items, settings, norm), GroupsOf(Franchise, items, settings, norm),
                    GroupsOf(Genre, items, settings, norm));
  }
}
