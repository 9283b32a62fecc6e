/**
  Automatic collections (src-tauri/src/collections.rs): grouping the library into
  series, franchises and genres.

  An item carries what the release-name parser says of its path and of its title; the
  parser is not part of this model.  A rating is carried as its place in the total order
  of floating-point numbers, zero being 0.  The key normaliser is a parameter: every
  result holds for any of them.
*/
module Collections {
  import opened Wrappers
  import opened Texts
  import opened Sorting

  datatype Parsed = Parsed(title: string, season: Option<nat>, episode: Option<nat>)

  datatype Item = Item(
    id: int,
    title: string,
    mediaType: string,
    year: Option<int>,
    rating: Option<int>,
    genre: Option<string>,
    poster: Option<string>,
    path: Parsed,
    release: Parsed,
    seriesTitle: Option<string>,
    season: Option<nat>,
    episode: Option<nat>,
    collectionName: Option<string>)

  datatype Settings = Settings(topGenres: nat, minItems: nat)

  datatype Kind = Series | Franchise | Genre

  datatype Group = Group(kind: Kind, key: string, name: string, itemIds: seq<int>, poster: Option<string>)

  function Prefix(kind: Kind): string {
    match kind
    case Series => "series:"
    case Franchise => "franchise:"
    case Genre => "genre:"
  }

  /** The key a group is stored under. */
  function FullKey(g: Group): string {
    Prefix(g.kind) + g.key
  }

  // ---- What an item says ----

  function FirstOf<T>(a: Option<T>, b: Option<T>, c: Option<T>): Option<T> {
    if a.Some? then a else if b.Some? then b else c
  }

  function OrZero(n: Option<nat>): nat {
    if n.Some? then n.value else 0
  }

  function SeasonOf(item: Item): Option<nat> {
    FirstOf(item.season, item.path.season, item.release.season)
  }

  function EpisodeOf(item: Item): Option<nat> {
    FirstOf(item.episode, item.path.episode, item.release.episode)
  }

  /** The show an item is recognised as an episode of. */
  function SeriesOf(item: Item): Option<string> {
    if item.seriesTitle.Some? && Trim(item.seriesTitle.value) != "" then item.seriesTitle
    else if item.path.episode.Some? && item.path.title != "" then Some(item.path.title)
    else if item.release.episode.Some? && item.release.title != "" then Some(item.release.title)
    else None
  }

  predicate IsSeparator(c: char) {
    c == ',' || c == '/' || c == '|' || c == ';'
  }

  function SplitAtSeparators(s: string): (parts: seq<string>)
    ensures parts != []
  {
    if s == "" then [""]
    else
      var rest := SplitAtSeparators(s[1..]);
      if IsSeparator(s[0]) then [""] + rest else [[s[0]] + rest[0]] + rest[1..]
  }

  function TrimAll(parts: seq<string>): seq<string> {
    if parts == [] then [] else [Trim(parts[0])] + TrimAll(parts[1..])
  }

  function SplitGenres(genre: Option<string>): seq<string> {
    Filter(TrimAll(SplitAtSeparators(if genre.Some? then genre.value else "")), (part: string) => part != "")
  }

  predicate Eligible(item: Item) {
    Lower(item.mediaType) != "adult" && Lower(item.mediaType) != "music"
  }

  // ---- Contributions ----

  /** An item offered to the group of a key, under a name that counts if it is the first. */
  datatype Offer = Offer(key: string, name: string, item: Item)

  function SeriesOffer(item: Item, norm: string -> string): seq<Offer> {
    if Eligible(item) && SeriesOf(item).Some? then
      [Offer(norm(SeriesOf(item).value), SeriesOf(item).value, item)]
    else
      []
  }

  /** The ids of the items recognised as episodes. */
  function SeriesIds(items: seq<Item>): set<int> {
    if items == [] then {}
    else
      var before, last := SeriesIds(items[..|items| - 1]), items[|items| - 1];
      if Eligible(last) && SeriesOf(last).Some? then before + {last.id} else before
  }

  predicate Loose(item: Item, inSeries: set<int>) {
    Eligible(item) && item.id !in inSeries
  }

  function CollectionOf(item: Item): Option<string> {
    if item.collectionName.Some? && Trim(item.collectionName.value) != "" then Some(Trim(item.collectionName.value))
    else None
  }

  /** One offer for each genre of the item whose key is new. */
  function GenreOffers(item: Item, genres: seq<string>, seen: set<string>, norm: string -> string): seq<Offer> {
    if genres == [] then []
    else if norm(genres[0]) == "" || norm(genres[0]) in seen then GenreOffers(item, genres[1..], seen, norm)
    else [Offer(norm(genres[0]), genres[0], item)] + GenreOffers(item, genres[1..], seen + {norm(genres[0])}, norm)
  }

  function OfferOf(kind: Kind, item: Item, inSeries: set<int>, norm: string -> string): seq<Offer> {
    match kind
    case Series => SeriesOffer(item, norm)
    case Franchise =>
      if Loose(item, inSeries) && CollectionOf(item).Some?
      then [Offer(norm(CollectionOf(item).value), CollectionOf(item).value, item)] else []
    case Genre =>
      if Loose(item, inSeries) then GenreOffers(item, SplitGenres(item.genre), {}, norm) else []
  }

  function Offers(kind: Kind, items: seq<Item>, inSeries: set<int>, norm: string -> string): seq<Offer> {
    if items == [] then []
    else Offers(kind, items[..|items| - 1], inSeries, norm) + OfferOf(kind, items[|items| - 1], inSeries, norm)
  }

  /** The items offered under a key, in order. */
  function Members(offers: seq<Offer>, key: string): seq<Item> {
    if offers == [] then []
    else
      var before, last := Members(offers[..|offers| - 1], key), offers[|offers| - 1];
      if last.key == key then before + [last.item] else before
  }

  /** The name of the first offer under a key. */
  function FirstName(offers: seq<Offer>, key: string): string {
    if offers == [] then ""
    else
      var before, last := offers[..|offers| - 1], offers[|offers| - 1];
      if Members(before, key) == [] && last.key == key then last.name else FirstName(before, key)
  }

  /** The keys offered, each once, in order. */
  function Keys(offers: seq<Offer>): seq<string> {
    if offers == [] then []
    else
      var before, last := Keys(offers[..|offers| - 1]), offers[|offers| - 1];
      if last.key in before then before else Insert(last.key, before, StringLe)
  }

  // ---- Orders ----

  predicate SeriesLe(a: Item, b: Item) {
    var (s, e, s', e') := (OrZero(SeasonOf(a)), OrZero(EpisodeOf(a)), OrZero(SeasonOf(b)), OrZero(EpisodeOf(b)));
    s < s' || (s == s' && (e < e' || (e == e' && StringLe(a.title, b.title))))
  }

  predicate FranchiseLe(a: Item, b: Item) {
    var y, y' := if a.year.Some? then a.year.value else 9999, if b.year.Some? then b.year.value else 9999;
    y < y' || (y == y' && StringLe(a.title, b.title))
  }

  /** Best rated first, then newest, a missing year being oldest, then by title. */
  predicate GenreLe(a: Item, b: Item) {
    var r, r' := if a.rating.Some? then a.rating.value else 0, if b.rating.Some? then b.rating.value else 0;
    r > r' || (r == r' && (NewerYear(a.year, b.year) || (a.year == b.year && StringLe(a.title, b.title))))
  }

  predicate NewerYear(a: Option<int>, b: Option<int>) {
    a.Some? && (b.None? || a.value > b.value)
  }

  function ItemLe(kind: Kind): (Item, Item) -> bool {
    match kind
    case Series => SeriesLe
    case Franchise => FranchiseLe
    case Genre => GenreLe
  }

  function Ids(items: seq<Item>): seq<int> {
    seq(|items|, i requires 0 <= i < |items| => items[i].id)
  }

  function FirstPoster(items: seq<Item>): Option<string> {
    if items == [] then None
    else if items[0].poster.Some? && Trim(items[0].poster.value) != "" then items[0].poster
    else FirstPoster(items[1..])
  }

  // ---- The groups ----

  function GroupFor(kind: Kind, offers: seq<Offer>, key: string): Group {
    var ordered := SortBy(Members(offers, key), ItemLe(kind));
    Group(kind, key, FirstName(offers, key), Ids(ordered), FirstPoster(ordered))
  }

  predicate Large(kind: Kind, offers: seq<Offer>, settings: Settings, key: string) {
    match kind
    case Series => |Members(offers, key)| >= settings.minItems && key != ""
    case Franchise => |Members(offers, key)| >= settings.minItems
    case Genre => |Members(offers, key)| >= (if settings.minItems > 3 then settings.minItems else 3)
  }

  /** More members first, then by key. */
  predicate BiggerFirst(offers: seq<Offer>, a: string, b: string) {
    |Members(offers, a)| > |Members(offers, b)|
    || (|Members(offers, a)| == |Members(offers, b)| && StringLe(a, b))
  }

  function Chosen(kind: Kind, offers: seq<Offer>, settings: Settings): seq<string> {
    var large := Filter(Keys(offers), (key: string) => Large(kind, offers, settings, key));
    if kind.Genre? then
      var ranked := SortBy(large, (a: string, b: string) => BiggerFirst(offers, a, b));
      if |ranked| <= settings.topGenres then ranked else ranked[..settings.topGenres]
    else
      large
  }

  function GroupsFor(kind: Kind, offers: seq<Offer>, keys: seq<string>): seq<Group> {
    seq(|keys|, i requires 0 <= i < |keys| => GroupFor(kind, offers, keys[i]))
  }

  function GroupsOf(kind: Kind, items: seq<Item>, settings: Settings, norm: string -> string): seq<Group> {
    var offers := Offers(kind, items, SeriesIds(items), norm);
    GroupsFor(kind, offers, Chosen(kind, offers, settings))
  }

  function Groups(items: seq<Item>, settings: Settings, norm: string -> string): seq<Group> {
    GroupsOf(Series, items, settings, norm)
    + GroupsOf(Franchise, items, settings, norm)
    + GroupsOf(Genre, items, settings, norm)
  }

  // ---- The loops ----

  datatype Bucket = Bucket(name: string, members: seq<Item>)

  ghost predicate Cell(table: map<string, Bucket>, offers: seq<Offer>, key: string) {
    if Members(offers, key) == [] then key !in table
    else key in table && table[key] == Bucket(FirstName(offers, key), Members(offers, key))
  }

  /** The keys in order, and the table, that collect exactly these offers. */
  ghost predicate Collects(keys: seq<string>, table: map<string, Bucket>, offers: seq<Offer>) {
    && keys == Keys(offers)
    && (forall k :: k in keys <==> k in table)
    && (forall k :: Cell(table, offers, k))
  }

  method AddOffer(keys: seq<string>, table: map<string, Bucket>, offer: Offer, ghost offers: seq<Offer>)
    returns (keys': seq<string>, table': map<string, Bucket>)
    requires Collects(keys, table, offers)
    ensures Collects(keys', table', offers + [offer])
  {
    ghost var more := offers + [offer];
    assert more[..|offers|] == offers;
    keys', table' := keys, table;
    if offer.key !in table' {
      keys' := Insert(offer.key, keys, StringLe);
      table' := table'[offer.key := Bucket(offer.name, [])];
    }
    var bucket := table'[offer.key];
    table' := table'[offer.key := bucket.(members := bucket.members + [offer.item])];
    forall k ensures Cell(table', more, k) && (k in keys' <==> k in table') {
      assert Cell(table, offers, k);
      InsertHolds(offer.key, keys, StringLe, k);
    }
  }

  method GatherSeries(items: seq<Item>, norm: string -> string)
    returns (keys: seq<string>, table: map<string, Bucket>, inSeries: set<int>)
    ensures inSeries == SeriesIds(items)
    ensures Collects(keys, table, Offers(Series, items, SeriesIds(items), norm))
  {
    ghost var ids := SeriesIds(items);
    ghost var offers: seq<Offer> := [];
    keys, table, inSeries := [], map[], {};
    for i := 0 to |items|
      invariant offers == Offers(Series, items[..i], ids, norm) && Collects(keys, table, offers)
      invariant inSeries == SeriesIds(items[..i])
    {
      var item := items[i];
      OffersOfOneMore(Series, items, i, ids, norm);
      SeriesIdsOfOneMore(items, i);
      if Eligible(item) && SeriesOf(item).Some? {
        var show := SeriesOf(item).value;
        keys, table := AddOffer(keys, table, Offer(norm(show), show, item), offers);
        offers := offers + [Offer(norm(show), show, item)];
        inSeries := inSeries + {item.id};
      }
    }
    assert items[..|items|] == items;
  }

  method GatherFranchises(items: seq<Item>, inSeries: set<int>, norm: string -> string)
    returns (keys: seq<string>, table: map<string, Bucket>)
    ensures Collects(keys, table, Offers(Franchise, items, inSeries, norm))
  {
    ghost var offers: seq<Offer> := [];
    keys, table := [], map[];
    for i := 0 to |items|
      invariant offers == Offers(Franchise, items[..i], inSeries, norm) && Collects(keys, table, offers)
    {
      var item := items[i];
      OffersOfOneMore(Franchise, items, i, inSeries, norm);
      if Loose(item, inSeries) && CollectionOf(item).Some? {
        var name := CollectionOf(item).value;
        keys, table := AddOffer(keys, table, Offer(norm(name), name, item), offers);
        offers := offers + [Offer(norm(name), name, item)];
      }
    }
    assert items[..|items|] == items;
  }

  method GatherItemGenres(keys: seq<string>, table: map<string, Bucket>, item: Item, norm: string -> string,
                          ghost before: seq<Offer>)
    returns (keys': seq<string>, table': map<string, Bucket>)
    requires Collects(keys, table, before)
    ensures Collects(keys', table', before + GenreOffers(item, SplitGenres(item.genre), {}, norm))
  {
    keys', table' := keys, table;
    var genres := SplitGenres(item.genre);
    var seen: set<string> := {};
    ghost var offers := before;
    for j := 0 to |genres|
      invariant Collects(keys', table', offers)
      invariant offers + GenreOffers(item, genres[j..], seen, norm) == before + GenreOffers(item, genres, {}, norm)
    {
      var key := norm(genres[j]);
      assert genres[j..][1..] == genres[j + 1..];
      if key != "" && key !in seen {
        var offer := Offer(key, genres[j], item);
        ghost var rest := GenreOffers(item, genres[j + 1..], seen + {key}, norm);
        assert offers + ([offer] + rest) == (offers + [offer]) + rest;
        seen := seen + {key};
        keys', table' := AddOffer(keys', table', offer, offers);
        offers := offers + [offer];
      }
    }
    assert offers + [] == offers;
  }

  method GatherGenres(items: seq<Item>, inSeries: set<int>, norm: string -> string)
    returns (keys: seq<string>, table: map<string, Bucket>)
    ensures Collects(keys, table, Offers(Genre, items, inSeries, norm))
  {
    ghost var offers: seq<Offer> := [];
    keys, table := [], map[];
    for i := 0 to |items|
      invariant offers == Offers(Genre, items[..i], inSeries, norm) && Collects(keys, table, offers)
    {
      var item := items[i];
      OffersOfOneMore(Genre, items, i, inSeries, norm);
      if Loose(item, inSeries) {
        keys, table := GatherItemGenres(keys, table, item, norm, offers);
        offers := offers + GenreOffers(item, SplitGenres(item.genre), {}, norm);
      }
    }
    assert items[..|items|] == items;
  }

  lemma SeriesIdsOfOneMore(items: seq<Item>, i: nat)
    requires i < |items|
    ensures SeriesIds(items[..i + 1])
            == SeriesIds(items[..i]) + if Eligible(items[i]) && SeriesOf(items[i]).Some? then {items[i].id} else {}
  {
    assert items[..i + 1][..i] == items[..i];
  }

  lemma {:induction false} OffersOfOneMore(
    kind: Kind, items: seq<Item>, i: nat, inSeries: set<int>, norm: string -> string)
    requires i < |items|
    ensures Offers(kind, items[..i + 1], inSeries, norm)
            == Offers(kind, items[..i], inSeries, norm) + OfferOf(kind, items[i], inSeries, norm)
  {
    assert items[..i + 1][..i] == items[..i];
  }

  /** The groups of the chosen keys, out of the table. */
  method Emit(kind: Kind, keys: seq<string>, table: map<string, Bucket>, chosen: seq<string>, ghost offers: seq<Offer>)
    returns (groups: seq<Group>)
    requires Collects(keys, table, offers) && forall k :: k in chosen ==> k in keys
    ensures groups == GroupsFor(kind, offers, chosen)
  {
    groups := [];
    for i := 0 to |chosen|
      invariant groups == GroupsFor(kind, offers, chosen[..i])
    {
      assert Cell(table, offers, chosen[i]);
      var bucket := table[chosen[i]];
      var ordered := SortBy(bucket.members, ItemLe(kind));
      groups := groups + [Group(kind, chosen[i], bucket.name, Ids(ordered), FirstPoster(ordered))];
    }
    assert chosen[..|chosen|] == chosen;
  }

  /** The keys whose group is large enough, in order. */
  method KeepLarge(kind: Kind, settings: Settings, keys: seq<string>, table: map<string, Bucket>, ghost offers: seq<Offer>)
    returns (large: seq<string>)
    requires Collects(keys, table, offers)
    ensures large == Filter(keys, (key: string) => Large(kind, offers, settings, key))
  {
    ghost var keep := (key: string) => Large(kind, offers, settings, key);
    large := [];
    for i := 0 to |keys|
      invariant large == Filter(keys[..i], keep)
    {
      var key := keys[i];
      assert Cell(table, offers, key);
      var size := |table[key].members|;
      assert keys[..i + 1] == keys[..i] + [key];
      FilterSplits(keys[..i], [key], keep);
      assert Filter([key], keep) == if keep(key) then [key] else [];
      var enough := match kind
        case Series => size >= settings.minItems && key != ""
        case Franchise => size >= settings.minItems
        case Genre => size >= (if settings.minItems > 3 then settings.minItems else 3);
      if enough {
        large := large + [key];
      }
    }
    assert keys[..|keys|] == keys;
  }

  method BuildGroups(items: seq<Item>, settings: Settings, norm: string -> string) returns (groups: seq<Group>)
    ensures groups == Groups(items, settings, norm)
  {
    ghost var ids := SeriesIds(items);
    var seriesKeys, series, inSeries := GatherSeries(items, norm);
    ghost var offers := Offers(Series, items, ids, norm);
    var chosen := KeepLarge(Series, settings, seriesKeys, series, offers);
    KeptAreKeys(Series, offers, settings);
    groups := Emit(Series, seriesKeys, series, chosen, offers);

    var franchiseKeys, franchises := GatherFranchises(items, inSeries, norm);
    offers := Offers(Franchise, items, ids, norm);
    chosen := KeepLarge(Franchise, settings, franchiseKeys, franchises, offers);
    KeptAreKeys(Franchise, offers, settings);
    var more := Emit(Franchise, franchiseKeys, franchises, chosen, offers);
    groups := groups + more;

    var genreKeys, genres := GatherGenres(items, inSeries, norm);
    offers := Offers(Genre, items, ids, norm);
    chosen := KeepLarge(Genre, settings, genreKeys, genres, offers);
    KeptAreKeys(Genre, offers, settings);
    chosen := RankGenres(settings, genreKeys, genres, chosen, offers);
    more := Emit(Genre, genreKeys, genres, chosen, offers);
    groups := groups + more;
  }

  method RankGenres(settings: Settings, keys: seq<string>, table: map<string, Bucket>, large: seq<string>,
                    ghost offers: seq<Offer>)
    returns (chosen: seq<string>)
    requires Collects(keys, table, offers) && forall k :: k in large ==> k in keys
    requires large == Filter(Keys(offers), (key: string) => Large(Genre, offers, settings, key))
    ensures chosen == Chosen(Genre, offers, settings) && forall k :: k in chosen ==> k in keys
  {
    var order := (a: string, b: string) =>
      a in table && b in table
      && (|table[a].members| > |table[b].members| || (|table[a].members| == |table[b].members| && StringLe(a, b)));
    ghost var order' := (a: string, b: string) => BiggerFirst(offers, a, b);
    forall a, b | a in large && b in large ensures order(a, b) == order'(a, b) {
      assert Cell(table, offers, a) && Cell(table, offers, b);
    }
    SortByAgrees(large, order, order');
    SortByLength(large, order);
    var ranked := SortBy(large, order);
    chosen := if |ranked| <= settings.topGenres then ranked else ranked[..settings.topGenres];
  }

  lemma {:induction false} KeptAreKeys(kind: Kind, offers: seq<Offer>, settings: Settings)
    ensures var keep := (key: string) => Large(kind, offers, settings, key);
            forall k :: k in Filter(Keys(offers), keep) ==> k in Keys(offers)
  {
    var keep := (key: string) => Large(kind, offers, settings, key);
    forall k | k in Filter(Keys(offers), keep) ensures k in Keys(offers) {
      FilterHolds(Keys(offers), keep, k);
    }
  }
}
