/** What the view functions compute, and what that means in a reachable state. */
module Views {
  import opened Basics
  import opened Market
  import opened Registry
  import opened Records
  import opened Reachability
  import opened Text

  const EMPTY_COLLECTION := Collection(ZERO_ADDRESS, [], [], [], ZERO_ADDRESS, false, 0, [], 0)

  datatype CollectionDetails = CollectionDetails(basic: Collection, floorPrice: Uint256, totalVolume: Uint256, ownerCount: Uint256)

  datatype SearchResult = SearchResult(
    collectionAddress: Address, name: Bytes, symbol: Bytes, category: Bytes,
    totalSupply: Uint256, floorPrice: Uint256, isActive: bool)

  function CollectionAt(r: Register, c: Address): Collection {
    Lookup(r.collections, c, EMPTY_COLLECTION)
  }

  // ---- Floor price ----

  /** The lowest price among the listed `ids` that are on sale, or the largest word. */
  function LowestPrice(b: Book, c: Address, ids: seq<Uint256>): Uint256 {
    if ids == [] then MAX_UINT256 else
    var lowest := LowestPrice(b, c, ids[..|ids| - 1]);
    var item := b.Item(TokenKey(c, ids[|ids| - 1]));
    if item.isOnSale && item.price < lowest then item.price else lowest
  }

  function FloorPrice(b: Book, c: Address): Uint256 {
    var lowest := LowestPrice(b, c, b.TokenIds(c));
    if lowest == MAX_UINT256 then 0 else lowest
  }

  lemma {:induction false} LowestPriceIsMinimum(b: Book, c: Address, ids: seq<Uint256>)
    ensures forall t | t in ids && b.Item(TokenKey(c, t)).isOnSale :: LowestPrice(b, c, ids) <= b.Item(TokenKey(c, t)).price
    ensures LowestPrice(b, c, ids) < MAX_UINT256 ==> exists t :: t in ids && b.Item(TokenKey(c, t)).isOnSale && b.Item(TokenKey(c, t)).price == LowestPrice(b, c, ids)
  {
    if ids != [] {
      var init, last := ids[..|ids| - 1], ids[|ids| - 1];
      LowestPriceIsMinimum(b, c, init);
      assert ids == init + [last];
    }
  }

  /**
   * The floor price is the least price over all records of the collection that are on sale, found through the
   * index or not; it is 0 if there are none or if that least price is the largest word.
   */
  lemma FloorPriceIsMinimum(start: map<Address, nat>, s: State, c: Address)
    requires Reachable(start, s)
    ensures var p := FloorPrice(s.book, c);
      if exists t: Uint256 :: s.book.Item(TokenKey(c, t)).isOnSale && s.book.Item(TokenKey(c, t)).price < MAX_UINT256
      then
        && (exists t: Uint256 :: s.book.Item(TokenKey(c, t)).isOnSale && s.book.Item(TokenKey(c, t)).price == p)
        && (forall t: Uint256 | s.book.Item(TokenKey(c, t)).isOnSale :: p <= s.book.Item(TokenKey(c, t)).price)
      else p == 0
  {
    ReachableInv(start, s);
    forall t: Uint256 | s.book.Item(TokenKey(c, t)).isOnSale
      ensures t in s.book.TokenIds(c)
    {
      OnSaleIsIndexed(s.book, TokenKey(c, t));
    }
    hide Inv, Reachable;
    LowestPriceIsMinimum(s.book, c, s.book.TokenIds(c));
  }

  lemma OnSaleIsIndexed(b: Book, k: TokenKey)
    requires ListingInv(b) && b.Item(k).isOnSale
    ensures k.tokenId in b.TokenIds(k.collection)
  {
    assert Occurrences(b, k) == SoldTimes(b.history, k) + 1;
  }

  // ---- Fetching collections ----

  function Details(r: Register, b: Book, c: Address): Result<CollectionDetails> {
    if !r.IsActive(c) then Reverted(CollectionDoesNotExist)
    else Ok(CollectionDetails(CollectionAt(r, c), FloorPrice(b, c), 0, 0))
  }

  /**
   * `fetchCollectionDetails` fails exactly for an address that no collection was created at, and otherwise
   * shows the collection's entry with its floor price.
   */
  lemma DetailsExactly(start: map<Address, nat>, s: State, c: Address)
    requires Reachable(start, s)
    ensures var d := Details(s.register, s.book, c);
      && (d.Ok? <==> c in s.register.collectionAddresses)
      && (d.Ok? ==>
        && c in s.register.collections && d.value.basic == s.register.collections[c] && d.value.basic.collectionAddress == c
        && d.value.floorPrice == FloorPrice(s.book, c) && d.value.totalVolume == 0 && d.value.ownerCount == 0)
      && (!d.Ok? ==> d.reason == CollectionDoesNotExist)
  {
    ReachableInv(start, s);
    hide FloorPrice, Indexed, Reachable;
  }

  /** The details of each address in `q`; one failure fails the whole call. */
  function AllDetails(r: Register, b: Book, q: seq<Address>): Result<seq<CollectionDetails>> {
    if q == [] then Ok([]) else
    var init :- AllDetails(r, b, q[..|q| - 1]);
    var last :- Details(r, b, q[|q| - 1]);
    Ok(init + [last])
  }

  /** `d` lists the details of the addresses in `q`, in order. */
  ghost predicate DetailsOf(r: Register, b: Book, q: seq<Address>, d: Result<seq<CollectionDetails>>) {
    && d.Ok? && |d.value| == |q|
    && forall i | 0 <= i < |q| :: q[i] in r.collections && d.value[i] == CollectionDetails(r.collections[q[i]], FloorPrice(b, q[i]), 0, 0)
  }

  lemma {:induction false} AllDetailsOfActive(r: Register, b: Book, q: seq<Address>)
    requires forall a | a in q :: r.IsActive(a)
    ensures DetailsOf(r, b, q, AllDetails(r, b, q))
  {
    hide FloorPrice;
    if q != [] {
      var init, a := q[..|q| - 1], q[|q| - 1];
      AllDetailsOfActive(r, b, init);
      assert a in q;
    }
  }

  lemma FetchingFrom(r: Register, b: Book, user: Address)
    requires Registered(r) && Indexed(r)
    ensures DetailsOf(r, b, r.collectionAddresses, AllDetails(r, b, r.collectionAddresses))
    ensures var q := Select(r.collectionAddresses, r.collections, ByCreator(user));
      Index(r, ByCreator(user)) == q && DetailsOf(r, b, q, AllDetails(r, b, q))
  {
    hide DetailsOf, FloorPrice;
    AllDetailsOfActive(r, b, r.collectionAddresses);
    SelectMembers(r.collectionAddresses, r.collections, ByCreator(user));
    AllDetailsOfActive(r, b, Select(r.collectionAddresses, r.collections, ByCreator(user)));
  }

  /**
   * `fetchCollections` and `fetchUserCreatedCollections` never fail: they list, in order of creation, all
   * collections and the collections the user created.
   */
  lemma FetchingNeverFails(start: map<Address, nat>, s: State, user: Address)
    requires Reachable(start, s)
    ensures var r, b := s.register, s.book;
      && DetailsOf(r, b, r.collectionAddresses, AllDetails(r, b, r.collectionAddresses))
      && Index(r, ByCreator(user)) == Select(r.collectionAddresses, r.collections, ByCreator(user))
      && DetailsOf(r, b, Index(r, ByCreator(user)), AllDetails(r, b, Index(r, ByCreator(user))))
  {
    ReachableInv(start, s);
    RegisteredInv(s);
    hide *;
    FetchingFrom(s.register, s.book, user);
  }

  lemma RegisteredInv(s: State)
    requires RegistryInv(s)
    ensures Registered(s.register) && Indexed(s.register) && Categorised(s.register)
    ensures forall a | a in s.register.collectionAddresses :: s.register.IsActive(a)
  {
  }

  /** The index of `f` and the category list are what the address list and the flags say they are. */
  ghost predicate Agrees(r: Register, f: Facet) {
    && Distinct(r.collectionAddresses) && r.collections.Keys == (set a | a in r.collectionAddresses)
    && Index(r, f) == Select(r.collectionAddresses, r.collections, f)
    && Distinct(Index(r, f)) && (forall a | a in Index(r, f) :: r.IsActive(a) && Has(r.collections[a], f))
    && Distinct(r.categories) && (forall c :: c in r.categories <==> c in r.categoryExists)
  }

  lemma RegisterAgrees(r: Register, f: Facet)
    requires Registered(r) && Indexed(r) && Categorised(r)
    ensures Agrees(r, f)
  {
    SelectMembers(r.collectionAddresses, r.collections, f);
    assert Index(r, f) == Select(r.collectionAddresses, r.collections, f);
  }

  /**
   * The derived indices agree with the register: the index of a category or a creator is the in-order filter
   * of the address list, without repetition and all active; the category list has no repetition and holds
   * exactly the existing categories; and the registered addresses are those with a token ledger.
   */
  lemma IndicesAgree(start: map<Address, nat>, s: State, f: Facet)
    requires Reachable(start, s)
    ensures Agrees(s.register, f) && s.ledgers.Keys == s.register.collections.Keys
  {
    ReachableInv(start, s);
    RegisteredInv(s);
    SameKeys(s);
    hide *;
    RegisterAgrees(s.register, f);
  }

  function CategoryCollections(r: Register, category: Bytes): Result<seq<Collection>> {
    if category !in r.categoryExists then Reverted(CategoryDoesNotExist) else
    var q := Index(r, ByCategory(category));
    Ok(seq(|q|, i requires 0 <= i < |q| => CollectionAt(r, q[i])))
  }

  /** The category's collections: each once, all active, in order of creation. */
  ghost predicate CategoryExact(r: Register, category: Bytes) {
    var found := CategoryCollections(r, category);
    var q := Select(r.collectionAddresses, r.collections, ByCategory(category));
    && (found.Ok? <==> category in r.categories)
    && (found.Ok? ==>
      && |found.value| == |q|
      && (forall i | 0 <= i < |q| :: found.value[i] == CollectionAt(r, q[i]) && found.value[i].isActive && found.value[i].category == category)
      && (forall i, j | 0 <= i < j < |q| :: found.value[i].collectionAddress != found.value[j].collectionAddress)
      && (forall a | a in r.collections && r.collections[a].category == category :: r.collections[a] in found.value))
  }

  lemma CategoryOfRegister(r: Register, category: Bytes)
    requires Registered(r) && Indexed(r) && Categorised(r)
    ensures CategoryExact(r, category)
  {
    var q := Select(r.collectionAddresses, r.collections, ByCategory(category));
    SelectMembers(r.collectionAddresses, r.collections, ByCategory(category));
    assert Index(r, ByCategory(category)) == q;
    var found := CategoryCollections(r, category);
    if found.Ok? {
      forall i | 0 <= i < |q|
        ensures found.value[i] == CollectionAt(r, q[i]) && found.value[i].isActive && found.value[i].category == category && found.value[i].collectionAddress == q[i]
      {
        assert q[i] in q;
      }
      forall a | a in r.collections && r.collections[a].category == category
        ensures r.collections[a] in found.value
      {
        assert a in q;
        var i :| 0 <= i < |q| && q[i] == a;
        assert found.value[i] == r.collections[a];
      }
    }
  }

  /** `fetchCollectionsByCategory` fails only for an unknown category, and otherwise is exact. */
  lemma CategoryIsExact(start: map<Address, nat>, s: State, category: Bytes)
    requires Reachable(start, s)
    ensures CategoryExact(s.register, category)
  {
    ReachableInv(start, s);
    RegisteredInv(s);
    hide *;
    CategoryOfRegister(s.register, category);
  }

  // ---- Search ----

  /** A search; zero or empty means no restriction. */
  datatype Query = Query(term: Bytes, category: Bytes, minFloor: Uint256, maxFloor: Uint256)

  /** `_matchesSearchCriteria` */
  ghost predicate Matches(col: Collection, q: Query, floor: Uint256) {
    && (|q.term| == 0 || Contains(col.name, q.term) || Contains(col.symbol, q.term))
    && (|q.category| == 0 || Contains(col.category, q.category))
    && (q.minFloor == 0 || floor >= q.minFloor)
    && (q.maxFloor == 0 || floor <= q.maxFloor)
  }

  /** What the criteria come to: the tests for an empty term, an empty category and a zero minimum are redundant. */
  lemma MatchesExactly(col: Collection, q: Query, floor: Uint256)
    ensures Matches(col, q, floor) <==>
      && ((exists i: nat :: MatchesAt(col.name, q.term, i)) || (exists i: nat :: MatchesAt(col.symbol, q.term, i)))
      && (exists i: nat :: MatchesAt(col.category, q.category, i))
      && q.minFloor <= floor && (q.maxFloor != 0 ==> floor <= q.maxFloor)
  {
    ContainsBytewise(col.name, q.term);
    ContainsBytewise(col.symbol, q.term);
    ContainsBytewise(col.category, q.category);
    assert |q.term| == 0 ==> MatchesAt(col.name, q.term, 0);
    assert |q.category| == 0 ==> MatchesAt(col.category, q.category, 0);
  }

  ghost predicate Hit(r: Register, b: Book, a: Address, q: Query) {
    CollectionAt(r, a).isActive && Matches(CollectionAt(r, a), q, FloorPrice(b, a))
  }

  function ResultFor(r: Register, b: Book, a: Address): SearchResult {
    var col := CollectionAt(r, a);
    SearchResult(col.collectionAddress, col.name, col.symbol, col.category, col.totalSupply, FloorPrice(b, a), true)
  }

  /** Filter the addresses, then map them to results. */
  ghost function Search(r: Register, b: Book, addresses: seq<Address>, q: Query): seq<SearchResult> {
    if addresses == [] then [] else
    var init, a := Search(r, b, addresses[..|addresses| - 1], q), addresses[|addresses| - 1];
    if Hit(r, b, a, q) then init + [ResultFor(r, b, a)] else init
  }

  lemma {:induction false} SearchAppend(r: Register, b: Book, x: seq<Address>, y: seq<Address>, q: Query)
    ensures Search(r, b, x + y, q) == Search(r, b, x, q) + Search(r, b, y, q)
  {
    if y == [] {
      assert x + y == x;
    } else {
      var init := y[..|y| - 1];
      SearchAppend(r, b, x, init, q);
      assert (x + y)[..|x + y| - 1] == x + init;
    }
  }

  /** `f` says where in `b` each element of `a` is found, in order. */
  ghost predicate Embeds<T>(a: seq<T>, b: seq<T>, f: seq<nat>) {
    && |f| == |a|
    && (forall i | 0 <= i < |f| :: f[i] < |b| && b[f[i]] == a[i])
    && (forall i, j | 0 <= i < j < |f| :: f[i] < f[j])
  }

  ghost predicate Subsequence<T>(a: seq<T>, b: seq<T>) {
    exists f: seq<nat> :: Embeds(a, b, f)
  }

  /** `n` asks for at least what `w` asks for. */
  ghost predicate Narrower(n: Query, w: Query) {
    && Contains(n.term, w.term) && Contains(n.category, w.category)
    && n.minFloor >= w.minFloor
    && (w.maxFloor == 0 || 0 < n.maxFloor <= w.maxFloor)
  }

  lemma NarrowerMatchesLess(col: Collection, n: Query, w: Query, floor: Uint256)
    requires Narrower(n, w) && Matches(col, n, floor)
    ensures Matches(col, w, floor)
  {
    var i: nat :| OccursAt(n.term, w.term, i);
    var j: nat :| OccursAt(n.category, w.category, j);
    if |w.term| > 0 {
      if Contains(col.name, n.term) {
        ContainsIsTransitive(col.name, n.term, w.term);
      } else {
        ContainsIsTransitive(col.symbol, n.term, w.term);
      }
    }
    if |w.category| > 0 {
      ContainsIsTransitive(col.category, n.category, w.category);
    }
  }

  /** Narrowing a search yields an in-order subsequence of the earlier results. */
  lemma {:induction false} SearchNarrows(r: Register, b: Book, addresses: seq<Address>, n: Query, w: Query)
    requires Narrower(n, w)
    ensures Subsequence(Search(r, b, addresses, n), Search(r, b, addresses, w))
  {
    if addresses == [] {
      assert Embeds(Search(r, b, addresses, n), Search(r, b, addresses, w), []);
    } else {
      var init, a := addresses[..|addresses| - 1], addresses[|addresses| - 1];
      SearchNarrows(r, b, init, n, w);
      var f: seq<nat> :| Embeds(Search(r, b, init, n), Search(r, b, init, w), f);
      if Hit(r, b, a, n) {
        NarrowerMatchesLess(CollectionAt(r, a), n, w, FloorPrice(b, a));
        f := f + [|Search(r, b, init, w)|];
      }
      assert Embeds(Search(r, b, addresses, n), Search(r, b, addresses, w), f);
    }
  }

  /** `x` is the result for one of the matching addresses. */
  ghost predicate Found(r: Register, b: Book, addresses: seq<Address>, q: Query, x: SearchResult) {
    var a := x.collectionAddress;
    a in addresses && Hit(r, b, a, q) && x == ResultFor(r, b, a)
  }

  lemma {:induction false} SearchFinds(r: Register, b: Book, addresses: seq<Address>, q: Query)
    requires forall a | a in addresses :: CollectionAt(r, a).collectionAddress == a
    ensures forall i | 0 <= i < |Search(r, b, addresses, q)| :: Found(r, b, addresses, q, Search(r, b, addresses, q)[i])
    ensures forall a | a in addresses && Hit(r, b, a, q) :: ResultFor(r, b, a) in Search(r, b, addresses, q)
  {
    hide Hit, FloorPrice;
    if addresses != [] {
      var init, a := addresses[..|addresses| - 1], addresses[|addresses| - 1];
      SearchFinds(r, b, init, q);
      assert addresses == init + [a];
    }
  }

  /** No collection is found twice. */
  ghost predicate OncePerCollection(found: seq<SearchResult>) {
    forall i, j | 0 <= i < j < |found| :: found[i].collectionAddress != found[j].collectionAddress
  }

  lemma {:induction false} SearchIsDistinct(r: Register, b: Book, addresses: seq<Address>, q: Query)
    requires forall a | a in addresses :: CollectionAt(r, a).collectionAddress == a
    requires Distinct(addresses)
    ensures OncePerCollection(Search(r, b, addresses, q))
  {
    hide Hit, FloorPrice;
    if addresses != [] {
      var init, a := addresses[..|addresses| - 1], addresses[|addresses| - 1];
      SearchIsDistinct(r, b, init, q);
      SearchFinds(r, b, init, q);
      var before := Search(r, b, init, q);
      assert a in addresses && a !in init;
      assert forall i | 0 <= i < |before| :: Found(r, b, init, q, before[i]);
    }
  }

  lemma {:induction false} EmptyQueryFindsAll(r: Register, b: Book, addresses: seq<Address>)
    requires forall a | a in addresses :: CollectionAt(r, a).isActive
    ensures var found := Search(r, b, addresses, Query([], [], 0, 0));
      |found| == |addresses| && forall i | 0 <= i < |addresses| :: found[i] == ResultFor(r, b, addresses[i])
  {
    if addresses != [] {
      EmptyQueryFindsAll(r, b, addresses[..|addresses| - 1]);
    }
  }

  /** The search finds each matching collection once and nothing else. */
  ghost predicate SearchExact(r: Register, b: Book, q: Query) {
    var found := Search(r, b, r.collectionAddresses, q);
    && (forall i | 0 <= i < |found| ::
         Found(r, b, r.collectionAddresses, q, found[i]))
    && (forall a | a in r.collectionAddresses && Hit(r, b, a, q) :: ResultFor(r, b, a) in found)
    && OncePerCollection(found)
  }

  lemma SearchOfRegister(r: Register, b: Book, q: Query)
    requires Registered(r)
    ensures SearchExact(r, b, q)
    ensures var all := Search(r, b, r.collectionAddresses, Query([], [], 0, 0));
      |all| == |r.collectionAddresses| && forall i | 0 <= i < |all| :: all[i] == ResultFor(r, b, r.collectionAddresses[i])
  {
    hide FloorPrice, Matches;
    assert forall a | a in r.collectionAddresses :: CollectionAt(r, a) == r.collections[a] && r.collections[a].collectionAddress == a && r.collections[a].isActive;
    SearchFinds(r, b, r.collectionAddresses, q);
    SearchIsDistinct(r, b, r.collectionAddresses, q);
    var found := Search(r, b, r.collectionAddresses, q);
    assert forall i | 0 <= i < |found| :: Found(r, b, r.collectionAddresses, q, found[i]);
    EmptyQueryFindsAll(r, b, r.collectionAddresses);
  }

  /** The result shows the collection's own entry, with the floor price of its items. */
  ghost predicate Shows(x: SearchResult, col: Collection, floor: Uint256) {
    && x.collectionAddress == col.collectionAddress && x.name == col.name && x.symbol == col.symbol
    && x.category == col.category && x.totalSupply == col.totalSupply && x.floorPrice == floor && x.isActive
  }

  lemma ResultShows(r: Register, b: Book, q: Query, x: SearchResult)
    requires Registered(r) && Found(r, b, r.collectionAddresses, q, x)
    ensures var a := x.collectionAddress;
      a in r.collections && Shows(x, r.collections[a], FloorPrice(b, a)) && Matches(r.collections[a], q, FloorPrice(b, a))
  {
    hide FloorPrice, Matches;
  }

  lemma ShownOfRegister(r: Register, b: Book, q: Query)
    requires Registered(r)
    ensures SearchShows(r, b, q)
  {
    SearchOfRegister(r, b, q);
    var found := Search(r, b, r.collectionAddresses, q);
    hide Search, FloorPrice, Matches, Found, Shows, Hit;
    forall i | 0 <= i < |found|
      ensures var a := found[i].collectionAddress;
        a in r.collections && Shows(found[i], r.collections[a], FloorPrice(b, a)) && Matches(r.collections[a], q, FloorPrice(b, a))
    {
      ResultShows(r, b, q, found[i]);
    }
    forall a | a in r.collections && Matches(r.collections[a], q, FloorPrice(b, a))
      ensures exists i :: 0 <= i < |found| && found[i].collectionAddress == a
    {
      ShownAddress(r, b, a, q);
    }
  }

  lemma ShownAddress(r: Register, b: Book, a: Address, q: Query)
    requires Registered(r) && a in r.collections && Matches(r.collections[a], q, FloorPrice(b, a))
    ensures Hit(r, b, a, q) && a in r.collectionAddresses && ResultFor(r, b, a).collectionAddress == a
  {
    hide Matches, FloorPrice;
  }

  /** A collection is shown exactly if it matches, and what is shown of it is its entry and its floor price. */
  ghost predicate SearchShows(r: Register, b: Book, q: Query) {
    var found := Search(r, b, r.collectionAddresses, q);
    && (forall i | 0 <= i < |found| ::
         && found[i].collectionAddress in r.collections
         && Shows(found[i], r.collections[found[i].collectionAddress], FloorPrice(b, found[i].collectionAddress))
         && Matches(r.collections[found[i].collectionAddress], q, FloorPrice(b, found[i].collectionAddress)))
    && (forall a | a in r.collections && Matches(r.collections[a], q, FloorPrice(b, a)) ::
         exists i :: 0 <= i < |found| && found[i].collectionAddress == a)
  }

  lemma SearchShowsEntries(start: map<Address, nat>, s: State, q: Query)
    requires Reachable(start, s)
    ensures SearchShows(s.register, s.book, q)
  {
    ReachableInv(start, s);
    RegisteredInv(s);
    hide *;
    ShownOfRegister(s.register, s.book, q);
  }

  /** In a reachable state searching is exact, and searching for the empty term lists every collection in order of creation. */
  lemma SearchIsExact(start: map<Address, nat>, s: State, q: Query)
    requires Reachable(start, s)
    ensures SearchExact(s.register, s.book, q)
    ensures var all := Search(s.register, s.book, s.register.collectionAddresses, Query([], [], 0, 0));
      |all| == |s.register.collectionAddresses| && forall i | 0 <= i < |all| :: all[i] == ResultFor(s.register, s.book, s.register.collectionAddresses[i])
  {
    ReachableInv(start, s);
    RegisteredInv(s);
    hide *;
    SearchOfRegister(s.register, s.book, q);
  }
}
