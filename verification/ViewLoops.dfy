/**
 * The view functions as the loops the contract runs. A view changes no storage, so the storage it reads is
 * passed to it as values; the arrays it fills are memory arrays.
 */
module ViewLoops {
  import opened Basics
  import opened Market
  import opened Views
  import opened Purchases
  import opened Text

  /** `_getFloorPrice` */
  method GetFloorPrice(b: Book, c: Address) returns (floor: Uint256)
    ensures floor == FloorPrice(b, c)
  {
    var tokenIds := b.TokenIds(c);
    var lowestPrice := MAX_UINT256;
    for i := 0 to |tokenIds|
      invariant lowestPrice == LowestPrice(b, c, tokenIds[..i])
    {
      var item := b.Item(TokenKey(c, tokenIds[i]));
      if item.isOnSale && item.price < lowestPrice {
        lowestPrice := item.price;
      }
      assert tokenIds[..i + 1][..i] == tokenIds[..i];
    }
    assert tokenIds[..|tokenIds|] == tokenIds;
    floor := if lowestPrice == MAX_UINT256 then 0 else lowestPrice;
  }

  /** `fetchCollectionDetails` */
  method FetchCollectionDetails(r: Register, b: Book, c: Address) returns (details: Result<CollectionDetails>)
    ensures details == Details(r, b, c)
  {
    if !CollectionAt(r, c).isActive {
      return Reverted(CollectionDoesNotExist);
    }
    var floorPrice := GetFloorPrice(b, c);
    return Ok(CollectionDetails(CollectionAt(r, c), floorPrice, 0, 0));
  }

  /** The loop of `fetchCollections`, over all addresses, and of `fetchUserCreatedCollections`, over a user's. */
  method FetchAllDetails(r: Register, b: Book, addresses: seq<Address>) returns (fetched: Result<array<CollectionDetails>>)
    ensures match AllDetails(r, b, addresses)
      case Ok(all) => fetched.Ok? && fetched.value[..] == all
      case Reverted(why) => fetched == Reverted(why)
  {
    var details := new CollectionDetails[|addresses|](_ => CollectionDetails(EMPTY_COLLECTION, 0, 0, 0));
    for i := 0 to |addresses|
      invariant AllDetails(r, b, addresses[..i]) == Ok(details[..i])
    {
      var d := FetchCollectionDetails(r, b, addresses[i]);
      assert addresses[..i + 1][..i] == addresses[..i];
      if d.Reverted? {
        AllDetailsFails(r, b, addresses, i);
        return Reverted(d.reason);
      }
      details[i] := d.value;
      assert details[..i + 1] == details[..i] + [d.value];
    }
    assert addresses[..|addresses|] == addresses && details[..|addresses|] == details[..];
    return Ok(details);
  }

  /** The first failing address fails the whole. */
  lemma {:induction false} AllDetailsFails(r: Register, b: Book, q: seq<Address>, i: nat)
    requires i < |q| && AllDetails(r, b, q[..i]).Ok? && Details(r, b, q[i]).Reverted?
    ensures AllDetails(r, b, q) == Reverted(Details(r, b, q[i]).reason)
  {
    if i == |q| - 1 {
      assert q[..|q| - 1] == q[..i];
    } else {
      assert q[..|q| - 1][..i] == q[..i];
      AllDetailsFails(r, b, q[..|q| - 1], i);
    }
  }

  /** `fetchCollectionsByCategory` */
  method FetchCollectionsByCategory(r: Register, category: Bytes) returns (fetched: Result<array<Collection>>)
    ensures match CategoryCollections(r, category)
      case Ok(all) => fetched.Ok? && fetched.value[..] == all
      case Reverted(why) => fetched == Reverted(why)
  {
    if category !in r.categoryExists {
      return Reverted(CategoryDoesNotExist);
    }
    var categoryCollections := Lookup(r.categoryToCollections, category, []);
    var result := new Collection[|categoryCollections|](_ => EMPTY_COLLECTION);
    for i := 0 to |categoryCollections|
      invariant forall j | 0 <= j < i :: result[j] == CollectionAt(r, categoryCollections[j])
    {
      result[i] := CollectionAt(r, categoryCollections[i]);
    }
    return Ok(result);
  }

  /** `fetchUserPurchasedItems`: a write past the end of the result array panics. */
  method FetchUserPurchasedItems(r: Register, b: Book, user: Address) returns (fetched: Result<array<MarketItem>>)
    ensures match PurchasedItems(r, b, user)
      case Ok(items) => fetched.Ok? && fetched.value[..] == items
      case Reverted(why) => fetched == Reverted(why)
  {
    hide AllListings, Keys, Taken, PurchasedItems;
    NothingVisited(b, user);
    var totalItemCount := b.PurchaseCount(user);
    var currentIndex := 0;
    var purchasedItems := new MarketItem[totalItemCount](_ => EMPTY_ITEM);
    for i := 0 to |r.collectionAddresses|
      invariant currentIndex <= totalItemCount
      invariant purchasedItems[..currentIndex] == Taken(b, user, AllListings(b, r.collectionAddresses[..i]))
      invariant forall n | currentIndex <= n < totalItemCount :: purchasedItems[n] == EMPTY_ITEM
    {
      var collectionAddress := r.collectionAddresses[i];
      var tokenIds := b.TokenIds(collectionAddress);
      ghost var before := AllListings(b, r.collectionAddresses[..i]);
      NoneOf(collectionAddress, before);
      for j := 0 to |tokenIds|
        invariant currentIndex <= totalItemCount
        invariant purchasedItems[..currentIndex] == Taken(b, user, before + Keys(collectionAddress, tokenIds[..j]))
        invariant forall n | currentIndex <= n < totalItemCount :: purchasedItems[n] == EMPTY_ITEM
      {
        var k := TokenKey(collectionAddress, tokenIds[j]);
        TakenNext(b, user, before, collectionAddress, tokenIds, j);
        if (user, k) in b.purchases {
          if currentIndex >= totalItemCount {
            TakenOverflows(r, b, user, i, j);
            return Reverted(IndexOutOfBounds);
          }
          purchasedItems[currentIndex] := b.Item(k);
          currentIndex := currentIndex + 1;
          assert purchasedItems[..currentIndex] == purchasedItems[..currentIndex - 1] + [b.Item(k)];
        }
      }
      assert tokenIds[..|tokenIds|] == tokenIds;
      ListingsNext(b, r.collectionAddresses, i);
    }
    assert r.collectionAddresses[..|r.collectionAddresses|] == r.collectionAddresses;
    assert purchasedItems[..] == purchasedItems[..currentIndex] + Blanks(totalItemCount - currentIndex);
    SlotsFit(r, b, user);
    return Ok(purchasedItems);
  }

  lemma NothingVisited(b: Book, user: Address)
    ensures Taken(b, user, AllListings(b, [])) == []
  {
  }

  lemma NoneOf(c: Address, before: seq<TokenKey>)
    ensures before + Keys(c, []) == before
  {
  }

  lemma SlotsFit(r: Register, b: Book, user: Address)
    requires |Taken(b, user, AllListings(b, r.collectionAddresses))| <= b.PurchaseCount(user)
    ensures var slots := Taken(b, user, AllListings(b, r.collectionAddresses));
      PurchasedItems(r, b, user) == Ok(slots + Blanks(b.PurchaseCount(user) - |slots|))
  {
  }

  /** One more token id adds at most one slot. */
  lemma TakenNext(b: Book, user: Address, before: seq<TokenKey>, c: Address, ids: seq<Uint256>, j: nat)
    requires j < |ids|
    ensures Taken(b, user, before + Keys(c, ids[..j + 1])) == Taken(b, user, before + Keys(c, ids[..j])) +
      if (user, TokenKey(c, ids[j])) in b.purchases then [b.Item(TokenKey(c, ids[j]))] else []
  {
    assert ids[..j + 1][..j] == ids[..j];
    var q := before + Keys(c, ids[..j + 1]);
    assert q[..|q| - 1] == before + Keys(c, ids[..j]);
  }

  /** The listings visited before position `j` of collection `i` come first among all listings. */
  lemma VisitedFirst(b: Book, q: seq<Address>, i: nat, j: nat) returns (rest: seq<TokenKey>)
    requires i < |q| && j < |b.TokenIds(q[i])|
    ensures AllListings(b, q) == AllListings(b, q[..i]) + Keys(q[i], b.TokenIds(q[i])[..j + 1]) + rest
  {
    var ids := b.TokenIds(q[i]);
    ListingsNext(b, q, i);
    KeysSplit(q[i], ids, j + 1);
    ListingsSplit(b, q, i + 1);
    hide *;
    rest := Keys(q[i], ids[j + 1..]) + AllListings(b, q[i + 1..]);
  }

  lemma KeysSplit(c: Address, ids: seq<Uint256>, n: nat)
    requires n <= |ids|
    ensures Keys(c, ids) == Keys(c, ids[..n]) + Keys(c, ids[n..])
  {
    KeysAppend(c, ids[..n], ids[n..]);
    assert ids[..n] + ids[n..] == ids;
  }

  lemma ListingsSplit(b: Book, q: seq<Address>, n: nat)
    requires n <= |q|
    ensures AllListings(b, q) == AllListings(b, q[..n]) + AllListings(b, q[n..])
  {
    AllListingsAppend(b, q[..n], q[n..]);
    assert q[..n] + q[n..] == q;
  }

  lemma ListingsNext(b: Book, q: seq<Address>, i: nat)
    requires i < |q|
    ensures AllListings(b, q[..i + 1]) == AllListings(b, q[..i]) + Keys(q[i], b.TokenIds(q[i]))
  {
    assert q[..i + 1][..i] == q[..i];
    hide Keys;
  }

  /** A full array and one more flagged listing: there are more slots than places. */
  lemma TakenOverflows(r: Register, b: Book, user: Address, i: nat, j: nat)
    requires i < |r.collectionAddresses| && j < |b.TokenIds(r.collectionAddresses[i])|
    requires var c := r.collectionAddresses[i]; var ids := b.TokenIds(c);
      |Taken(b, user, AllListings(b, r.collectionAddresses[..i]) + Keys(c, ids[..j + 1]))| > b.PurchaseCount(user)
    ensures PurchasedItems(r, b, user) == Reverted(IndexOutOfBounds)
  {
    hide AllListings, Keys, Taken;
    var q := r.collectionAddresses;
    var rest := VisitedFirst(b, q, i, j);
    TakenAppend(b, user, AllListings(b, q[..i]) + Keys(q[i], b.TokenIds(q[i])[..j + 1]), rest);
  }

  lemma {:induction false} KeysAppend(c: Address, x: seq<Uint256>, y: seq<Uint256>)
    ensures Keys(c, x + y) == Keys(c, x) + Keys(c, y)
  {
    if y == [] {
      assert x + y == x;
    } else {
      KeysAppend(c, x, y[..|y| - 1]);
      assert (x + y)[..|x + y| - 1] == x + y[..|y| - 1];
    }
  }

  lemma {:induction false} AllListingsAppend(b: Book, x: seq<Address>, y: seq<Address>)
    ensures AllListings(b, x + y) == AllListings(b, x) + AllListings(b, y)
  {
    if y == [] {
      assert x + y == x;
    } else {
      AllListingsAppend(b, x, y[..|y| - 1]);
      assert (x + y)[..|x + y| - 1] == x + y[..|y| - 1];
    }
  }

  /** `_matchesSearchCriteria` */
  method MatchesSearchCriteria(col: Collection, q: Query, floorPrice: Uint256) returns (matches: bool)
    ensures matches <==> Matches(col, q, floorPrice)
  {
    var inName := ContainsIgnoreCase(col.name, q.term);
    var inSymbol := ContainsIgnoreCase(col.symbol, q.term);
    var matchesSearch := |q.term| == 0 || inName || inSymbol;
    var inCategory := ContainsIgnoreCase(col.category, q.category);
    var matchesCategory := |q.category| == 0 || inCategory;
    var matchesPrice := (q.minFloor == 0 || floorPrice >= q.minFloor) && (q.maxFloor == 0 || floorPrice <= q.maxFloor);
    matches := matchesSearch && matchesCategory && matchesPrice;
  }

  /** One more address adds at most one result. */
  lemma SearchNext(r: Register, b: Book, addresses: seq<Address>, i: nat, q: Query)
    requires i < |addresses|
    ensures Search(r, b, addresses[..i + 1], q) == Search(r, b, addresses[..i], q) +
      if Hit(r, b, addresses[i], q) then [ResultFor(r, b, addresses[i])] else []
  {
    assert addresses[..i + 1][..i] == addresses[..i];
    hide Hit, ResultFor;
  }

  lemma SearchNothing(r: Register, b: Book, q: Query)
    ensures Search(r, b, [], q) == []
  {
  }

  /** `_searchWithFilters`: count, then fill an array of that size, stopping as soon as it is full. */
  method SearchWithFilters(r: Register, b: Book, q: Query) returns (results: array<SearchResult>)
    ensures results[..] == Search(r, b, r.collectionAddresses, q)
  {
    hide Search, FloorPrice, LowestPrice, Matches;
    SearchNothing(r, b, q);
    var addresses := r.collectionAddresses;
    var resultCount := 0;
    for i := 0 to |addresses|
      invariant resultCount == |Search(r, b, addresses[..i], q)|
    {
      SearchNext(r, b, addresses, i, q);
      var col := CollectionAt(r, addresses[i]);
      if col.isActive {
        var floorPrice := GetFloorPrice(b, addresses[i]);
        var matches := MatchesSearchCriteria(col, q, floorPrice);
        if matches {
          resultCount := resultCount + 1;
        }
      }
    }
    assert addresses[..|addresses|] == addresses;

    results := new SearchResult[resultCount](_ => SearchResult(ZERO_ADDRESS, [], [], [], 0, 0, false));
    var currentIndex := 0;
    var i := 0;
    while i < |addresses| && currentIndex < resultCount
      invariant i <= |addresses| && currentIndex <= resultCount
      invariant results[..currentIndex] == Search(r, b, addresses[..i], q)
    {
      SearchNext(r, b, addresses, i, q);
      var col := CollectionAt(r, addresses[i]);
      if col.isActive {
        var floorPrice := GetFloorPrice(b, addresses[i]);
        var matches := MatchesSearchCriteria(col, q, floorPrice);
        if matches {
          results[currentIndex] := SearchResult(col.collectionAddress, col.name, col.symbol, col.category, col.totalSupply, floorPrice, true);
          currentIndex := currentIndex + 1;
          assert results[..currentIndex] == results[..currentIndex - 1] + [ResultFor(r, b, addresses[i])];
        }
      }
      i := i + 1;
    }
    SearchAppend(r, b, addresses[..i], addresses[i..], q);
    assert addresses[..i] + addresses[i..] == addresses;
    assert results[..currentIndex] == results[..];
  }
}
