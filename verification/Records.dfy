/** The life of a market item's record, and the ledger of listings, sales and purchases behind it. */
module Records {
  import opened Basics
  import opened Sums
  import opened Market
  import opened Entries

  // ---- Reading the history ----

  /** How often the token was sold. */
  function SoldTimes(h: History, k: TokenKey): nat {
    match h
    case Start => 0
    case Then(past, Sold(j, _, _, _)) => SoldTimes(past, k) + if j == k then 1 else 0
    case Then(past, _) => SoldTimes(past, k)
  }

  /** The tokens `buyer` bought, in order, one entry a purchase. */
  function Bought(h: History, buyer: Address): seq<TokenKey> {
    match h
    case Start => []
    case Then(past, Sold(k, _, b, _)) => if b == buyer then Bought(past, buyer) + [k] else Bought(past, buyer)
    case Then(past, _) => Bought(past, buyer)
  }

  /** The seller and the asking price of a fixed-price listing that is still open. */
  datatype Ask = NoAsk | Asking(seller: Address, price: Uint256)

  function OpenAsk(h: History, k: TokenKey): Ask {
    match h
    case Start => NoAsk
    case Then(past, Listed(j, seller, price)) => if j == k then Asking(seller, price) else OpenAsk(past, k)
    case Then(past, Sold(j, _, _, _)) => if j == k then NoAsk else OpenAsk(past, k)
    case Then(past, AuctionStarted(j, _, _)) => if j == k then NoAsk else OpenAsk(past, k)
    case Then(past, _) => OpenAsk(past, k)
  }

  /** Every sale paid the seller of the open listing the price that seller asked for. */
  predicate AsksHonoured(h: History) {
    match h
    case Start => true
    case Then(past, Sold(k, seller, _, price)) => AsksHonoured(past) && OpenAsk(past, k) == Asking(seller, price)
    case Then(past, _) => AsksHonoured(past)
  }

  // ---- Invariants ----

  predicate RecordOk(k: TokenKey, item: MarketItem, purchases: set<(Address, TokenKey)>) {
    && item.nftContract == k.collection && item.tokenId == k.tokenId
    && LegalSender(item.seller)
    && (item.isOnSale <==> item.owner == ZERO_ADDRESS)
    && (!item.isOnSale ==> LegalSender(item.owner) && (item.owner, k) in purchases)
    && (item.isOnSale && !item.isAuction ==> item.price > 0)
    && (item.highestBid > 0 <==> item.highestBidder != ZERO_ADDRESS)
    && (item.highestBid > 0 ==> item.isAuction)
    && item.highestBidder != MARKET
  }

  /** The shape of every listed record. */
  ghost predicate LifecycleInv(b: Book) {
    forall k | k in b.items :: RecordOk(k, b.items[k], b.purchases)
  }

  function Occurrences(b: Book, k: TokenKey): nat {
    multiset(b.TokenIds(k.collection))[k.tokenId]
  }

  /** Each listing of a token is accounted for: it was sold, or it is the one that is open. */
  ghost predicate ListingInv(b: Book) {
    forall k: TokenKey :: Occurrences(b, k) == SoldTimes(b.history, k) + if b.Item(k).isOnSale then 1 else 0
  }

  ghost predicate PurchaseInv(b: Book) {
    && (forall u: Address :: b.PurchaseCount(u) == |Bought(b.history, u)|)
    && (forall u: Address, k: TokenKey :: (u, k) in b.purchases <==> k in Bought(b.history, u))
    && (forall u: Address, k: TokenKey | (u, k) in b.purchases :: k in b.items)
  }

  /** The asking price in the record is the one in the history. */
  ghost predicate AskInv(b: Book) {
    && AsksHonoured(b.history)
    && (forall k: TokenKey ::
         OpenAsk(b.history, k) == if b.Item(k).isOnSale && !b.Item(k).isAuction then Asking(b.Item(k).seller, b.Item(k).price) else NoAsk)
  }

  ghost function ListingCounts(tokenIds: map<Address, seq<Uint256>>): map<Address, int> {
    map c | c in tokenIds :: |tokenIds[c]|
  }

  ghost function TotalListings(tokenIds: map<Address, seq<Uint256>>): int {
    Sum(ListingCounts(tokenIds))
  }

  function OpenItems(items: map<TokenKey, MarketItem>): set<TokenKey> {
    set k | k in items && items[k].isOnSale
  }

  /** Over the whole state, listings are purchases plus open listings. */
  ghost predicate TotalsInv(b: Book) {
    TotalListings(b.tokenIds) == Sum(b.purchaseCount) + |OpenItems(b.items)|
  }

  ghost predicate RecordsInv(b: Book) {
    LifecycleInv(b) && ListingInv(b) && PurchaseInv(b) && AskInv(b) && TotalsInv(b)
  }

  // ---- Each invariant is kept by every entry ----

  lemma ItemAfter(b: Book, now: Uint256, e: Entry, k: TokenKey)
    requires Allowed(b, now, e)
    ensures !(e.Listing? || e.Sale? || e.Auction? || e.Bidding?) || e.key != k ==> Write(b, now, e).Item(k) == b.Item(k)
  {
  }

  lemma WriteKeepsLifecycle(b: Book, now: Uint256, e: Entry)
    requires LifecycleInv(b) && Allowed(b, now, e)
    ensures LifecycleInv(Write(b, now, e))
  {
    var b' := Write(b, now, e);
    forall k | k in b'.items
      ensures RecordOk(k, b'.items[k], b'.purchases)
    {
      ItemAfter(b, now, e, k);
      assert k in b.items ==> RecordOk(k, b.items[k], b.purchases);
    }
  }

  lemma ListAddsOccurrence(b: Book, k: TokenKey, seller: Address, price: Uint256, uri: Bytes, j: TokenKey)
    ensures Occurrences(b.List(k, seller, price, uri), j) == Occurrences(b, j) + if j == k then 1 else 0
  {
    OccurrencesPush(b.TokenIds(k.collection), k.tokenId, j.tokenId);
    assert j != k ==> j.collection != k.collection || j.tokenId != k.tokenId;
  }

  lemma OccurrencesAfter(b: Book, now: Uint256, e: Entry, k: TokenKey)
    requires Allowed(b, now, e)
    ensures Occurrences(Write(b, now, e), k) == Occurrences(b, k) + if e.Listing? && e.key == k then 1 else 0
  {
    if e.Listing? {
      ListAddsOccurrence(b, e.key, e.seller, e.price, e.uri, k);
    }
  }

  lemma WriteKeepsListings(b: Book, now: Uint256, e: Entry)
    requires ListingInv(b) && Allowed(b, now, e)
    ensures ListingInv(Write(b, now, e))
  {
    hide Occurrences;
    var b' := Write(b, now, e);
    forall k: TokenKey
      ensures Occurrences(b', k) == SoldTimes(b'.history, k) + if b'.Item(k).isOnSale then 1 else 0
    {
      ItemAfter(b, now, e, k);
      OccurrencesAfter(b, now, e, k);
      assert Occurrences(b, k) == SoldTimes(b.history, k) + if b.Item(k).isOnSale then 1 else 0;
    }
  }

  lemma WriteKeepsPurchases(b: Book, now: Uint256, e: Entry)
    requires PurchaseInv(b) && Allowed(b, now, e)
    ensures PurchaseInv(Write(b, now, e))
  {
  }

  lemma WriteKeepsAsks(b: Book, now: Uint256, e: Entry)
    requires AskInv(b) && Allowed(b, now, e)
    ensures AskInv(Write(b, now, e))
  {
    var b' := Write(b, now, e);
    forall k: TokenKey
      ensures OpenAsk(b'.history, k) == if b'.Item(k).isOnSale && !b'.Item(k).isAuction then Asking(b'.Item(k).seller, b'.Item(k).price) else NoAsk
    {
      ItemAfter(b, now, e, k);
      assert OpenAsk(b.history, k) == if b.Item(k).isOnSale && !b.Item(k).isAuction then Asking(b.Item(k).seller, b.Item(k).price) else NoAsk;
    }
  }

  lemma TotalsAfterList(b: Book, k: TokenKey, seller: Address, price: Uint256, uri: Bytes)
    ensures TotalListings(b.List(k, seller, price, uri).tokenIds) == TotalListings(b.tokenIds) + 1
    ensures !b.Item(k).isOnSale ==> |OpenItems(b.List(k, seller, price, uri).items)| == |OpenItems(b.items)| + 1
  {
    var b' := b.List(k, seller, price, uri);
    var count := |b.TokenIds(k.collection)| + 1;
    SumUpdate(ListingCounts(b.tokenIds), k.collection, count);
    assert ListingCounts(b'.tokenIds) == ListingCounts(b.tokenIds)[k.collection := count];
    if !b.Item(k).isOnSale {
      assert OpenItems(b'.items) == OpenItems(b.items) + {k};
    }
  }

  lemma TotalsAfterSell(b: Book, k: TokenKey, buyer: Address, price: Uint256)
    requires b.PurchaseCount(buyer) < MAX_UINT256 && b.Item(k).isOnSale
    ensures var b' := b.Sell(k, buyer, price);
      Sum(b'.purchaseCount) == Sum(b.purchaseCount) + 1 && |OpenItems(b'.items)| == |OpenItems(b.items)| - 1
  {
    SumUpdate(b.purchaseCount, buyer, b.PurchaseCount(buyer) + 1);
    assert OpenItems(b.Sell(k, buyer, price).items) == OpenItems(b.items) - {k};
  }

  lemma OpenItemsUnchanged(items: map<TokenKey, MarketItem>, k: TokenKey, item: MarketItem)
    requires item.isOnSale <==> k in items && items[k].isOnSale
    ensures OpenItems(items[k := item]) == OpenItems(items)
  {
  }

  lemma WriteKeepsTotals(b: Book, now: Uint256, e: Entry)
    requires TotalsInv(b) && Allowed(b, now, e)
    ensures TotalsInv(Write(b, now, e))
  {
    hide TotalListings, OpenItems;
    match e
    case Listing(k, seller, price, uri) => TotalsAfterList(b, k, seller, price, uri);
    case Sale(k, buyer, price) => TotalsAfterSell(b, k, buyer, price);
    case Auction(k, _, _) => OpenItemsUnchanged(b.items, k, Write(b, now, e).Item(k));
    case Bidding(k, _, _) => OpenItemsUnchanged(b.items, k, Write(b, now, e).Item(k));
    case _ =>
  }

  lemma WriteKeepsRecords(b: Book, now: Uint256, e: Entry)
    requires RecordsInv(b) && Allowed(b, now, e)
    ensures RecordsInv(Write(b, now, e))
  {
    hide LifecycleInv, ListingInv, PurchaseInv, AskInv, TotalsInv, Write, Allowed;
    WriteKeepsLifecycle(b, now, e);
    WriteKeepsListings(b, now, e);
    WriteKeepsPurchases(b, now, e);
    WriteKeepsAsks(b, now, e);
    WriteKeepsTotals(b, now, e);
  }
}
