/**
 * Everything a call to the marketplace does. The effects are stated key by key, and everything they do not
 * mention stays as it was; `Escrow` and `Settlement` say when listings, sales and auctions succeed.
 */
module MarketCalls {
  import opened Basics
  import opened ERC721
  import opened Market
  import opened Custody
  import opened Settlement
  import opened Reachability
  import opened Escrow
  import opened TokenCalls

  /** Neither the register nor a ledger differs. */
  ghost predicate OnlyBook(s: State, t: State) {
    t.admin == s.admin && t.now == s.now && t.register == s.register && t.ledgers == s.ledgers
  }

  // ---- Offers ----

  ghost predicate OfferStored(s: State, t: State, buyer: Address, amount: Uint256, k: TokenKey) {
    && OnlyBook(s, t)
    && t.book == s.book.(offers := t.book.offers, history := Then(s.book.history, OfferMade(k, buyer, amount)))
    && (forall j: TokenKey :: t.book.Offers(j) == s.book.Offers(j) + if j == k then [Offer(buyer, amount, s.now)] else [])
  }

  lemma OfferBody(s: State, buyer: Address, amount: Uint256, k: TokenKey)
    ensures var r := MakeOffer(s, buyer, amount, k);
      && (r.Ok? <==> amount > 0 && s.book.Item(k).isOnSale && !s.book.Item(k).isAuction)
      && (r.Ok? ==> OfferStored(s, r.value, buyer, amount, k) && r.value.ether == s.ether)
  {
  }

  /**
   * An offer goes through exactly for a positive amount on an item on sale and not under auction. It is added
   * to the token's offers with its buyer and time, its ether goes to the marketplace, and nothing else changes.
   */
  lemma OfferSucceedsExactly(s: State, buyer: Address, value: Uint256, k: TokenKey)
    ensures var r := Transact(s, buyer, value, CallMakeOffer(k));
      && (r.Ok? <==> LegalSender(buyer) && 0 < value <= s.Ether(buyer) && s.book.Item(k).isOnSale && !s.book.Item(k).isAuction)
      && (r.Ok? ==> OfferStored(s, r.value, buyer, value, k) && Pays(s, r.value, buyer, MARKET, value))
  {
    TransactIsBody(s, buyer, value, CallMakeOffer(k));
    if value <= s.Ether(buyer) {
      ArrivedPays(s, buyer, value);
      OfferBody(Arrived(s, buyer, value), buyer, value, k);
    }
    hide Transact, MakeOffer, MoveEther;
  }

  // ---- Bids ----

  ghost predicate BidStored(s: State, t: State, bidder: Address, amount: Uint256, k: TokenKey) {
    var last := s.book.Item(k);
    && OnlyBook(s, t)
    && t.book == s.book.(items := t.book.items, pendingReturns := t.book.pendingReturns, history := Then(s.book.history, BidPlaced(k, bidder, amount)))
    && (forall j: TokenKey :: t.book.Item(j) == if j == k then last.(highestBidder := bidder, highestBid := amount) else s.book.Item(j))
    && (forall j: TokenKey, a: Address ::
         t.book.Pending(j, a) == s.book.Pending(j, a) + if j == k && a == last.highestBidder != ZERO_ADDRESS then last.highestBid else 0)
  }

  lemma BidBody(s: State, bidder: Address, amount: Uint256, k: TokenKey)
    ensures var r := PlaceBid(s, bidder, amount, k); var last := s.book.Item(k);
      && (r.Ok? <==>
        && last.isAuction && s.now < last.auctionEndTime && amount > last.highestBid
        && (last.highestBidder == ZERO_ADDRESS || s.book.Pending(k, last.highestBidder) + last.highestBid <= MAX_UINT256))
      && (r.Ok? ==> BidStored(s, r.value, bidder, amount, k) && r.value.ether == s.ether)
  {
  }

  /**
   * A bid goes through exactly when it is higher than the standing one in an auction still running and the
   * refund fits a word. It replaces bidder and bid in the record, adds the bid it beats to that bidder's
   * pending return, and changes nothing else.
   */
  lemma BidStoredExactly(s: State, bidder: Address, value: Uint256, k: TokenKey)
    ensures var r := Transact(s, bidder, value, CallPlaceBid(k)); var last := s.book.Item(k);
      && (r.Ok? <==>
        && LegalSender(bidder) && value <= s.Ether(bidder)
        && last.isAuction && s.now < last.auctionEndTime && value > last.highestBid
        && (last.highestBidder == ZERO_ADDRESS || s.book.Pending(k, last.highestBidder) + last.highestBid <= MAX_UINT256))
      && (r.Ok? ==> BidStored(s, r.value, bidder, value, k) && Pays(s, r.value, bidder, MARKET, value))
  {
    TransactIsBody(s, bidder, value, CallPlaceBid(k));
    if value <= s.Ether(bidder) {
      ArrivedPays(s, bidder, value);
      BidBody(Arrived(s, bidder, value), bidder, value, k);
    }
    hide Transact, PlaceBid, MoveEther;
  }

  // ---- Auctions ----

  ghost predicate AuctionStored(s: State, t: State, k: TokenKey, price: Uint256, endTime: Uint256) {
    && OnlyBook(s, t)
    && t.book == s.book.(items := t.book.items, history := Then(s.book.history, AuctionStarted(k, price, endTime)))
    && (forall j: TokenKey ::
         t.book.Item(j) == if j == k then s.book.Item(k).(isAuction := true, price := price, auctionEndTime := endTime) else s.book.Item(j))
  }

  lemma AuctionBody(s: State, sender: Address, k: TokenKey, price: Uint256, duration: Uint256)
    ensures var r := CreateAuction(s, sender, k, price, duration);
      r.Ok? ==> s.now + duration <= MAX_UINT256 && AuctionStored(s, r.value, k, price, s.now + duration) && r.value.ether == s.ether
  {
  }

  /** An auction that starts changes one record, its bid untouched, and takes no ether. */
  lemma AuctionStoredExactly(s: State, sender: Address, value: Uint256, k: TokenKey, price: Uint256, duration: Uint256)
    ensures var r := Transact(s, sender, value, CallCreateAuction(k, price, duration));
      r.Ok? ==>
        && value == 0 && s.now + duration <= MAX_UINT256
        && AuctionStored(s, r.value, k, price, s.now + duration) && SameEther(s, r.value)
  {
    TransactIsBody(s, sender, value, CallCreateAuction(k, price, duration));
    if value <= s.Ether(sender) {
      ArrivedPays(s, sender, value);
      AuctionBody(Arrived(s, sender, value), sender, k, price, duration);
    }
    hide Transact, CreateAuction, MoveEther;
  }

  // ---- Listings ----

  ghost predicate ListingStored(s: State, t: State, seller: Address, k: TokenKey, price: Uint256) {
    && t.admin == s.admin && t.now == s.now && t.register == s.register && SameLedgersBut(s, t, k.collection)
    && t.book == s.book.(items := t.book.items, tokenIds := t.book.tokenIds, history := Then(s.book.history, Listed(k, seller, price)))
    && (forall j: TokenKey ::
         t.book.Item(j) == if j == k then FreshItem(k, seller, price, Lookup(s.LedgerOf(k.collection).uris, k.tokenId, [])) else s.book.Item(j))
    && (forall c: Address :: t.book.TokenIds(c) == s.book.TokenIds(c) + if c == k.collection then [k.tokenId] else [])
  }

  lemma ListingBody(s: State, seller: Address, value: Uint256, k: TokenKey, price: Uint256)
    requires k.collection in s.ledgers
    ensures var r := CreateMarketItem(s, seller, value, k, price);
      r.Ok? ==>
        && ListingStored(s, r.value, seller, k, price) && r.value.ether == s.ether
        && TransferFrom(s.LedgerOf(k.collection), MARKET, seller, MARKET, k.tokenId) == Ok(r.value.LedgerOf(k.collection))
  {
    hide TransferFrom, NewLedger;
  }

  /**
   * A completed listing stores one fresh record with the token's URI, adds the token id to its collection's list,
   * moves the token to the marketplace and takes the fee; nothing else changes.
   */
  lemma ListingStoredExactly(start: map<Address, nat>, s: State, seller: Address, value: Uint256, k: TokenKey, price: Uint256)
    requires Reachable(start, s)
    ensures var r := Transact(s, seller, value, CallCreateMarketItem(k, price));
      r.Ok? ==>
        && ListingStored(s, r.value, seller, k, price) && Pays(s, r.value, seller, MARKET, 500_000_000_000_000)
        && Moved(s.LedgerOf(k.collection), r.value.LedgerOf(k.collection), seller, MARKET, k.tokenId)
  {
    TransactIsBody(s, seller, value, CallCreateMarketItem(k, price));
    ListingSucceedsExactly(start, s, seller, value, k, price);
    CollectionLedger(start, s, k.collection);
    if Transact(s, seller, value, CallCreateMarketItem(k, price)).Ok? {
      ArrivedPays(s, seller, value);
      ListingBody(Arrived(s, seller, value), seller, value, k, price);
      TransferFromExact(s.LedgerOf(k.collection), MARKET, seller, MARKET, k.tokenId);
    }
    hide Reachable, Transact, CreateMarketItem, MoveEther, TransferFrom, Moved, LedgerInv, Ledger.Valid, Held, Offered, ListingStored, Pays;
  }

  // ---- Sales ----

  ghost predicate SaleStored(s: State, t: State, buyer: Address, k: TokenKey, price: Uint256) {
    && t.admin == s.admin && t.now == s.now && t.register == s.register && SameLedgersBut(s, t, k.collection)
    && t.book == s.book.(items := t.book.items, purchases := t.book.purchases, purchaseCount := t.book.purchaseCount,
                         history := Then(s.book.history, Sold(k, s.book.Item(k).seller, buyer, price)))
    && (forall j: TokenKey :: t.book.Item(j) == if j == k then s.book.Item(k).(isOnSale := false, owner := buyer) else s.book.Item(j))
    && (forall u: Address, j: TokenKey :: (u, j) in t.book.purchases <==> (u == buyer && j == k) || (u, j) in s.book.purchases)
    && (forall u: Address :: t.book.PurchaseCount(u) == s.book.PurchaseCount(u) + if u == buyer then 1 else 0)
  }

  lemma SaleBody(s: State, buyer: Address, value: Uint256, k: TokenKey, sellerAccepts: bool)
    requires k.collection in s.ledgers
    ensures var r := CreateMarketSale(s, buyer, value, k, sellerAccepts);
      r.Ok? ==>
        && SaleStored(s, r.value, buyer, k, value) && value == s.book.Item(k).price
        && TransferFrom(s.LedgerOf(k.collection), MARKET, MARKET, buyer, k.tokenId) == Ok(r.value.LedgerOf(k.collection))
  {
    hide TransferFrom, NewLedger, MoveEther;
  }

  lemma SalePays(start: map<Address, nat>, s: State, buyer: Address, value: Uint256, k: TokenKey, sellerAccepts: bool)
    requires Reachable(start, s)
    ensures var r := Transact(s, buyer, value, CallCreateMarketSale(k, sellerAccepts));
      r.Ok? ==> Pays(s, r.value, buyer, s.book.Item(k).seller, s.book.Item(k).price)
  {
    hide Reachable, Transact;
    forall a: Address {
      SalePaysSeller(start, s, buyer, value, k, sellerAccepts, a);
    }
  }

  lemma SaleStoredWithoutEther(s: State, ether: map<Address, nat>, t: State, buyer: Address, k: TokenKey, price: Uint256)
    ensures SaleStored(s.(ether := ether), t, buyer, k, price) <==> SaleStored(s, t, buyer, k, price)
  {
  }

  lemma SaleMoves(s: State, buyer: Address, value: Uint256, k: TokenKey, sellerAccepts: bool)
    requires k.collection in s.ledgers && LedgerInv(s.ledgers[k.collection])
    ensures var r := CreateMarketSale(s, buyer, value, k, sellerAccepts);
      r.Ok? ==>
        && SaleStored(s, r.value, buyer, k, s.book.Item(k).price)
        && Moved(s.LedgerOf(k.collection), r.value.LedgerOf(k.collection), MARKET, buyer, k.tokenId)
  {
    SaleBody(s, buyer, value, k, sellerAccepts);
    TransferFromExact(s.ledgers[k.collection], MARKET, MARKET, buyer, k.tokenId);
    hide SaleStored, CreateMarketSale, TransferFrom, Moved, LedgerInv, Ledger.Valid;
  }

  /**
   * A completed sale marks one record as sold to the buyer, flags and counts the purchase, moves the token to
   * the buyer and the price to the seller; nothing else changes.
   */
  lemma SaleStoredExactly(start: map<Address, nat>, s: State, buyer: Address, value: Uint256, k: TokenKey, sellerAccepts: bool)
    requires Reachable(start, s)
    ensures var r := Transact(s, buyer, value, CallCreateMarketSale(k, sellerAccepts));
      r.Ok? ==>
        && SaleStored(s, r.value, buyer, k, s.book.Item(k).price)
        && Pays(s, r.value, buyer, s.book.Item(k).seller, s.book.Item(k).price)
        && Moved(s.LedgerOf(k.collection), r.value.LedgerOf(k.collection), MARKET, buyer, k.tokenId)
  {
    TransactIsBody(s, buyer, value, CallCreateMarketSale(k, sellerAccepts));
    SaleSucceedsExactly(start, s, buyer, value, k, sellerAccepts);
    SalePays(start, s, buyer, value, k, sellerAccepts);
    if Transact(s, buyer, value, CallCreateMarketSale(k, sellerAccepts)).Ok? {
      OnSaleLedger(start, s, k);
      var before, t := Arrived(s, buyer, value), Transact(s, buyer, value, CallCreateMarketSale(k, sellerAccepts)).value;
      SaleMoves(before, buyer, value, k, sellerAccepts);
      SaleStoredWithoutEther(s, before.ether, t, buyer, k, s.book.Item(k).price);
    }
    hide Reachable, Transact, CreateMarketSale, MoveEther, Moved, LedgerInv, Held, Pays, SaleStored;
  }
}
