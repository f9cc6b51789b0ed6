/** What a seller, a buyer and a bidder can rely on about a listed token, in every reachable state. */
module Escrow {
  import opened Basics
  import opened ERC721
  import opened Market
  import opened Runs
  import opened Registry
  import opened Custody
  import opened Entries
  import opened Records
  import opened Money
  import opened Reachability

  /** An item on sale is held by the marketplace, with nobody approved to move it. */
  lemma OnSaleIsHeld(start: map<Address, nat>, s: State, k: TokenKey)
    requires Reachable(start, s) && s.book.Item(k).isOnSale
    ensures var l := s.LedgerOf(k.collection);
      l.OwnerOf(k.tokenId) == MARKET && l.Approved(k.tokenId) == ZERO_ADDRESS && forall o: Address :: (MARKET, o) !in l.operators
  {
    ReachableInv(start, s);
    assert k in s.book.items;
  }

  /** The step is a completed sale of `k`. */
  predicate Sells(s: State, step: Step, k: TokenKey) {
    step.DoTransact? && step.call.CallCreateMarketSale? && step.call.key == k && Apply(s, step).Ok?
  }

  /** The step is a completed listing of `k`. */
  predicate Lists(s: State, step: Step, k: TokenKey) {
    step.DoTransact? && step.call.CallCreateMarketItem? && step.call.key == k && Apply(s, step).Ok?
  }

  lemma StaysOnSale(b: Book, now: Uint256, e: Entry, k: TokenKey)
    requires Allowed(b, now, e) && b.Item(k).isOnSale && !(e.Sale? && e.key == k)
    ensures Write(b, now, e).Item(k).isOnSale
  {
  }

  lemma EntryIsSale(s: State, step: Step, k: TokenKey)
    requires Apply(s, step).Ok? && EntryOf(s, step).Sale? && EntryOf(s, step).key == k
    ensures Sells(s, step, k)
  {
    hide Transact, StartMint, FinishMint;
  }

  lemma EntryLists(s: State, step: Step, k: TokenKey)
    requires Apply(s, step).Ok?
    ensures EntryOf(s, step).Listing? && EntryOf(s, step).key == k <==> Lists(s, step, k)
  {
    hide Transact, StartMint, FinishMint;
  }

  /** Nothing but its sale takes an item off sale or lets its token leave the marketplace. */
  lemma OnlySaleReleases(start: map<Address, nat>, s: State, step: Step, k: TokenKey)
    requires Reachable(start, s) && s.book.Item(k).isOnSale && !Sells(s, step, k)
    ensures After(s, step).book.Item(k).isOnSale && After(s, step).LedgerOf(k.collection).OwnerOf(k.tokenId) == MARKET
  {
    hide EntryOf, Write, Allowed, RegistryInv, CustodyInv, KnownInv, BookInv, EtherInv, Apply, Sells;
    if Apply(s, step).Ok? {
      ReachableInv(start, s);
      StepMakesEntry(s, step);
      if EntryOf(s, step).Sale? && EntryOf(s, step).key == k {
        EntryIsSale(s, step, k);
      }
      StaysOnSale(s.book, s.now, EntryOf(s, step), k);
    }
    StepStaysReachable(start, s, step);
    OnSaleIsHeld(start, After(s, step), k);
  }

  lemma OnSaleLedger(start: map<Address, nat>, s: State, k: TokenKey)
    requires Reachable(start, s) && s.book.Item(k).isOnSale
    ensures k.collection in s.ledgers && LedgerInv(s.ledgers[k.collection]) && Held(s.ledgers[k.collection], k.tokenId)
  {
    ReachableInv(start, s);
    assert k in s.book.items;
  }

  /** The body of a sale, once the item is known to be held. */
  lemma SaleOfHeldToken(s: State, buyer: Address, value: Uint256, k: TokenKey, sellerAccepts: bool)
    requires k.collection in s.ledgers && LedgerInv(s.ledgers[k.collection]) && Held(s.ledgers[k.collection], k.tokenId)
    requires LegalSender(buyer) && s.book.Item(k).isOnSale
    ensures var r := CreateMarketSale(s, buyer, value, k, sellerAccepts);
      && (r.Ok? <==>
        && !s.book.Item(k).isAuction && value == s.book.Item(k).price && sellerAccepts && value <= s.Ether(MARKET)
        && s.book.PurchaseCount(buyer) < MAX_UINT256)
      && (r.Ok? ==>
        && r.value.LedgerOf(k.collection).OwnerOf(k.tokenId) == buyer
        && r.value.book.Item(k) == s.book.Item(k).(isOnSale := false, owner := buyer))
  {
    hide LedgerInv, Held, MoveEther, TransferFrom;
    EscrowOut(s.ledgers[k.collection], buyer, k.tokenId);
  }

  /**
   * A sale goes through exactly when the buyer pays the asking price of an item on sale and not under
   * auction and the seller takes the money: the token transfer inside it never fails. The buyer gets the token.
   */
  lemma SaleSucceedsExactly(start: map<Address, nat>, s: State, buyer: Address, value: Uint256, k: TokenKey, sellerAccepts: bool)
    requires Reachable(start, s)
    ensures var r := Transact(s, buyer, value, CallCreateMarketSale(k, sellerAccepts));
      && (r.Ok? <==>
        && LegalSender(buyer) && value <= s.Ether(buyer)
        && s.book.Item(k).isOnSale && !s.book.Item(k).isAuction && value == s.book.Item(k).price
        && sellerAccepts && s.book.PurchaseCount(buyer) < MAX_UINT256)
      && (r.Ok? ==>
        && r.value.LedgerOf(k.collection).OwnerOf(k.tokenId) == buyer
        && r.value.book.Item(k) == s.book.Item(k).(isOnSale := false, owner := buyer))
  {
    hide Reachable, LedgerInv, Held, MoveEther, TransferFrom;
    if LegalSender(buyer) && value <= s.Ether(buyer) {
      var s0 := s.(ether := MoveEther(s.ether, buyer, MARKET, value));
      MoveEtherExact(s.ether, buyer, MARKET, value);
      if s.book.Item(k).isOnSale {
        OnSaleLedger(start, s, k);
        SaleOfHeldToken(s0, buyer, value, k, sellerAccepts);
      }
    }
  }

  // ---- Listings ----

  /** The record a listing leaves: no auction, no bids, not yet sold. */
  function FreshItem(k: TokenKey, seller: Address, price: Uint256, uri: Bytes): MarketItem {
    MarketItem(k.tokenId, k.collection, seller, ZERO_ADDRESS, price, true, 0, ZERO_ADDRESS, 0, false, uri)
  }

  /** The caller owns the token and has let the marketplace move it. */
  ghost predicate Offered(l: Ledger, owner: Address, tokenId: Uint256) {
    l.OwnerOf(tokenId) == owner && (l.Approved(tokenId) == MARKET || (owner, MARKET) in l.operators)
  }

  /** Whether the marketplace can take a token in. */
  lemma TakeIn(l: Ledger, seller: Address, tokenId: Uint256)
    requires LedgerInv(l) && LegalSender(seller)
    ensures var r := TransferFrom(l, MARKET, seller, MARKET, tokenId);
      && (r.Ok? <==> Offered(l, seller, tokenId))
      && (r.Ok? ==> TokenUri(l, tokenId).Ok? && Held(r.value, tokenId) && !Held(l, tokenId))
  {
    TransferFromExact(l, MARKET, seller, MARKET, tokenId);
  }

  lemma CollectionLedger(start: map<Address, nat>, s: State, c: Address)
    requires Reachable(start, s)
    ensures s.register.IsActive(c) <==> c in s.ledgers
    ensures c in s.ledgers ==> LedgerInv(s.ledgers[c])
  {
    ReachableInv(start, s);
  }

  /** The body of a listing in a known collection. */
  lemma ListingInCollection(s: State, seller: Address, value: Uint256, k: TokenKey, price: Uint256)
    requires LegalSender(seller) && s.register.IsActive(k.collection)
    requires k.collection in s.ledgers && LedgerInv(s.ledgers[k.collection])
    ensures var r := CreateMarketItem(s, seller, value, k, price); var l := s.ledgers[k.collection];
      && (r.Ok? <==> price > 0 && value == LISTING_FEE && Offered(l, seller, k.tokenId))
      && (r.Ok? ==>
        && r.value.book.Item(k) == FreshItem(k, seller, price, TokenUri(l, k.tokenId).value)
        && r.value.book.TokenIds(k.collection) == s.book.TokenIds(k.collection) + [k.tokenId]
        && Held(r.value.LedgerOf(k.collection), k.tokenId))
  {
    hide LedgerInv, Held, Offered, TransferFrom, TokenUri;
    TakeIn(s.ledgers[k.collection], seller, k.tokenId);
  }

  /**
   * A listing goes through exactly when the caller pays the fee, asks a positive price, owns the token of a
   * registered collection and has approved the marketplace; the token was then not on sale, and now is, in
   * escrow and under a fresh record.
   */
  lemma ListingSucceedsExactly(start: map<Address, nat>, s: State, seller: Address, value: Uint256, k: TokenKey, price: Uint256)
    requires Reachable(start, s)
    ensures var r := Transact(s, seller, value, CallCreateMarketItem(k, price));
      && (r.Ok? <==>
        && LegalSender(seller) && value == LISTING_FEE <= s.Ether(seller) && price > 0
        && s.register.IsActive(k.collection) && Offered(s.LedgerOf(k.collection), seller, k.tokenId))
      && (r.Ok? ==>
        && !s.book.Item(k).isOnSale
        && r.value.book.Item(k) == FreshItem(k, seller, price, TokenUri(s.LedgerOf(k.collection), k.tokenId).value)
        && r.value.book.TokenIds(k.collection) == s.book.TokenIds(k.collection) + [k.tokenId]
        && Held(r.value.LedgerOf(k.collection), k.tokenId))
  {
    hide Reachable, LedgerInv, Held, MoveEther, TransferFrom, TokenUri;
    CollectionLedger(start, s, k.collection);
    if LegalSender(seller) && s.register.IsActive(k.collection) {
      if value <= s.Ether(seller) {
        ListingInCollection(s.(ether := MoveEther(s.ether, seller, MARKET, value)), seller, value, k, price);
      }
      if s.book.Item(k).isOnSale {
        OnSaleIsHeld(start, s, k);
      }
    }
  }

  // ---- Auctions ----

  lemma SellerIsLegal(start: map<Address, nat>, s: State, k: TokenKey)
    requires Reachable(start, s) && k in s.book.items
    ensures LegalSender(s.book.items[k].seller)
  {
    ReachableInv(start, s);
    assert RecordOk(k, s.book.items[k], s.book.purchases);
  }

  /**
   * Only the seller of the record's last listing can start an auction, and only once a listing; whether the
   * item is still on sale, or the token still held, is not asked.
   */
  lemma AuctionStartsExactly(start: map<Address, nat>, s: State, sender: Address, k: TokenKey, price: Uint256, duration: Uint256)
    requires Reachable(start, s)
    ensures var r := Transact(s, sender, 0, CallCreateAuction(k, price, duration));
      && (r.Ok? <==> k in s.book.items && s.book.items[k].seller == sender && !s.book.items[k].isAuction && s.now + duration <= MAX_UINT256)
      && (r.Ok? ==> r.value.book.Item(k) == s.book.Item(k).(isAuction := true, price := price, auctionEndTime := s.now + duration))
      && (r.Ok? ==> (Locked(r.value.book, k) <==> s.book.Item(k).isOnSale))
  {
    hide Reachable, MoveEther;
    if k in s.book.items {
      SellerIsLegal(start, s, k);
    }
  }

  /** The item is on sale and under auction. */
  predicate Locked(b: Book, k: TokenKey) {
    b.Item(k).isOnSale && b.Item(k).isAuction
  }

  /** A record without its bids. */
  function Terms(item: MarketItem): MarketItem {
    item.(highestBidder := ZERO_ADDRESS, highestBid := 0)
  }

  /** Same terms, no sale and no listing in between, and the standing bid can only have grown. */
  ghost predicate SameAuction(b: Book, b': Book, k: TokenKey) {
    && Terms(b'.Item(k)) == Terms(b.Item(k))
    && b'.Item(k).highestBid >= b.Item(k).highestBid
    && SoldTimes(b'.history, k) == SoldTimes(b.history, k) && Occurrences(b', k) == Occurrences(b, k)
  }

  lemma WriteKeepsLock(b: Book, now: Uint256, e: Entry, k: TokenKey)
    requires Allowed(b, now, e) && Locked(b, k)
    ensures SameAuction(b, Write(b, now, e), k)
    ensures now >= b.Item(k).auctionEndTime ==> Write(b, now, e).Item(k) == b.Item(k)
  {
    hide Occurrences;
    OccurrencesAfter(b, now, e, k);
  }

  lemma TimePasses(s: State, step: Step)
    ensures After(s, step).now >= s.now
  {
    hide MoveEther, TransferFrom, Approve, SetApprovalForAll, BeginMint;
  }

  /**
   * Once an item is on sale and under auction nothing sells it at the fixed price, relists it, restarts its
   * auction, changes its price or end time or moves its token; and after the end time its highest bidder
   * and bid are final.
   */
  lemma {:induction false} AuctionIsFinal(start: map<Address, nat>, s: State, steps: seq<Step>, k: TokenKey)
    requires Reachable(start, s) && Locked(s.book, k)
    ensures var s' := Run(s, steps);
      && s'.now >= s.now
      && Locked(s'.book, k) && SameAuction(s.book, s'.book, k)
      && s'.LedgerOf(k.collection).OwnerOf(k.tokenId) == MARKET
      && (s.now >= s.book.Item(k).auctionEndTime ==> s'.book.Item(k) == s.book.Item(k))
    decreases |steps|
  {
    var s' := Run(s, steps);
    RunStaysReachable(start, s, steps);
    if steps != [] {
      var before, step := Run(s, steps[..|steps| - 1]), steps[|steps| - 1];
      AuctionIsFinal(start, s, steps[..|steps| - 1], k);
      TimePasses(before, step);
      RunStaysReachable(start, s, steps[..|steps| - 1]);
      ReachableInv(start, before);
      hide EntryOf, Write, Allowed, RegistryInv, CustodyInv, KnownInv, BookInv, EtherInv, Apply, Reachable, Occurrences;
      if Apply(before, step).Ok? {
        StepMakesEntry(before, step);
        WriteKeepsLock(before.book, before.now, EntryOf(before, step), k);
      }
    }
    OnSaleIsHeld(start, s', k);
  }
}
