/** The accounts in every reachable state: ether, bids, listings and purchases. */
module Settlement {
  import opened Basics
  import opened Sums
  import opened ERC721
  import opened Market
  import opened Runs
  import opened Registry
  import opened Custody
  import opened Entries
  import opened Records
  import opened Bids
  import opened Money
  import opened Reachability

  // ---- Ether ----

  /**
   * The marketplace holds exactly the fees of all listings, all live bids, all pending returns, all offers
   * and the bids wiped by relistings, on top of what its address held before it was deployed.
   */
  lemma Solvency(start: map<Address, nat>, s: State)
    requires Reachable(start, s)
    ensures s.Ether(MARKET) == Lookup(start, MARKET, 0)
      + LISTING_FEE * TotalListings(s.book.tokenIds) + Sum(HighestBids(s.book.items)) + Sum(s.book.pendingReturns)
      + Sum(OfferTotals(s.book.offers)) + Abandoned(s.book.history)
  {
    ReachableInv(start, s);
  }

  /** Ether only changes hands. */
  lemma EtherIsConserved(start: map<Address, nat>, s: State)
    requires Reachable(start, s)
    ensures Sum(s.ether) == Sum(start)
  {
    ReachableInv(start, s);
  }

  lemma StepKeepsEther(start: map<Address, nat>, s: State, step: Step)
    requires Reachable(start, s)
    ensures After(s, step).Ether(MARKET) >= s.Ether(MARKET)
  {
    if Apply(s, step).Ok? {
      ReachableInv(start, s);
      TransferAvoidsMarket(s, step);
      hide RegistryInv, CustodyInv, KnownInv, LifecycleInv, BidInv, SolvencyInv, EtherInv, Apply, EntryOf, Write, Allowed, Reachable;
      StepMakesEntry(s, step);
      NetAfterWrite(s.book, s.now, EntryOf(s, step));
      StepMovesEther(s, step);
    }
  }

  /** What the marketplace once holds never leaves it: over no run does its ether fall. */
  lemma {:induction false} EtherNeverLeaves(start: map<Address, nat>, s: State, steps: seq<Step>)
    requires Reachable(start, s)
    ensures Run(s, steps).Ether(MARKET) >= s.Ether(MARKET)
    decreases |steps|
  {
    hide After, Reachable;
    if steps != [] {
      var before := steps[..|steps| - 1];
      EtherNeverLeaves(start, s, before);
      RunStaysReachable(start, s, before);
      StepKeepsEther(start, Run(s, before), steps[|steps| - 1]);
    }
  }

  /** What `a` was due, by the asking prices in force, for the items it sold. */
  function Proceeds(h: History, a: Address): nat {
    match h
    case Start => 0
    case Then(past, Sold(k, _, _, _)) =>
      Proceeds(past, a) + (match OpenAsk(past, k) case Asking(seller, price) => (if seller == a then price else 0) case NoAsk => 0)
    case Then(past, _) => Proceeds(past, a)
  }

  function TransfersIn(h: History, a: Address): nat {
    match h
    case Start => 0
    case Then(past, EtherSent(_, to, amount)) => TransfersIn(past, a) + if to == a then amount else 0
    case Then(past, _) => TransfersIn(past, a)
  }

  /** Listing fees, purchases, bids, offers and transfers paid by `a`. */
  function Spent(h: History, a: Address): nat {
    match h
    case Start => 0
    case Then(past, Listed(_, seller, _)) => Spent(past, a) + if seller == a then LISTING_FEE else 0
    case Then(past, Sold(_, _, buyer, price)) => Spent(past, a) + if buyer == a then price else 0
    case Then(past, BidPlaced(_, bidder, amount)) => Spent(past, a) + if bidder == a then amount else 0
    case Then(past, OfferMade(_, buyer, amount)) => Spent(past, a) + if buyer == a then amount else 0
    case Then(past, EtherSent(from, _, amount)) => Spent(past, a) + if from == a then amount else 0
    case Then(past, _) => Spent(past, a)
  }

  lemma {:induction false} NetOfUser(h: History, a: Address)
    requires AsksHonoured(h) && a != MARKET
    ensures Net(h, a) == Proceeds(h, a) + TransfersIn(h, a) - Spent(h, a)
  {
    if h.Then? {
      NetOfUser(h.past, a);
    }
  }

  /** A user's balance: in particular, from sales it received exactly the asking prices in force, and from the marketplace nothing else. */
  lemma AccountStatement(start: map<Address, nat>, s: State, a: Address)
    requires Reachable(start, s) && a != MARKET
    ensures s.Ether(a) == Lookup(start, a, 0) + Proceeds(s.book.history, a) + TransfersIn(s.book.history, a) - Spent(s.book.history, a)
  {
    ReachableInv(start, s);
    NetOfUser(s.book.history, a);
  }

  /** A refund never exceeds what the marketplace holds. */
  lemma RefundIsCovered(start: map<Address, nat>, s: State, k: TokenKey, a: Address)
    requires Reachable(start, s)
    ensures s.book.Pending(k, a) + s.book.Item(k).highestBid <= s.Ether(MARKET) <= Sum(start)
  {
    Solvency(start, s);
    EtherIsConserved(start, s);
    SumBoundsMember(s.book.pendingReturns, (k, a));
    SumBoundsMember(HighestBids(s.book.items), k);
    SumNonNegative(OfferTotals(s.book.offers));
    SumNonNegative(ListingCounts(s.book.tokenIds));
    SumBoundsMember(s.ether, MARKET);
  }

  /** While the marketplace's ether fits a word, bidding fails only for the bidder's reasons: the refund does not overflow. */
  lemma BidSucceedsExactly(start: map<Address, nat>, s: State, bidder: Address, value: Uint256, k: TokenKey)
    requires Reachable(start, s) && s.Ether(MARKET) <= MAX_UINT256
    ensures Transact(s, bidder, value, CallPlaceBid(k)).Ok? <==>
      && LegalSender(bidder) && value <= s.Ether(bidder)
      && s.book.Item(k).isAuction && s.now < s.book.Item(k).auctionEndTime && value > s.book.Item(k).highestBid
  {
    RefundIsCovered(start, s, k, s.book.Item(k).highestBidder);
    hide Reachable, MoveEther;
  }

  /** A completed sale moves the asking price from the buyer to the seller and leaves the marketplace's ether alone. */
  lemma SalePaysSeller(start: map<Address, nat>, s: State, buyer: Address, value: Uint256, k: TokenKey, sellerAccepts: bool, a: Address)
    requires Reachable(start, s)
    ensures var r := Transact(s, buyer, value, CallCreateMarketSale(k, sellerAccepts)); var item := s.book.Item(k);
      r.Ok? ==>
        && item.seller != MARKET && r.value.Ether(MARKET) == s.Ether(MARKET)
        && r.value.Ether(a) == s.Ether(a) + (if a == item.seller then item.price else 0) - (if a == buyer then item.price else 0)
  {
    if Transact(s, buyer, value, CallCreateMarketSale(k, sellerAccepts)).Ok? {
      RecordLifecycle(start, s, k);
      hide Reachable;
      CallMovesEther(s, buyer, value, CallCreateMarketSale(k, sellerAccepts));
    }
  }

  // ---- Bids ----

  /**
   * The bids accepted since the last listing strictly increase; the record's highest bid and bidder are the
   * last of them; and since that listing every bidder's pending return has grown by the sum of its bids,
   * less the standing bid if that is its own.
   */
  lemma BidLedger(start: map<Address, nat>, s: State, k: TokenKey, a: Address)
    requires Reachable(start, s)
    ensures var item := s.book.Item(k); var bids := BidsSinceListing(s.book.history, k);
      && (forall i, j | 0 <= i < j < |bids| :: bids[i].amount < bids[j].amount)
      && (forall i | 0 <= i < |bids| :: 0 < bids[i].amount <= item.highestBid)
      && Stake(item.highestBidder, item.highestBid) == (if bids == [] then Stake(ZERO_ADDRESS, 0) else bids[|bids| - 1])
      && s.book.Pending(k, a) == Outbid(BeforeListing(s.book.history, k), k, a) + SumBy(bids, a) - (if item.highestBidder == a then item.highestBid else 0)
  {
    ReachableInv(start, s);
    var h := s.book.history;
    assert Standing(h, k) == Stake(s.book.Item(k).highestBidder, s.book.Item(k).highestBid);
    assert s.book.Pending(k, a) == Outbid(h, k, a);
    BidsSinceListingRise(h, k);
    OutbidSinceListing(h, k, a);
  }

  // ---- Listings and purchases ----

  /** A token was listed as often as it was sold, plus once if it is on sale now. */
  lemma ListingLedger(start: map<Address, nat>, s: State, k: TokenKey)
    requires Reachable(start, s)
    ensures multiset(s.book.TokenIds(k.collection))[k.tokenId] == SoldTimes(s.book.history, k) + if s.book.Item(k).isOnSale then 1 else 0
  {
    ReachableInv(start, s);
    assert Occurrences(s.book, k) == SoldTimes(s.book.history, k) + if s.book.Item(k).isOnSale then 1 else 0;
  }

  /** Over the whole marketplace: purchases are listings less open listings. */
  lemma PurchasesAreClosedListings(start: map<Address, nat>, s: State)
    requires Reachable(start, s)
    ensures Sum(s.book.purchaseCount) == TotalListings(s.book.tokenIds) - |OpenItems(s.book.items)|
  {
    ReachableInv(start, s);
  }

  /** The shape of every record that was ever listed. */
  lemma RecordLifecycle(start: map<Address, nat>, s: State, k: TokenKey)
    requires Reachable(start, s) && k in s.book.items
    ensures var item := s.book.items[k];
      && item.nftContract == k.collection && item.tokenId == k.tokenId && LegalSender(item.seller)
      && (item.isOnSale <==> item.owner == ZERO_ADDRESS)
      && (!item.isOnSale ==> (item.owner, k) in s.book.purchases)
      && (item.isOnSale && !item.isAuction ==> item.price > 0)
      && (item.highestBid > 0 <==> item.highestBidder != ZERO_ADDRESS)
      && (item.highestBid > 0 ==> item.isAuction)
  {
    ReachableInv(start, s);
    assert RecordOk(k, s.book.items[k], s.book.purchases);
  }

  // ---- Token ledgers ----

  /**
   * In every deployed collection the minted ids are exactly 1..`minted`, each with a nonzero owner; every
   * balance is the number of tokens owned; and the balances add up to `totalSupply`.
   */
  lemma TokenLedgers(start: map<Address, nat>, s: State, c: Address, a: Address)
    requires Reachable(start, s) && c in s.ledgers
    ensures var l := s.ledgers[c];
      && (forall t: Uint256 :: l.OwnerOf(t) != ZERO_ADDRESS <==> 1 <= t <= l.minted)
      && l.BalanceOf(a) == |set t | t in l.owners && l.owners[t] == a|
      && Sum(l.balances) == l.minted
  {
    hide Ledger.Valid;
    ReachableInv(start, s);
    assert LedgerInv(s.ledgers[c]);
    ValidMeans(s.ledgers[c], a);
  }

  lemma ValidMeans(l: Ledger, a: Address)
    requires l.Valid()
    ensures forall t: Uint256 :: l.OwnerOf(t) != ZERO_ADDRESS <==> 1 <= t <= l.minted
    ensures l.BalanceOf(a) == |set t | t in l.owners && l.owners[t] == a|
    ensures Sum(l.balances) == l.minted
  {
    assert l.Owned(a) == set t | t in l.owners && l.owners[t] == a;
  }
}
