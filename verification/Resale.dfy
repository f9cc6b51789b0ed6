/**
 * Three runs of whole transactions that refute what one might expect. After a resale the purchase view fails;
 * a record can be under auction although the marketplace no longer has the token; and a relisting can wipe a
 * standing bid.
 */
module Resale {
  import opened Basics
  import opened Market
  import opened Runs
  import opened Money
  import opened Reachability
  import opened Purchases
  import opened Escrow
  import opened LostBids

  const SELLER: Address := 2
  const BUYER: Address := 3
  const COLLECTION: Address := 4
  const BIDDER: Address := 5
  const KEY := TokenKey(COLLECTION, 1)
  const ACCOUNTS: map<Address, nat> := map[SELLER := LISTING_FEE, BUYER := LISTING_FEE + 1, BIDDER := 7]

  /** Between transactions, the one token of the collection belongs to `owner`. */
  ghost predicate Ready(s: State, owner: Address) {
    && AtRest(ACCOUNTS, s)
    && s.register.IsActive(COLLECTION) && COLLECTION in s.ledgers
    && s.ledgers[COLLECTION].owners == map[1 := owner]
  }

  function Sent(s: State, sender: Address, value: Uint256, call: Call): Result<State> {
    Exec(s, Plain(DoTransact(sender, value, call)))
  }

  lemma Minted() returns (s: State)
    ensures Ready(s, SELLER)
    ensures s.Ether(SELLER) == LISTING_FEE && s.Ether(BUYER) == LISTING_FEE + 1 && s.Ether(BIDDER) == 7 && s.now == 0
    ensures s.book.items == map[] && s.book.PurchaseCount(BUYER) == 0
  {
    var g := Genesis(SELLER, 0, ACCOUNTS);
    assert g == ExecAll(g, []);
    assert CATEGORIES[0] in CATEGORIES;
    var create := Plain(DoTransact(SELLER, 0, CallCreateCollection(COLLECTION, [], [], [], CATEGORIES[0])));
    var mint := Mint(SELLER, COLLECTION, SELLER, [], [], true);
    ExecStaysAtRest(ACCOUNTS, g, create);
    var s1 := Exec(g, create).value;
    ExecStaysAtRest(ACCOUNTS, s1, mint);
    s := Exec(s1, mint).value;
  }

  lemma Approves(s: State, owner: Address) returns (s1: State)
    requires Ready(s, owner) && LegalSender(owner)
    ensures Ready(s1, owner) && s1.ledgers[COLLECTION].Approved(1) == MARKET
    ensures s1.book == s.book && s1.now == s.now && forall a: Address :: s1.Ether(a) == s.Ether(a)
  {
    ExecStaysAtRest(ACCOUNTS, s, Plain(DoTransact(owner, 0, CallApprove(MARKET, KEY))));
    s1 := Sent(s, owner, 0, CallApprove(MARKET, KEY)).value;
  }

  /** `owner` lists the token, which the marketplace may move, for one wei. */
  lemma Offers(s: State, owner: Address) returns (s1: State)
    requires Ready(s, owner) && LegalSender(owner) && s.Ether(owner) >= LISTING_FEE
    requires s.ledgers[COLLECTION].Approved(1) == MARKET
    ensures s1 == Sent(s, owner, LISTING_FEE, CallCreateMarketItem(KEY, 1)).value && Sent(s, owner, LISTING_FEE, CallCreateMarketItem(KEY, 1)).Ok?
    ensures Ready(s1, MARKET)
    ensures s1.book.Item(KEY) == FreshItem(KEY, owner, 1, s1.book.Item(KEY).tokenUri)
    ensures s1.book.purchases == s.book.purchases && s1.book.purchaseCount == s.book.purchaseCount && s1.now == s.now
    ensures forall a: Address | a != owner && a != MARKET :: s1.Ether(a) == s.Ether(a)
  {
    ExecStaysAtRest(ACCOUNTS, s, Plain(DoTransact(owner, LISTING_FEE, CallCreateMarketItem(KEY, 1))));
    s1 := Sent(s, owner, LISTING_FEE, CallCreateMarketItem(KEY, 1)).value;
  }

  lemma Buys(s: State) returns (s1: State)
    requires Ready(s, MARKET) && s.Ether(BUYER) == LISTING_FEE + 1 && s.book.PurchaseCount(BUYER) == 0
    requires s.book.Item(KEY).isOnSale && !s.book.Item(KEY).isAuction && s.book.Item(KEY).price == 1 && s.book.Item(KEY).seller == SELLER
    ensures Ready(s1, BUYER) && (BUYER, KEY) in s1.book.purchases
    ensures s1.Ether(BUYER) == LISTING_FEE && s1.Ether(BIDDER) == s.Ether(BIDDER) && s1.now == s.now
    ensures s1.book.Item(KEY) == s.book.Item(KEY).(isOnSale := false, owner := BUYER)
  {
    ExecStaysAtRest(ACCOUNTS, s, Plain(DoTransact(BUYER, 1, CallCreateMarketSale(KEY, true))));
    s1 := Sent(s, BUYER, 1, CallCreateMarketSale(KEY, true)).value;
  }

  /** The seller has sold the token to the buyer. */
  ghost predicate IsSold(s: State) {
    && Ready(s, BUYER) && (BUYER, KEY) in s.book.purchases
    && s.Ether(BUYER) == LISTING_FEE && s.Ether(BIDDER) == 7 && s.now == 0
    && KEY in s.book.items && s.book.items[KEY].seller == SELLER && !s.book.items[KEY].isOnSale && !s.book.items[KEY].isAuction
    && s.book.items[KEY].highestBid == 0 && s.book.items[KEY].highestBidder == ZERO_ADDRESS
  }

  lemma Sold() returns (s: State)
    ensures IsSold(s)
  {
    var s1 := Minted();
    var s2 := Approves(s1, SELLER);
    var s3 := Offers(s2, SELLER);
    s := Buys(s3);
  }

  /** Between transactions, the purchase view of the buyer panics. */
  lemma PurchaseViewCanFail() returns (s: State)
    ensures AtRest(ACCOUNTS, s) && PurchasedItems(s.register, s.book, BUYER) == Reverted(IndexOutOfBounds)
  {
    var s1 := Sold();
    var s2 := Approves(s1, BUYER);
    s := Offers(s2, BUYER);
    AtRestIsReachable(ACCOUNTS, s);
    assert (BUYER, KEY).1 in Flagged(s.book, BUYER);
    PurchaseViewExact(ACCOUNTS, s, BUYER);
  }

  /** The past seller of a sold item starts an auction that ends at time 1. */
  lemma Auctions(s: State) returns (s1: State)
    requires IsSold(s)
    ensures Ready(s1, BUYER) && s1.now == 0 && forall a: Address :: s1.Ether(a) == s.Ether(a)
    ensures s1.book.Item(KEY) == s.book.Item(KEY).(isAuction := true, price := 1, auctionEndTime := 1)
  {
    ExecStaysAtRest(ACCOUNTS, s, Plain(DoTransact(SELLER, 0, CallCreateAuction(KEY, 1, 1))));
    s1 := Sent(s, SELLER, 0, CallCreateAuction(KEY, 1, 1)).value;
  }

  /** Between transactions, a record is under auction although the token is its buyer's. */
  lemma AuctionNeedNotBeHeld() returns (s: State)
    ensures AtRest(ACCOUNTS, s) && s.book.Item(KEY).isAuction && s.LedgerOf(COLLECTION).OwnerOf(1) == BUYER
  {
    var s1 := Sold();
    s := Auctions(s1);
  }

  lemma BidsSeven(s: State) returns (s1: State)
    requires Ready(s, BUYER) && s.Ether(BIDDER) == 7 && s.Ether(BUYER) == LISTING_FEE && s.now == 0
    requires s.book.Item(KEY).isAuction && s.book.Item(KEY).auctionEndTime == 1 && s.book.Item(KEY).highestBid == 0 && s.book.Item(KEY).highestBidder == ZERO_ADDRESS
    ensures Ready(s1, BUYER) && s1.Ether(BUYER) == LISTING_FEE
    ensures s1.book.Item(KEY).highestBid == 7 && s1.book.Item(KEY).highestBidder == BIDDER
  {
    ExecStaysAtRest(ACCOUNTS, s, Plain(DoTransact(BIDDER, 7, CallPlaceBid(KEY))));
    s1 := Sent(s, BIDDER, 7, CallPlaceBid(KEY)).value;
  }

  /** A bid of 7 is accepted, the buyer relists, and the bid is neither standing nor a pending return. */
  lemma RelistingLosesBid() returns (s: State)
    ensures AtRest(ACCOUNTS, s) && Abandoned(s.book.history) >= 7 && OffRecord(s.book, KEY, BIDDER) >= 7
  {
    var s1 := Sold();
    var s2 := Auctions(s1);
    var s3 := BidsSeven(s2);
    var s4 := Approves(s3, BUYER);
    s := Offers(s4, BUYER);
    AtRestIsReachable(ACCOUNTS, s4);
    ListingLosesExactly(ACCOUNTS, s4, BUYER, LISTING_FEE, KEY, 1);
    AllOnRecord(ACCOUNTS, s4);
  }
}
