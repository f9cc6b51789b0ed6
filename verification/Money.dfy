/** Ether: where every wei went, and what the marketplace holds it for. */
module Money {
  import opened Basics
  import opened Sums
  import opened ERC721
  import opened Market
  import opened Runs
  import opened Entries
  import opened Records
  import opened Bids

  /** What `a` pays or receives when something happens. */
  function Flow(e: Event, a: Address): int {
    match e
    case Listed(_, seller, _) => Paid(seller, MARKET, LISTING_FEE, a)
    case Sold(_, seller, buyer, price) => Paid(buyer, seller, price, a)
    case BidPlaced(_, bidder, amount) => Paid(bidder, MARKET, amount, a)
    case OfferMade(_, buyer, amount) => Paid(buyer, MARKET, amount, a)
    case EtherSent(from, to, amount) => Paid(from, to, amount, a)
    case _ => 0
  }

  function Paid(from: Address, to: Address, amount: int, a: Address): int {
    (if a == to then amount else 0) - (if a == from then amount else 0)
  }

  /** The net of everything `a` paid and received. */
  function Net(h: History, a: Address): int {
    match h
    case Start => 0
    case Then(past, e) => Net(past, a) + Flow(e, a)
  }

  /** The bids a relisting wiped from the records. */
  function Abandoned(h: History): nat {
    match h
    case Start => 0
    case Then(past, Listed(k, _, _)) => Abandoned(past) + Standing(past, k).amount
    case Then(past, _) => Abandoned(past)
  }

  ghost function HighestBids(items: map<TokenKey, MarketItem>): map<TokenKey, int> {
    map k | k in items :: items[k].highestBid
  }

  function SumOffers(q: seq<Offer>): nat {
    if q == [] then 0 else SumOffers(q[..|q| - 1]) + q[|q| - 1].price
  }

  ghost function OfferTotals(offers: map<TokenKey, seq<Offer>>): map<TokenKey, int> {
    map k | k in offers :: SumOffers(offers[k])
  }

  /** What the marketplace's ether is accounted for by: fees, live bids, pending returns, offers, and abandoned bids. */
  ghost function Accounted(b: Book): int {
    LISTING_FEE * TotalListings(b.tokenIds) + Sum(HighestBids(b.items)) + Sum(b.pendingReturns) + Sum(OfferTotals(b.offers)) + Abandoned(b.history)
  }

  /** Every wei that came in is accounted for. */
  ghost predicate SolvencyInv(b: Book) {
    Net(b.history, MARKET) == Accounted(b)
  }

  /** Every account holds what it started with plus the net of its payments; no ether appears or vanishes. */
  ghost predicate EtherInv(start: map<Address, nat>, s: State) {
    && (forall a: Address :: s.Ether(a) == Lookup(start, a, 0) + Net(s.book.history, a))
    && Sum(s.ether) == Sum(start)
  }

  // ---- The book side ----

  lemma HighestAfterUpdate(items: map<TokenKey, MarketItem>, k: TokenKey, item: MarketItem)
    ensures Sum(HighestBids(items[k := item])) == Sum(HighestBids(items)) - Lookup(items, k, EMPTY_ITEM).highestBid + item.highestBid
  {
    SumUpdate(HighestBids(items), k, item.highestBid);
    assert HighestBids(items[k := item]) == HighestBids(items)[k := item.highestBid];
  }

  lemma AccountedAfterList(b: Book, k: TokenKey, seller: Address, price: Uint256, uri: Bytes)
    requires Standing(b.history, k).amount == b.Item(k).highestBid
    ensures Accounted(b.List(k, seller, price, uri)) == Accounted(b) + LISTING_FEE
  {
    hide HighestBids, TotalListings;
    TotalsAfterList(b, k, seller, price, uri);
    HighestAfterUpdate(b.items, k, b.List(k, seller, price, uri).items[k]);
  }

  lemma PendingAfterBid(b: Book, k: TokenKey, bidder: Address, amount: Uint256)
    requires b.Item(k).highestBidder != ZERO_ADDRESS ==> b.Pending(k, b.Item(k).highestBidder) + b.Item(k).highestBid <= MAX_UINT256
    ensures Sum(b.Bid(k, bidder, amount).pendingReturns) == Sum(b.pendingReturns) + if b.Item(k).highestBidder == ZERO_ADDRESS then 0 else b.Item(k).highestBid
  {
    var last := b.Item(k).highestBidder;
    if last != ZERO_ADDRESS {
      SumUpdate(b.pendingReturns, (k, last), b.Pending(k, last) + b.Item(k).highestBid);
    }
  }

  lemma AccountedAfterBid(b: Book, k: TokenKey, bidder: Address, amount: Uint256)
    requires b.Item(k).highestBidder != ZERO_ADDRESS ==> b.Pending(k, b.Item(k).highestBidder) + b.Item(k).highestBid <= MAX_UINT256
    requires b.Item(k).highestBidder == ZERO_ADDRESS ==> b.Item(k).highestBid == 0
    ensures Accounted(b.Bid(k, bidder, amount)) == Accounted(b) + amount
  {
    hide HighestBids;
    PendingAfterBid(b, k, bidder, amount);
    HighestAfterUpdate(b.items, k, b.Bid(k, bidder, amount).items[k]);
  }

  lemma AccountedAfterAuction(b: Book, k: TokenKey, startingPrice: Uint256, endTime: Uint256)
    requires k in b.items
    ensures Accounted(b.StartAuction(k, startingPrice, endTime)) == Accounted(b)
  {
    assert HighestBids(b.StartAuction(k, startingPrice, endTime).items) == HighestBids(b.items);
  }

  lemma AccountedAfterSell(b: Book, k: TokenKey, buyer: Address, price: Uint256)
    requires k in b.items && b.PurchaseCount(buyer) < MAX_UINT256
    ensures Accounted(b.Sell(k, buyer, price)) == Accounted(b)
  {
    assert HighestBids(b.Sell(k, buyer, price).items) == HighestBids(b.items);
  }

  lemma AccountedAfterLog(b: Book, e: Event)
    requires !e.Listed?
    ensures Accounted(b.Log(e)) == Accounted(b)
  {
  }

  lemma AccountedAfterOffer(b: Book, k: TokenKey, buyer: Address, amount: Uint256, now: Uint256)
    ensures Accounted(b.AddOffer(k, buyer, amount, now)) == Accounted(b) + amount
  {
    var b' := b.AddOffer(k, buyer, amount, now);
    assert b'.Offers(k)[..|b'.Offers(k)| - 1] == b.Offers(k);
    SumUpdate(OfferTotals(b.offers), k, SumOffers(b.Offers(k)) + amount);
    assert OfferTotals(b'.offers) == OfferTotals(b.offers)[k := SumOffers(b.Offers(k)) + amount];
  }

  /** What an entry brings in. */
  function Inflow(e: Entry): nat {
    match e
    case Listing(_, _, _, _) => LISTING_FEE
    case Bidding(_, _, amount) => amount
    case Offering(_, _, amount, _) => amount
    case _ => 0
  }

  lemma AccountedAfterWrite(b: Book, now: Uint256, e: Entry)
    requires BidInv(b) && LifecycleInv(b) && Allowed(b, now, e)
    ensures Accounted(Write(b, now, e)) == Accounted(b) + Inflow(e)
  {
    if e.Listing? || e.Sale? || e.Auction? || e.Bidding? {
      assert Standing(b.history, e.key) == Stake(b.Item(e.key).highestBidder, b.Item(e.key).highestBid);
      assert e.key in b.items ==> RecordOk(e.key, b.items[e.key], b.purchases);
    }
    hide Accounted, BidInv, LifecycleInv;
    match e
    case Listing(k, seller, price, uri) => AccountedAfterList(b, k, seller, price, uri);
    case Sale(k, buyer, price) => AccountedAfterSell(b, k, buyer, price);
    case Auction(k, startingPrice, endTime) => AccountedAfterAuction(b, k, startingPrice, endTime);
    case Bidding(k, bidder, amount) => AccountedAfterBid(b, k, bidder, amount);
    case Offering(k, buyer, amount, time) => AccountedAfterOffer(b, k, buyer, amount, time);
    case Transfer(from, to, amount) => AccountedAfterLog(b, EtherSent(from, to, amount));
    case Minting(c, tokenId) => AccountedAfterLog(b, MintReturned(c, tokenId));
    case Nothing =>
  }

  /** Plain transfers do not involve the marketplace. */
  predicate NotMarket(e: Entry) {
    e.Transfer? ==> e.from != MARKET && e.to != MARKET
  }

  lemma NetAfterWrite(b: Book, now: Uint256, e: Entry)
    requires LifecycleInv(b) && Allowed(b, now, e) && NotMarket(e)
    ensures Net(Write(b, now, e).history, MARKET) == Net(b.history, MARKET) + Inflow(e)
  {
    if e.Sale? {
      assert RecordOk(e.key, b.items[e.key], b.purchases);
    }
  }

  lemma WriteKeepsSolvency(b: Book, now: Uint256, e: Entry)
    requires SolvencyInv(b) && BidInv(b) && LifecycleInv(b) && Allowed(b, now, e) && NotMarket(e)
    ensures SolvencyInv(Write(b, now, e))
  {
    hide Accounted, BidInv, LifecycleInv, Allowed, Write;
    AccountedAfterWrite(b, now, e);
    NetAfterWrite(b, now, e);
  }

  // ---- The ether side ----

  lemma MoveEtherExact(ether: map<Address, nat>, from: Address, to: Address, amount: nat)
    requires amount <= Lookup(ether, from, 0)
    ensures forall a: Address :: Lookup(MoveEther(ether, from, to, amount), a, 0) == Lookup(ether, a, 0) + Paid(from, to, amount, a)
    ensures Sum(MoveEther(ether, from, to, amount)) == Sum(ether)
  {
    var taken := ether[from := Lookup(ether, from, 0) - amount];
    SumMove(ether, taken, MoveEther(ether, from, to, amount), from, to, amount);
  }

  /** The body of a call moves no ether, but for a sale, which pays the seller out of what has arrived. */
  lemma BodyMovesEther(s: State, sender: Address, value: Uint256, call: Call)
    ensures var r := Body(s, sender, value, call);
      r.Ok? ==> r.value.ether == if call.CallCreateMarketSale? && value <= s.Ether(MARKET) then MoveEther(s.ether, MARKET, s.book.Item(call.key).seller, value) else s.ether
  {
    hide TransferFrom, Approve, SetApprovalForAll, MoveEther;
  }

  /** What the history says about a call's payments; `value` arrives with the call. */
  lemma BodyLogsPayments(s: State, sender: Address, value: Uint256, call: Call, a: Address)
    requires call.Payable() || value == 0
    ensures var r := Body(s, sender, value, call);
      r.Ok? ==>
        Net(r.value.book.history, a) == Net(s.book.history, a) + Paid(sender, MARKET, value, a)
          + if call.CallCreateMarketSale? then Paid(MARKET, s.book.Item(call.key).seller, value, a) else 0
  {
    hide TransferFrom, Approve, SetApprovalForAll, MoveEther;
  }

  /** A call's payments are those its entry in the history says. */
  lemma CallMovesEther(s: State, sender: Address, value: Uint256, call: Call)
    requires LegalSender(sender) && Transact(s, sender, value, call).Ok?
    ensures var s' := Transact(s, sender, value, call).value;
      && (forall a: Address :: s'.Ether(a) == s.Ether(a) + Net(s'.book.history, a) - Net(s.book.history, a))
      && Sum(s'.ether) == Sum(s.ether)
  {
    hide Body, MoveEther;
    var s0 := s.(ether := MoveEther(s.ether, sender, MARKET, value));
    MoveEtherExact(s.ether, sender, MARKET, value);
    BodyMovesEther(s0, sender, value, call);
    if call.CallCreateMarketSale? {
      MoveEtherExact(s0.ether, MARKET, s.book.Item(call.key).seller, value);
    }
    forall a: Address
      ensures Transact(s, sender, value, call).value.Ether(a) == s.Ether(a) + Net(Transact(s, sender, value, call).value.book.history, a) - Net(s.book.history, a)
    {
      BodyLogsPayments(s0, sender, value, call, a);
    }
  }

  lemma StepMovesEther(s: State, step: Step)
    requires Apply(s, step).Ok?
    ensures var s' := After(s, step);
      && (forall a: Address :: s'.Ether(a) == s.Ether(a) + Net(s'.book.history, a) - Net(s.book.history, a))
      && Sum(s'.ether) == Sum(s.ether)
  {
    hide Transact, MoveEther;
    match step
    case DoTransact(sender, value, call) =>
      assert LegalSender(sender) by {
        LegalTransact(s, sender, value, call);
      }
      CallMovesEther(s, sender, value, call);
    case DoSend(sender, to, value) => MoveEtherExact(s.ether, sender, to, value);
    case _ =>
  }

  lemma LegalTransact(s: State, sender: Address, value: Uint256, call: Call)
    ensures Transact(s, sender, value, call).Ok? ==> LegalSender(sender)
  {
  }
}
