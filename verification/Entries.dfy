/** Every step changes the book by at most one entry, and only when the marketplace's checks allow it. */
module Entries {
  import opened Basics
  import opened ERC721
  import opened Market
  import opened Runs
  import opened Custody

  datatype Entry =
    | Nothing
    | Listing(key: TokenKey, seller: Address, price: Uint256, uri: Bytes)
    | Sale(key: TokenKey, buyer: Address, price: Uint256)
    | Auction(key: TokenKey, startingPrice: Uint256, endTime: Uint256)
    | Bidding(key: TokenKey, bidder: Address, amount: Uint256)
    | Offering(key: TokenKey, buyer: Address, amount: Uint256, now: Uint256)
    | Transfer(from: Address, to: Address, amount: Uint256)
    | Minting(collection: Address, tokenId: Uint256)

  /** The checks an entry has passed at time `now`. */
  predicate Allowed(b: Book, now: Uint256, e: Entry) {
    match e
    case Listing(k, seller, price, _) => LegalSender(seller) && price > 0 && !b.Item(k).isOnSale
    case Sale(k, buyer, price) =>
      && LegalSender(buyer) && b.Item(k).isOnSale && !b.Item(k).isAuction && price == b.Item(k).price
      && b.PurchaseCount(buyer) < MAX_UINT256
    case Auction(k, _, endTime) => LegalSender(b.Item(k).seller) && !b.Item(k).isAuction && endTime >= now
    case Bidding(k, bidder, amount) =>
      && LegalSender(bidder) && b.Item(k).isAuction && now < b.Item(k).auctionEndTime && amount > b.Item(k).highestBid
      && (b.Item(k).highestBidder != ZERO_ADDRESS ==> b.Pending(k, b.Item(k).highestBidder) + b.Item(k).highestBid <= MAX_UINT256)
    case Offering(k, buyer, amount, _) => LegalSender(buyer) && amount > 0
    case _ => true
  }

  function Write(b: Book, now: Uint256, e: Entry): Book
    requires Allowed(b, now, e)
  {
    match e
    case Nothing => b
    case Listing(k, seller, price, uri) => b.List(k, seller, price, uri)
    case Sale(k, buyer, price) => b.Sell(k, buyer, price)
    case Auction(k, startingPrice, endTime) => b.StartAuction(k, startingPrice, endTime)
    case Bidding(k, bidder, amount) => b.Bid(k, bidder, amount)
    case Offering(k, buyer, amount, time) => b.AddOffer(k, buyer, amount, time)
    case Transfer(from, to, amount) => b.Log(EtherSent(from, to, amount))
    case Minting(c, tokenId) => b.Log(MintReturned(c, tokenId))
  }

  /** The entry a successful step makes. */
  function EntryOf(s: State, step: Step): Entry {
    match step
    case DoTransact(sender, value, CallCreateMarketItem(k, price)) => Listing(k, sender, price, Lookup(s.LedgerOf(k.collection).uris, k.tokenId, []))
    case DoTransact(sender, value, CallCreateMarketSale(k, _)) => Sale(k, sender, value)
    case DoTransact(sender, value, CallCreateAuction(k, startingPrice, duration)) =>
      if s.now + duration > MAX_UINT256 then Nothing else Auction(k, startingPrice, s.now + duration)
    case DoTransact(sender, value, CallPlaceBid(k)) => Bidding(k, sender, value)
    case DoTransact(sender, value, CallMakeOffer(k)) => Offering(k, sender, value, s.now)
    case DoSend(sender, to, value) => Transfer(sender, to, value)
    case DoFinishMint(c, tokenId, _) => Minting(c, tokenId)
    case _ => Nothing
  }

  lemma ListingIsNew(s: State, sender: Address, value: Uint256, k: TokenKey, price: Uint256)
    requires CustodyInv(s) && LegalSender(sender)
    ensures CreateMarketItem(s, sender, value, k, price).Ok? ==> !s.book.Item(k).isOnSale
  {
    if k.collection in s.ledgers {
      EscrowIn(s.ledgers[k.collection], sender, k.tokenId);
    }
  }

  lemma CallMakesEntry(s: State, sender: Address, value: Uint256, call: Call)
    requires CustodyInv(s) && LegalSender(sender) && Body(s, sender, value, call).Ok?
    ensures var e := EntryOf(s, DoTransact(sender, value, call));
      Allowed(s.book, s.now, e) && Body(s, sender, value, call).value.book == Write(s.book, s.now, e)
  {
    hide CustodyInv, TransferFrom;
    if call.CallCreateMarketItem? {
      ListingIsNew(s, sender, value, call.key, call.price);
    }
  }

  /** The attached ether does not matter to the entry. */
  lemma EntryWithoutEther(s: State, ether: map<Address, nat>, step: Step)
    ensures EntryOf(s.(ether := ether), step) == EntryOf(s, step)
    ensures CustodyInv(s) ==> CustodyInv(s.(ether := ether))
  {
  }

  lemma TransactMakesEntry(s: State, sender: Address, value: Uint256, call: Call)
    requires CustodyInv(s) && Transact(s, sender, value, call).Ok?
    ensures var e := EntryOf(s, DoTransact(sender, value, call));
      Allowed(s.book, s.now, e) && Transact(s, sender, value, call).value.book == Write(s.book, s.now, e)
  {
    hide CustodyInv, Body, EntryOf, Write, Allowed;
    var ether := MoveEther(s.ether, sender, MARKET, value);
    EntryWithoutEther(s, ether, DoTransact(sender, value, call));
    CallMakesEntry(s.(ether := ether), sender, value, call);
  }

  lemma StepMakesEntry(s: State, step: Step)
    requires CustodyInv(s) && Apply(s, step).Ok?
    ensures Allowed(s.book, s.now, EntryOf(s, step))
    ensures After(s, step).book == Write(s.book, s.now, EntryOf(s, step))
  {
    if step.DoTransact? {
      hide CustodyInv, Transact, EntryOf, Write, Allowed;
      TransactMakesEntry(s, step.sender, step.value, step.call);
    } else {
      hide CustodyInv, Transact;
    }
  }
}
