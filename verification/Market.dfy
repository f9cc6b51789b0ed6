/**
 * The marketplace, its collections and the ether they move, as one value, and every call that can change it.
 * A call is a function from a state to a new state or a revert; a revert leaves the state as it was.
 */
module Market {
  import opened Basics
  import opened ERC721

  /** `listingFee`, 0.0005 ether in wei. No function changes it. */
  const LISTING_FEE: Uint256 := 500_000_000_000_000

  datatype Collection = Collection(
    collectionAddress: Address, name: Bytes, symbol: Bytes, category: Bytes, owner: Address,
    isActive: bool, createdAt: Uint256, baseUri: Bytes, totalSupply: Uint256)

  datatype MarketItem = MarketItem(
    tokenId: Uint256, nftContract: Address, seller: Address, owner: Address, price: Uint256, isOnSale: bool,
    auctionEndTime: Uint256, highestBidder: Address, highestBid: Uint256, isAuction: bool, tokenUri: Bytes)

  /** What the storage mapping holds for a token that was never listed. */
  const EMPTY_ITEM := MarketItem(0, ZERO_ADDRESS, ZERO_ADDRESS, ZERO_ADDRESS, 0, false, 0, ZERO_ADDRESS, 0, false, [])

  datatype Offer = Offer(buyer: Address, price: Uint256, timestamp: Uint256)

  /** What happened, in order. Kept for stating properties; no call reads it. */
  datatype Event =
    | Listed(key: TokenKey, seller: Address, price: Uint256)
    | Sold(key: TokenKey, seller: Address, buyer: Address, price: Uint256)
    | AuctionStarted(key: TokenKey, price: Uint256, endTime: Uint256)
    | BidPlaced(key: TokenKey, bidder: Address, amount: Uint256)
    | OfferMade(key: TokenKey, buyer: Address, amount: Uint256)
    | EtherSent(from: Address, to: Address, amount: Uint256)
    | MintReturned(collection: Address, tokenId: Uint256)

  datatype History = Start | Then(past: History, event: Event)

  /** The register of collections. A mapping to `bool` is the set of the keys mapped to true. */
  datatype Register = Register(
    categories: seq<Bytes>,
    categoryExists: set<Bytes>,
    collections: map<Address, Collection>,
    collectionAddresses: seq<Address>,
    categoryToCollections: map<Bytes, seq<Address>>,
    userCreatedCollections: map<Address, seq<Address>>)
  {
    predicate IsActive(c: Address) {
      c in collections && collections[c].isActive
    }

    function Enter(col: Collection): Register {
      var a := col.collectionAddress;
      this.(collections := collections[a := col],
            collectionAddresses := collectionAddresses + [a],
            categoryToCollections := categoryToCollections[col.category := Lookup(categoryToCollections, col.category, []) + [a]],
            userCreatedCollections := userCreatedCollections[col.owner := Lookup(userCreatedCollections, col.owner, []) + [a]])
    }

    function SetSupply(c: Address, supply: Uint256): Register
      requires c in collections
    {
      this.(collections := collections[c := collections[c].(totalSupply := supply)])
    }
  }

  /** Records, bids, offers and purchases. Nested Solidity mappings are keyed by tuples here. */
  datatype Book = Book(
    items: map<TokenKey, MarketItem>,
    tokenIds: map<Address, seq<Uint256>>,
    pendingReturns: map<(TokenKey, Address), Uint256>,
    offers: map<TokenKey, seq<Offer>>,
    purchases: set<(Address, TokenKey)>,
    purchaseCount: map<Address, Uint256>,
    history: History)
  {
    function Item(k: TokenKey): MarketItem {
      Lookup(items, k, EMPTY_ITEM)
    }

    function TokenIds(c: Address): seq<Uint256> {
      Lookup(tokenIds, c, [])
    }

    function Pending(k: TokenKey, a: Address): Uint256 {
      Lookup(pendingReturns, (k, a), 0)
    }

    function PurchaseCount(a: Address): Uint256 {
      Lookup(purchaseCount, a, 0)
    }

    function Offers(k: TokenKey): seq<Offer> {
      Lookup(offers, k, [])
    }

    function Log(e: Event): Book {
      this.(history := Then(history, e))
    }

    /** A new listing overwrites whatever record the token had. */
    function List(k: TokenKey, seller: Address, price: Uint256, uri: Bytes): Book {
      this.(items := items[k := MarketItem(k.tokenId, k.collection, seller, ZERO_ADDRESS, price, true, 0, ZERO_ADDRESS, 0, false, uri)],
            tokenIds := tokenIds[k.collection := TokenIds(k.collection) + [k.tokenId]])
      .Log(Listed(k, seller, price))
    }

    function Sell(k: TokenKey, buyer: Address, price: Uint256): Book
      requires PurchaseCount(buyer) < MAX_UINT256
    {
      this.(items := items[k := Item(k).(isOnSale := false, owner := buyer)],
            purchases := purchases + {(buyer, k)},
            purchaseCount := purchaseCount[buyer := PurchaseCount(buyer) + 1])
      .Log(Sold(k, Item(k).seller, buyer, price))
    }

    function StartAuction(k: TokenKey, startingPrice: Uint256, endTime: Uint256): Book {
      this.(items := items[k := Item(k).(isAuction := true, price := startingPrice, auctionEndTime := endTime)])
      .Log(AuctionStarted(k, startingPrice, endTime))
    }

    /** The outbid bidder's stake becomes a pending return. */
    function Bid(k: TokenKey, bidder: Address, amount: Uint256): Book
      requires Item(k).highestBidder != ZERO_ADDRESS ==> Pending(k, Item(k).highestBidder) + Item(k).highestBid <= MAX_UINT256
    {
      var last := Item(k).highestBidder;
      this.(pendingReturns := if last == ZERO_ADDRESS then pendingReturns else pendingReturns[(k, last) := Pending(k, last) + Item(k).highestBid],
            items := items[k := Item(k).(highestBidder := bidder, highestBid := amount)])
      .Log(BidPlaced(k, bidder, amount))
    }

    function AddOffer(k: TokenKey, buyer: Address, amount: Uint256, now: Uint256): Book {
      this.(offers := offers[k := Offers(k) + [Offer(buyer, amount, now)]])
      .Log(OfferMade(k, buyer, amount))
    }
  }

  /** `ledgers` holds the deployed NFTCollection contracts, `ether` the balance of every account. */
  datatype State = State(
    admin: Address,
    now: Uint256,
    ether: map<Address, nat>,
    ledgers: map<Address, Ledger>,
    register: Register,
    book: Book)
  {
    function Ether(a: Address): nat {
      Lookup(ether, a, 0)
    }

    /** An address without code behaves like an empty ledger: no call to it gets anywhere. */
    function LedgerOf(c: Address): Ledger {
      Lookup(ledgers, c, NewLedger(ZERO_ADDRESS))
    }
  }

  function MoveEther(ether: map<Address, nat>, from: Address, to: Address, amount: nat): map<Address, nat>
    requires amount <= Lookup(ether, from, 0)
  {
    var taken := ether[from := Lookup(ether, from, 0) - amount];
    taken[to := Lookup(taken, to, 0) + amount]
  }

  // ---- Calls ----

  function AddCategory(s: State, sender: Address, category: Bytes): Result<State> {
    if sender != s.admin then Reverted(OwnableUnauthorizedAccount)
    else if category in s.register.categoryExists then Reverted(CategoryAlreadyExists)
    else
      Ok(s.(register := s.register.(categories := s.register.categories + [category],
                                    categoryExists := s.register.categoryExists + {category})))
  }

  /** `deployed` is the address at which `new NFTCollection` lands. */
  function CreateCollection(s: State, sender: Address, deployed: Address, name: Bytes, symbol: Bytes, baseUri: Bytes, category: Bytes): Result<State> {
    if category !in s.register.categoryExists then Reverted(InvalidCategory)
    else if deployed == ZERO_ADDRESS || deployed == MARKET || deployed in s.ledgers then Reverted(AddressCollision)
    else
      Ok(s.(ledgers := s.ledgers[deployed := NewLedger(sender)],
            register := s.register.Enter(Collection(deployed, name, symbol, category, sender, true, s.now, baseUri, 0))))
  }

  function CreateMarketItem(s: State, sender: Address, value: Uint256, k: TokenKey, price: Uint256): Result<State> {
    if !s.register.IsActive(k.collection) then Reverted(CollectionDoesNotExist)
    else if price == 0 then Reverted(PriceIsZero)
    else if value != LISTING_FEE then Reverted(WrongListingFee)
    else
      var uri :- TokenUri(s.LedgerOf(k.collection), k.tokenId);
      var ledger :- TransferFrom(s.LedgerOf(k.collection), MARKET, sender, MARKET, k.tokenId);
      Ok(s.(book := s.book.List(k, sender, price, uri), ledgers := s.ledgers[k.collection := ledger]))
  }

  function CreateMarketSale(s: State, sender: Address, value: Uint256, k: TokenKey, sellerAccepts: bool): Result<State> {
    var item := s.book.Item(k);
    if !item.isOnSale then Reverted(NotOnSale)
    else if item.isAuction then Reverted(OnAuction)
    else if value != item.price then Reverted(WrongAskingPrice)
    else if !sellerAccepts || value > s.Ether(MARKET) then Reverted(SellerRejectedEther)
    else
      var ledger :- TransferFrom(s.LedgerOf(k.collection), MARKET, MARKET, sender, k.tokenId);
      if s.book.PurchaseCount(sender) == MAX_UINT256 then Reverted(ArithmeticOverflow)
      else
        Ok(s.(book := s.book.Sell(k, sender, value),
              ether := MoveEther(s.ether, MARKET, item.seller, value),
              ledgers := s.ledgers[k.collection := ledger]))
  }

  function CreateAuction(s: State, sender: Address, k: TokenKey, startingPrice: Uint256, duration: Uint256): Result<State> {
    var item := s.book.Item(k);
    if item.seller != sender then Reverted(OnlySeller)
    else if item.isAuction then Reverted(AlreadyOnAuction)
    else if s.now + duration > MAX_UINT256 then Reverted(ArithmeticOverflow)
    else Ok(s.(book := s.book.StartAuction(k, startingPrice, s.now + duration)))
  }

  function PlaceBid(s: State, sender: Address, value: Uint256, k: TokenKey): Result<State> {
    var item := s.book.Item(k);
    if !item.isAuction then Reverted(NotAnAuction)
    else if s.now >= item.auctionEndTime then Reverted(AuctionEnded)
    else if value <= item.highestBid then Reverted(BidTooLow)
    else if item.highestBidder != ZERO_ADDRESS && s.book.Pending(k, item.highestBidder) + item.highestBid > MAX_UINT256 then
      Reverted(ArithmeticOverflow)
    else Ok(s.(book := s.book.Bid(k, sender, value)))
  }

  function MakeOffer(s: State, sender: Address, value: Uint256, k: TokenKey): Result<State> {
    var item := s.book.Item(k);
    if !item.isOnSale then Reverted(NotOnSale)
    else if item.isAuction then Reverted(OnAuction)
    else if value == 0 then Reverted(OfferIsZero)
    else Ok(s.(book := s.book.AddOffer(k, sender, value, s.now)))
  }

  function UpdateCollectionTotalSupply(s: State, sender: Address, c: Address): Result<State> {
    if !s.register.IsActive(c) then Reverted(CollectionDoesNotExist)
    else if sender != c then Reverted(OnlyCollection)
    else Ok(s.(register := s.register.SetSupply(c, s.LedgerOf(c).minted)))
  }

  /** A call made directly to a collection contract replaces that contract's ledger. */
  function OnLedger(s: State, c: Address, r: Result<Ledger>): Result<State> {
    if c !in s.ledgers then Reverted(CollectionDoesNotExist) else
    var ledger :- r;
    Ok(s.(ledgers := s.ledgers[c := ledger]))
  }

  datatype Call =
    | CallAddCategory(category: Bytes)
    | CallCreateCollection(deployed: Address, name: Bytes, symbol: Bytes, baseUri: Bytes, category: Bytes)
    | CallCreateMarketItem(key: TokenKey, price: Uint256)
    | CallCreateMarketSale(key: TokenKey, sellerAccepts: bool)
    | CallCreateAuction(key: TokenKey, startingPrice: Uint256, duration: Uint256)
    | CallPlaceBid(key: TokenKey)
    | CallMakeOffer(key: TokenKey)
    | CallUpdateSupply(collection: Address)
    | CallApprove(to: Address, key: TokenKey)
    | CallSetApprovalForAll(collection: Address, operator: Address, approved: bool)
    | CallTransferFrom(from: Address, to: Address, key: TokenKey)
  {
    /** The four functions declared `payable`. */
    predicate Payable() {
      CallCreateMarketItem? || CallCreateMarketSale? || CallPlaceBid? || CallMakeOffer?
    }
  }

  /** The body of a call, run after the attached ether has arrived. */
  function Body(s: State, sender: Address, value: Uint256, call: Call): Result<State> {
    match call
    case CallAddCategory(category) => AddCategory(s, sender, category)
    case CallCreateCollection(deployed, name, symbol, baseUri, category) => CreateCollection(s, sender, deployed, name, symbol, baseUri, category)
    case CallCreateMarketItem(k, price) => CreateMarketItem(s, sender, value, k, price)
    case CallCreateMarketSale(k, sellerAccepts) => CreateMarketSale(s, sender, value, k, sellerAccepts)
    case CallCreateAuction(k, startingPrice, duration) => CreateAuction(s, sender, k, startingPrice, duration)
    case CallPlaceBid(k) => PlaceBid(s, sender, value, k)
    case CallMakeOffer(k) => MakeOffer(s, sender, value, k)
    case CallUpdateSupply(c) => UpdateCollectionTotalSupply(s, sender, c)
    case CallApprove(to, k) => OnLedger(s, k.collection, Approve(s.LedgerOf(k.collection), sender, to, k.tokenId))
    case CallSetApprovalForAll(c, operator, approved) => OnLedger(s, c, SetApprovalForAll(s.LedgerOf(c), sender, operator, approved))
    case CallTransferFrom(from, to, k) => OnLedger(s, k.collection, TransferFrom(s.LedgerOf(k.collection), sender, from, to, k.tokenId))
  }

  /** Private keys exist for neither the zero address nor the marketplace. */
  predicate LegalSender(a: Address) {
    a != ZERO_ADDRESS && a != MARKET
  }

  function Transact(s: State, sender: Address, value: Uint256, call: Call): Result<State> {
    if !LegalSender(sender) then Reverted(IllegalSender)
    else if value > s.Ether(sender) then Reverted(InsufficientFunds)
    else if value > 0 && !call.Payable() then Reverted(NotPayable)
    else Body(s.(ether := MoveEther(s.ether, sender, MARKET, value)), sender, value, call)
  }

  /** Neither the marketplace nor a collection has a receive function. */
  function SendEther(s: State, sender: Address, to: Address, value: Uint256): Result<State> {
    if !LegalSender(sender) then Reverted(IllegalSender)
    else if value > s.Ether(sender) then Reverted(InsufficientFunds)
    else if to == MARKET || to in s.ledgers then Reverted(NotPayable)
    else Ok(s.(ether := MoveEther(s.ether, sender, to, value), book := s.book.Log(EtherSent(sender, to, value))))
  }

  function StartMint(s: State, sender: Address, c: Address, to: Address): Result<State> {
    if !LegalSender(sender) then Reverted(IllegalSender)
    else OnLedger(s, c, BeginMint(s.LedgerOf(c), sender, to))
  }

  /** `mint` after the receiver's callback: store the URI and push the supply to the marketplace. */
  function FinishMint(s: State, c: Address, tokenId: Uint256, uri: Bytes): Result<State> {
    var s1 :- OnLedger(s, c, Ok(SetTokenUri(s.LedgerOf(c), tokenId, uri)));
    var s2 :- UpdateCollectionTotalSupply(s1, c, c);
    Ok(s2.(book := s2.book.Log(MintReturned(c, tokenId))))
  }

  function Tick(s: State, time: Uint256): Result<State> {
    if time < s.now then Reverted(TimeWentBack) else Ok(s.(now := time))
  }

  // ---- The deployed contract ----

  /** Art, Gaming, Memberships, Music, PFPs, Photography. */
  const CATEGORIES: seq<Bytes> := [
    [0x41, 0x72, 0x74],
    [0x47, 0x61, 0x6d, 0x69, 0x6e, 0x67],
    [0x4d, 0x65, 0x6d, 0x62, 0x65, 0x72, 0x73, 0x68, 0x69, 0x70, 0x73],
    [0x4d, 0x75, 0x73, 0x69, 0x63],
    [0x50, 0x46, 0x50, 0x73],
    [0x50, 0x68, 0x6f, 0x74, 0x6f, 0x67, 0x72, 0x61, 0x70, 0x68, 0x79]]

  /** The state right after the constructor, in a world of accounts holding `ether` at time `now`. */
  function Genesis(deployer: Address, now: Uint256, ether: map<Address, nat>): State {
    State(deployer, now, ether, map[],
      Register(CATEGORIES, set c | c in CATEGORIES, map[], [], map[], map[]),
      Book(map[], map[], map[], map[], {}, map[], Start))
  }
}
