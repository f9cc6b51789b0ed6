/**
 * The marketplace contract: an object whose methods update its storage statement by statement, in the
 * source's order, together with the part of the chain it moves: the clock, the ether and the collection
 * contracts it deploys. Each method is proved against the function of the same name in `Market`.
 */
module Marketplace {
  import opened Basics
  import opened ERC721
  import opened Market
  import opened Runs
  import opened Collections

  /** A call's body ended as specified: in the state `after`, or failing for the specified reason with its work half done. */
  ghost predicate Ends(spec: Result<State>, r: Result<()>, after: State) {
    match spec
    case Ok(s) => r.Ok? && s == after
    case Reverted(why) => r == Reverted(why)
  }

  class NFTMarketplace {
    var categories: seq<Bytes>
    var categoryExists: set<Bytes>
    var collections: map<Address, Collection>
    var collectionAddresses: seq<Address>
    var categoryToCollections: map<Bytes, seq<Address>>
    var collectionToMarketItems: map<TokenKey, MarketItem>
    var collectionTokenIds: map<Address, seq<Uint256>>
    var pendingReturns: map<(TokenKey, Address), Uint256>
    var itemOffers: map<TokenKey, seq<Offer>>
    var userCreatedCollections: map<Address, seq<Address>>
    var userPurchases: set<(Address, TokenKey)>
    var userPurchaseCount: map<Address, Uint256>
    var owner: Address

    // The chain around the contract.
    var blockTimestamp: Uint256
    var ether: map<Address, nat>
    var contracts: map<Address, NFTCollection>
    var history: History
    ghost var repr: set<NFTCollection>

    /** Different addresses hold different contracts, all of them in `repr`. */
    ghost predicate Valid()
      reads this`contracts, this`repr
    {
      && (forall a | a in contracts :: contracts[a] in repr)
      && (forall a, b | a in contracts && b in contracts && a != b :: contracts[a] != contracts[b])
    }

    function RegisterValue(): Register
      reads this`categories, this`categoryExists, this`collections, this`collectionAddresses, this`categoryToCollections, this`userCreatedCollections
    {
      Register(categories, categoryExists, collections, collectionAddresses, categoryToCollections, userCreatedCollections)
    }

    function BookValue(): Book
      reads this`collectionToMarketItems, this`collectionTokenIds, this`pendingReturns, this`itemOffers, this`userPurchases, this`userPurchaseCount, this`history
    {
      Book(collectionToMarketItems, collectionTokenIds, pendingReturns, itemOffers, userPurchases, userPurchaseCount, history)
    }

    function Ledgers(): map<Address, Ledger>
      requires Valid()
      reads this`contracts, this`repr, repr
    {
      map a | a in contracts :: contracts[a].Value()
    }

    lemma DeployedLedgers()
      requires Valid()
      ensures Ledgers().Keys == contracts.Keys
    {
    }

    /** The whole system as a value. */
    function Abstract(): State
      requires Valid()
      reads this, repr
    {
      State(owner, blockTimestamp, ether, Ledgers(), RegisterValue(), BookValue())
    }

    constructor (deployer: Address, now: Uint256, accounts: map<Address, nat>)
      ensures Valid() && contracts == map[] && repr == {}
      ensures Abstract() == Genesis(deployer, now, accounts)
    {
      categories, categoryExists := [], {};
      collections, collectionAddresses, categoryToCollections, userCreatedCollections := map[], [], map[], map[];
      collectionToMarketItems, collectionTokenIds, pendingReturns, itemOffers := map[], map[], map[], map[];
      userPurchases, userPurchaseCount := {}, map[];
      owner, blockTimestamp, ether, contracts, history, repr := deployer, now, accounts, map[], Start, {};
      new;
      for i := 0 to |CATEGORIES|
        invariant Valid() && contracts == map[] && repr == {}
        invariant categories == CATEGORIES[..i] && categoryExists == set c | c in CATEGORIES[..i]
        invariant Abstract() == Genesis(deployer, now, accounts).(register := RegisterValue())
        invariant RegisterValue() == Genesis(deployer, now, accounts).register.(categories := categories, categoryExists := categoryExists)
      {
        CategoriesDiffer(i);
        var added := AddCategory(deployer, CATEGORIES[i]);
        assert CATEGORIES[..i + 1] == CATEGORIES[..i] + [CATEGORIES[i]];
      }
      assert CATEGORIES[..|CATEGORIES|] == CATEGORIES;
    }

    static lemma CategoriesDiffer(i: nat)
      requires i < |CATEGORIES|
      ensures CATEGORIES[i] !in CATEGORIES[..i]
    {
      var q := CATEGORIES;
      assert |q[0]| == 3 && |q[1]| == 6 && |q[2]| == 11 && |q[3]| == 5 && |q[4]| == 4 && |q[5]| == 11;
      assert q[2][0] != q[5][0];
    }

    // ---- Calls to the collection contracts ----

    /** The end of a call to the contract at `c`: its ledger is the specified one, or the call failed. */
    ghost predicate DidOnLedger(before: map<Address, Ledger>, c: Address, spec: Result<Ledger>, r: Result<()>)
      requires Valid()
      reads this`contracts, this`repr, repr
    {
      match spec
      case Ok(l) => r.Ok? && Ledgers() == before[c := l]
      case Reverted(why) => r == Reverted(why)
    }

    method TransferToken(k: TokenKey, sender: Address, from: Address, to: Address) returns (r: Result<()>)
      requires Valid() && sender != ZERO_ADDRESS
      modifies repr
      ensures Valid()
      ensures DidOnLedger(old(Ledgers()), k.collection, ERC721.TransferFrom(Lookup(old(Ledgers()), k.collection, NewLedger(ZERO_ADDRESS)), sender, from, to, k.tokenId), r)
    {
      if k.collection !in contracts {
        return Reverted(if to == ZERO_ADDRESS then ERC721InvalidReceiver else ERC721NonexistentToken);
      }
      r := contracts[k.collection].TransferFrom(sender, from, to, k.tokenId);
    }

    /** `new NFTCollection`, landing at the unused address `deployed`. */
    method Deploy(deployed: Address, initialOwner: Address)
      requires Valid() && deployed !in contracts
      modifies this`contracts, this`repr
      ensures Valid() && fresh(repr - old(repr))
      ensures Ledgers() == old(Ledgers())[deployed := NewLedger(initialOwner)]
    {
      var newCollection := new NFTCollection(initialOwner);
      contracts := contracts[deployed := newCollection];
      repr := repr + {newCollection};
    }

    method TokenUriOf(k: TokenKey) returns (r: Result<Bytes>)
      requires Valid()
      ensures r == TokenUri(Lookup(Ledgers(), k.collection, NewLedger(ZERO_ADDRESS)), k.tokenId)
    {
      if k.collection !in contracts {
        return Reverted(ERC721NonexistentToken);
      }
      return TokenUri(contracts[k.collection].Value(), k.tokenId);
    }

    method AddCategory(sender: Address, category: Bytes) returns (r: Result<()>)
      requires Valid()
      modifies this`categories, this`categoryExists
      ensures Valid()
      ensures Ends(Market.AddCategory(old(Abstract()), sender, category), r, old(Abstract()).(register := old(RegisterValue()).(categories := categories, categoryExists := categoryExists)))
    {
      if sender != owner {
        return Reverted(OwnableUnauthorizedAccount);
      }
      if category in categoryExists {
        return Reverted(CategoryAlreadyExists);
      }
      categories := categories + [category];
      categoryExists := categoryExists + {category};
      return Ok(());
    }

    /** A successful registration, component by component. */
    static lemma RegistrationWritesOut(s: State, sender: Address, deployed: Address, name: Bytes, symbol: Bytes, baseUri: Bytes, category: Bytes)
      requires category in s.register.categoryExists
      requires deployed != ZERO_ADDRESS && deployed != MARKET && deployed !in s.ledgers
      ensures Market.CreateCollection(s, sender, deployed, name, symbol, baseUri, category) ==
        Ok(s.(
          ledgers := s.ledgers[deployed := NewLedger(sender)],
          register := s.register.(
            collections := s.register.collections[deployed := Collection(deployed, name, symbol, category, sender, true, s.now, baseUri, 0)],
            collectionAddresses := s.register.collectionAddresses + [deployed],
            categoryToCollections := s.register.categoryToCollections[category := Lookup(s.register.categoryToCollections, category, []) + [deployed]],
            userCreatedCollections := s.register.userCreatedCollections[sender := Lookup(s.register.userCreatedCollections, sender, []) + [deployed]])))
    {
      hide NewLedger;
    }

    method CreateCollection(sender: Address, deployed: Address, name: Bytes, symbol: Bytes, baseUri: Bytes, category: Bytes) returns (r: Result<()>)
      requires Valid()
      modifies this`contracts, this`repr, this`collections, this`collectionAddresses, this`categoryToCollections, this`userCreatedCollections
      ensures Valid() && fresh(repr - old(repr))
      ensures Ends(Market.CreateCollection(old(Abstract()), sender, deployed, name, symbol, baseUri, category), r, old(Abstract()).(ledgers := Ledgers(), register := old(RegisterValue()).(
        collections := collections, collectionAddresses := collectionAddresses,
        categoryToCollections := categoryToCollections, userCreatedCollections := userCreatedCollections)))
    {
      assert deployed in contracts <==> deployed in Ledgers();
      hide NewLedger, Valid, Ledgers;
      if category !in categoryExists {
        return Reverted(InvalidCategory);
      }
      if deployed == ZERO_ADDRESS || deployed == MARKET || deployed in contracts {
        return Reverted(AddressCollision);
      }
      var collectionOwner := sender;
      Deploy(deployed, collectionOwner);
      collections := collections[deployed := Collection(deployed, name, symbol, category, collectionOwner, true, blockTimestamp, baseUri, 0)];
      collectionAddresses := collectionAddresses + [deployed];
      categoryToCollections := categoryToCollections[category := Lookup(categoryToCollections, category, []) + [deployed]];
      userCreatedCollections := userCreatedCollections[sender := Lookup(userCreatedCollections, sender, []) + [deployed]];
      RegistrationWritesOut(old(Abstract()), sender, deployed, name, symbol, baseUri, category);
      hide Market.CreateCollection;
      return Ok(());
    }

    method CreateMarketItem(sender: Address, value: Uint256, k: TokenKey, price: Uint256) returns (r: Result<()>)
      requires Valid()
      modifies this`collectionToMarketItems, this`collectionTokenIds, this`history, repr
      ensures Valid()
      ensures Ends(Market.CreateMarketItem(old(Abstract()), sender, value, k, price), r, old(Abstract()).(ledgers := Ledgers(), book := old(BookValue()).(
        items := collectionToMarketItems, tokenIds := collectionTokenIds, history := history)))
    {
      hide ERC721.TransferFrom, TokenUri, MoveEther, NewLedger, Ledgers, Valid;
      var c, tokenId := k.collection, k.tokenId;
      if !(c in collections && collections[c].isActive) {
        return Reverted(CollectionDoesNotExist);
      }
      if price == 0 {
        return Reverted(PriceIsZero);
      }
      if value != LISTING_FEE {
        return Reverted(WrongListingFee);
      }
      var tokenUri := TokenUriOf(k);
      if tokenUri.Reverted? {
        return Reverted(tokenUri.reason);
      }
      collectionToMarketItems := collectionToMarketItems[k :=
        MarketItem(tokenId, c, sender, ZERO_ADDRESS, price, true, 0, ZERO_ADDRESS, 0, false, tokenUri.value)];
      collectionTokenIds := collectionTokenIds[c := Lookup(collectionTokenIds, c, []) + [tokenId]];
      r := TransferToken(k, MARKET, sender, MARKET);
      history := Then(history, Listed(k, sender, price));
    }

    /** A successful sale, component by component. */
    static lemma SaleWritesOut(s: State, sender: Address, value: Uint256, k: TokenKey, ledger: Ledger)
      requires s.book.Item(k).isOnSale && !s.book.Item(k).isAuction && value == s.book.Item(k).price <= s.Ether(MARKET)
      requires ERC721.TransferFrom(s.LedgerOf(k.collection), MARKET, MARKET, sender, k.tokenId) == Ok(ledger)
      requires s.book.PurchaseCount(sender) < MAX_UINT256
      ensures Market.CreateMarketSale(s, sender, value, k, true) ==
        Ok(s.(
          ledgers := s.ledgers[k.collection := ledger],
          ether := MoveEther(s.ether, MARKET, s.book.Item(k).seller, value),
          book := s.book.(
            items := s.book.items[k := s.book.Item(k).(isOnSale := false, owner := sender)],
            purchases := s.book.purchases + {(sender, k)},
            purchaseCount := s.book.purchaseCount[sender := s.book.PurchaseCount(sender) + 1],
            history := Then(s.book.history, Sold(k, s.book.Item(k).seller, sender, value)))))
    {
      hide ERC721.TransferFrom, MoveEther, NewLedger;
    }

    /** The ether goes to the seller, then the token to the buyer. */
    method PayAndDeliver(buyer: Address, value: Uint256, k: TokenKey, seller: Address, sellerAccepts: bool) returns (r: Result<()>)
      requires Valid()
      modifies this`ether, repr
      ensures Valid()
      ensures if !sellerAccepts || value > Lookup(old(ether), MARKET, 0) then r == Reverted(SellerRejectedEther) else
        && ether == MoveEther(old(ether), MARKET, seller, value)
        && DidOnLedger(old(Ledgers()), k.collection, ERC721.TransferFrom(Lookup(old(Ledgers()), k.collection, NewLedger(ZERO_ADDRESS)), MARKET, MARKET, buyer, k.tokenId), r)
    {
      hide ERC721.TransferFrom, MoveEther, NewLedger, Ledgers, Valid;
      if !sellerAccepts || value > Lookup(ether, MARKET, 0) {
        return Reverted(SellerRejectedEther);
      }
      ether := MoveEther(ether, MARKET, seller, value);
      r := TransferToken(k, MARKET, MARKET, buyer);
    }

    method CreateMarketSale(sender: Address, value: Uint256, k: TokenKey, sellerAccepts: bool) returns (r: Result<()>)
      requires Valid()
      modifies this`collectionToMarketItems, this`ether, this`userPurchases, this`userPurchaseCount, this`history, repr
      ensures Valid()
      ensures Ends(Market.CreateMarketSale(old(Abstract()), sender, value, k, sellerAccepts), r, old(Abstract()).(ledgers := Ledgers(), ether := ether, book := old(BookValue()).(
        items := collectionToMarketItems, purchases := userPurchases, purchaseCount := userPurchaseCount, history := history)))
    {
      hide ERC721.TransferFrom, MoveEther, NewLedger, Ledgers, Valid;
      var item := Lookup(collectionToMarketItems, k, EMPTY_ITEM);
      if !item.isOnSale {
        return Reverted(NotOnSale);
      }
      if item.isAuction {
        return Reverted(OnAuction);
      }
      if value != item.price {
        return Reverted(WrongAskingPrice);
      }
      item := item.(isOnSale := false, owner := sender);
      collectionToMarketItems := collectionToMarketItems[k := item];
      r := PayAndDeliver(sender, value, k, item.seller, sellerAccepts);
      if r.Reverted? {
        return;
      }
      userPurchases := userPurchases + {(sender, k)};
      var count := Lookup(userPurchaseCount, sender, 0);
      if count == MAX_UINT256 {
        return Reverted(ArithmeticOverflow);
      }
      userPurchaseCount := userPurchaseCount[sender := count + 1];
      history := Then(history, Sold(k, item.seller, sender, value));
      ghost var moved := ERC721.TransferFrom(Lookup(old(Ledgers()), k.collection, NewLedger(ZERO_ADDRESS)), MARKET, MARKET, sender, k.tokenId);
      SaleWritesOut(old(Abstract()), sender, value, k, moved.value);
      hide Market.CreateMarketSale;
    }

    method CreateAuction(sender: Address, k: TokenKey, startingPrice: Uint256, duration: Uint256) returns (r: Result<()>)
      requires Valid()
      modifies this`collectionToMarketItems, this`history
      ensures Valid()
      ensures Ends(Market.CreateAuction(old(Abstract()), sender, k, startingPrice, duration), r, old(Abstract()).(book := old(BookValue()).(items := collectionToMarketItems, history := history)))
    {
      var item := Lookup(collectionToMarketItems, k, EMPTY_ITEM);
      if item.seller != sender {
        return Reverted(OnlySeller);
      }
      if item.isAuction {
        return Reverted(AlreadyOnAuction);
      }
      item := item.(isAuction := true);
      item := item.(price := startingPrice);
      if blockTimestamp + duration > MAX_UINT256 {
        return Reverted(ArithmeticOverflow);
      }
      item := item.(auctionEndTime := blockTimestamp + duration);
      collectionToMarketItems := collectionToMarketItems[k := item];
      history := Then(history, AuctionStarted(k, startingPrice, item.auctionEndTime));
      return Ok(());
    }

    method PlaceBid(sender: Address, value: Uint256, k: TokenKey) returns (r: Result<()>)
      requires Valid()
      modifies this`collectionToMarketItems, this`pendingReturns, this`history
      ensures Valid()
      ensures Ends(Market.PlaceBid(old(Abstract()), sender, value, k), r, old(Abstract()).(book := old(BookValue()).(
        items := collectionToMarketItems, pendingReturns := pendingReturns, history := history)))
    {
      var item := Lookup(collectionToMarketItems, k, EMPTY_ITEM);
      if !item.isAuction {
        return Reverted(NotAnAuction);
      }
      if blockTimestamp >= item.auctionEndTime {
        return Reverted(AuctionEnded);
      }
      if value <= item.highestBid {
        return Reverted(BidTooLow);
      }
      if item.highestBidder != ZERO_ADDRESS {
        var owed := Lookup(pendingReturns, (k, item.highestBidder), 0);
        if owed + item.highestBid > MAX_UINT256 {
          return Reverted(ArithmeticOverflow);
        }
        pendingReturns := pendingReturns[(k, item.highestBidder) := owed + item.highestBid];
      }
      item := item.(highestBidder := sender);
      item := item.(highestBid := value);
      collectionToMarketItems := collectionToMarketItems[k := item];
      history := Then(history, BidPlaced(k, sender, value));
      return Ok(());
    }

    method MakeOffer(sender: Address, value: Uint256, k: TokenKey) returns (r: Result<()>)
      requires Valid()
      modifies this`itemOffers, this`history
      ensures Valid()
      ensures Ends(Market.MakeOffer(old(Abstract()), sender, value, k), r, old(Abstract()).(book := old(BookValue()).(offers := itemOffers, history := history)))
    {
      var item := Lookup(collectionToMarketItems, k, EMPTY_ITEM);
      if !item.isOnSale {
        return Reverted(NotOnSale);
      }
      if item.isAuction {
        return Reverted(OnAuction);
      }
      if value == 0 {
        return Reverted(OfferIsZero);
      }
      itemOffers := itemOffers[k := Lookup(itemOffers, k, []) + [Offer(sender, value, blockTimestamp)]];
      history := Then(history, OfferMade(k, sender, value));
      return Ok(());
    }

    method UpdateCollectionTotalSupply(sender: Address, c: Address) returns (r: Result<()>)
      requires Valid()
      modifies this`collections
      ensures Valid()
      ensures Ends(Market.UpdateCollectionTotalSupply(old(Abstract()), sender, c), r, old(Abstract()).(register := old(RegisterValue()).(collections := collections)))
    {
      if !(c in collections && collections[c].isActive) {
        return Reverted(CollectionDoesNotExist);
      }
      if sender != c {
        return Reverted(OnlyCollection);
      }
      var newTotalSupply := if c in contracts then contracts[c].tokenIds else 0;
      collections := collections[c := collections[c].(totalSupply := newTotalSupply)];
      return Ok(());
    }

    // ---- Transactions ----

    /** A frame that ended: the specified state, or the specified failure with everything undone. */
    ghost predicate Completed(before: State, spec: Result<State>, r: Result<()>)
      requires Valid()
      reads this, repr
    {
      match spec
      case Ok(s) => r.Ok? && Abstract() == s
      case Reverted(why) => r == Reverted(why) && Abstract() == before
    }

    /** The EVM's rollback: every contract's storage and every balance as they were. */
    method Restore(saved: State, savedContracts: map<Address, NFTCollection>, ghost savedRepr: set<NFTCollection>)
      requires savedContracts.Keys == saved.ledgers.Keys
      requires forall a | a in savedContracts :: savedContracts[a] in savedRepr
      requires forall a, b | a in savedContracts && b in savedContracts && a != b :: savedContracts[a] != savedContracts[b]
      modifies this, savedRepr
      ensures repr == savedRepr && contracts == savedContracts && Valid()
      ensures Abstract() == saved
    {
      hide Ledgers, NFTCollection.Value;
      RestoreContracts(saved.ledgers, savedContracts, savedRepr);
      RestoreStorage(saved);
    }

    method RestoreContracts(saved: map<Address, Ledger>, savedContracts: map<Address, NFTCollection>, ghost savedRepr: set<NFTCollection>)
      requires savedContracts.Keys == saved.Keys
      requires forall a | a in savedContracts :: savedContracts[a] in savedRepr
      requires forall a, b | a in savedContracts && b in savedContracts && a != b :: savedContracts[a] != savedContracts[b]
      modifies this`contracts, this`repr, savedRepr
      ensures repr == savedRepr && contracts == savedContracts && Valid()
      ensures Ledgers() == saved
    {
      RestoreLedgers(saved, savedContracts, savedRepr);
      contracts, repr := savedContracts, savedRepr;
    }

    method RestoreStorage(saved: State)
      modifies this`owner, this`blockTimestamp, this`ether
      modifies this`categories, this`categoryExists, this`collections, this`collectionAddresses, this`categoryToCollections, this`userCreatedCollections
      modifies this`collectionToMarketItems, this`collectionTokenIds, this`pendingReturns, this`itemOffers, this`userPurchases, this`userPurchaseCount, this`history
      ensures owner == saved.admin && blockTimestamp == saved.now && ether == saved.ether
      ensures RegisterValue() == saved.register && BookValue() == saved.book
    {
      owner, blockTimestamp, ether := saved.admin, saved.now, saved.ether;
      RestoreRegister(saved.register);
      RestoreBook(saved.book);
    }

    method RestoreRegister(saved: Register)
      modifies this`categories, this`categoryExists, this`collections, this`collectionAddresses, this`categoryToCollections, this`userCreatedCollections
      ensures categories == saved.categories && categoryExists == saved.categoryExists
      ensures collections == saved.collections && collectionAddresses == saved.collectionAddresses
      ensures categoryToCollections == saved.categoryToCollections && userCreatedCollections == saved.userCreatedCollections
    {
      categories, categoryExists := saved.categories, saved.categoryExists;
      collections, collectionAddresses := saved.collections, saved.collectionAddresses;
      categoryToCollections, userCreatedCollections := saved.categoryToCollections, saved.userCreatedCollections;
    }

    method RestoreBook(saved: Book)
      modifies this`collectionToMarketItems, this`collectionTokenIds, this`pendingReturns, this`itemOffers, this`userPurchases, this`userPurchaseCount, this`history
      ensures collectionToMarketItems == saved.items && collectionTokenIds == saved.tokenIds
      ensures pendingReturns == saved.pendingReturns && itemOffers == saved.offers
      ensures userPurchases == saved.purchases && userPurchaseCount == saved.purchaseCount && history == saved.history
    {
      collectionToMarketItems, collectionTokenIds := saved.items, saved.tokenIds;
      pendingReturns, itemOffers := saved.pendingReturns, saved.offers;
      userPurchases, userPurchaseCount, history := saved.purchases, saved.purchaseCount, saved.history;
    }

    static method RestoreLedgers(saved: map<Address, Ledger>, savedContracts: map<Address, NFTCollection>, ghost savedRepr: set<NFTCollection>)
      requires savedContracts.Keys == saved.Keys
      requires forall a | a in savedContracts :: savedContracts[a] in savedRepr
      requires forall a, b | a in savedContracts && b in savedContracts && a != b :: savedContracts[a] != savedContracts[b]
      modifies savedRepr
      ensures forall a | a in savedContracts :: savedContracts[a].Value() == saved[a]
    {
      var todo := savedContracts.Keys;
      while todo != {}
        invariant todo <= savedContracts.Keys
        invariant forall a | a in savedContracts && a !in todo :: savedContracts[a].Value() == saved[a]
      {
        var a :| a in todo;
        savedContracts[a].Restore(saved[a]);
        todo := todo - {a};
      }
    }

    /** A call made directly to a collection contract. */
    method CallCollection(sender: Address, call: Call) returns (r: Result<()>)
      requires Valid() && sender != ZERO_ADDRESS
      requires call.CallApprove? || call.CallSetApprovalForAll? || call.CallTransferFrom?
      modifies repr
      ensures Valid()
      ensures Ends(Market.Body(old(Abstract()), sender, 0, call), r, old(Abstract()).(ledgers := Ledgers()))
    {
      hide ERC721.TransferFrom, ERC721.Approve, ERC721.SetApprovalForAll;
      var c := if call.CallSetApprovalForAll? then call.collection else call.key.collection;
      if c !in contracts {
        return Reverted(CollectionDoesNotExist);
      }
      match call {
        case CallApprove(to, k) => r := contracts[c].Approve(sender, to, k.tokenId);
        case CallSetApprovalForAll(_, operator, approved) => r := contracts[c].SetApprovalForAll(sender, operator, approved);
        case CallTransferFrom(from, to, k) => r := contracts[c].TransferFrom(sender, from, to, k.tokenId);
      }
      assert Ledgers() == old(Ledgers())[c := contracts[c].Value()];
    }

    /** Calls that change only the register. */
    method CallRegister(sender: Address, call: Call) returns (r: Result<()>)
      requires Valid()
      requires call.CallAddCategory? || call.CallCreateCollection? || call.CallUpdateSupply?
      modifies this`contracts, this`repr
      modifies this`categories, this`categoryExists, this`collections, this`collectionAddresses, this`categoryToCollections, this`userCreatedCollections
      ensures Valid() && fresh(repr - old(repr))
      ensures Ends(Market.Body(old(Abstract()), sender, 0, call), r, old(Abstract()).(ledgers := Ledgers(), register := RegisterValue()))
    {
      hide Market.AddCategory, Market.CreateCollection, Market.UpdateCollectionTotalSupply, BookValue, Ledgers, Valid;
      match call {
        case CallAddCategory(category) => r := AddCategory(sender, category);
        case CallCreateCollection(deployed, name, symbol, baseUri, category) => r := CreateCollection(sender, deployed, name, symbol, baseUri, category);
        case CallUpdateSupply(c) => r := UpdateCollectionTotalSupply(sender, c);
      }
    }

    /** Calls that change only the book. */
    method CallAuction(sender: Address, value: Uint256, call: Call) returns (r: Result<()>)
      requires Valid()
      requires call.CallCreateAuction? || call.CallPlaceBid? || call.CallMakeOffer?
      modifies this`collectionToMarketItems, this`pendingReturns, this`itemOffers, this`history
      ensures Valid()
      ensures Ends(Market.Body(old(Abstract()), sender, value, call), r, old(Abstract()).(book := BookValue()))
    {
      hide Market.CreateAuction, Market.PlaceBid, Market.MakeOffer, RegisterValue, Ledgers, Valid;
      match call {
        case CallCreateAuction(k, startingPrice, duration) => r := CreateAuction(sender, k, startingPrice, duration);
        case CallPlaceBid(k) => r := PlaceBid(sender, value, k);
        case CallMakeOffer(k) => r := MakeOffer(sender, value, k);
      }
    }

    /** Listing and sale: the calls that move a token. */
    method CallTrade(sender: Address, value: Uint256, call: Call) returns (r: Result<()>)
      requires Valid()
      requires call.CallCreateMarketItem? || call.CallCreateMarketSale?
      modifies this`collectionToMarketItems, this`collectionTokenIds, this`ether, this`userPurchases, this`userPurchaseCount, this`history, repr
      ensures Valid()
      ensures Ends(Market.Body(old(Abstract()), sender, value, call), r, old(Abstract()).(ledgers := Ledgers(), ether := ether, book := BookValue()))
    {
      hide Market.CreateMarketItem, Market.CreateMarketSale, RegisterValue, Ledgers, Valid;
      match call {
        case CallCreateMarketItem(k, price) => r := CreateMarketItem(sender, value, k, price);
        case CallCreateMarketSale(k, sellerAccepts) => r := CreateMarketSale(sender, value, k, sellerAccepts);
      }
    }

    /** Dispatch on the called function. */
    method Body(sender: Address, value: Uint256, call: Call) returns (r: Result<()>)
      requires Valid() && sender != ZERO_ADDRESS && (call.Payable() || value == 0)
      modifies this, repr
      ensures Valid() && fresh(repr - old(repr))
      ensures Ends(Market.Body(old(Abstract()), sender, value, call), r, Abstract())
    {
      hide Market.Body, RegisterValue, BookValue, Ledgers, Valid;
      match call {
        case CallAddCategory(_) => r := CallRegister(sender, call);
        case CallCreateCollection(_, _, _, _, _) => r := CallRegister(sender, call);
        case CallUpdateSupply(_) => r := CallRegister(sender, call);
        case CallCreateAuction(_, _, _) => r := CallAuction(sender, value, call);
        case CallPlaceBid(_) => r := CallAuction(sender, value, call);
        case CallMakeOffer(_) => r := CallAuction(sender, value, call);
        case CallCreateMarketItem(_, _) => r := CallTrade(sender, value, call);
        case CallCreateMarketSale(_, _) => r := CallTrade(sender, value, call);
        case _ => r := CallCollection(sender, call);
      }
    }

    /** The checks before a call, the ether attached to it, and its body. */
    method Attempt(sender: Address, value: Uint256, call: Call) returns (r: Result<()>)
      requires Valid()
      modifies this, repr
      ensures Valid() && fresh(repr - old(repr))
      ensures Ends(Market.Transact(old(Abstract()), sender, value, call), r, Abstract())
    {
      hide Market.Body, MoveEther;
      if !LegalSender(sender) {
        return Reverted(IllegalSender);
      }
      if value > Lookup(ether, sender, 0) {
        return Reverted(InsufficientFunds);
      }
      if value > 0 && !call.Payable() {
        return Reverted(NotPayable);
      }
      ether := MoveEther(ether, sender, MARKET, value);
      r := Body(sender, value, call);
    }

    method Transact(sender: Address, value: Uint256, call: Call) returns (r: Result<()>)
      requires Valid()
      modifies this, repr
      ensures Valid() && fresh(repr - old(repr))
      ensures Completed(old(Abstract()), Market.Transact(old(Abstract()), sender, value, call), r)
    {
      var saved, savedContracts := Abstract(), contracts;
      ghost var savedRepr := repr;
      DeployedLedgers();
      hide Market.Transact, Ledgers, RegisterValue, BookValue;
      r := Attempt(sender, value, call);
      if r.Reverted? {
        Restore(saved, savedContracts, savedRepr);
      }
    }

    method SendEther(sender: Address, to: Address, value: Uint256) returns (r: Result<()>)
      requires Valid()
      modifies this`ether, this`history
      ensures Valid()
      ensures Completed(old(Abstract()), Market.SendEther(old(Abstract()), sender, to, value), r)
    {
      if !LegalSender(sender) {
        return Reverted(IllegalSender);
      }
      if value > Lookup(ether, sender, 0) {
        return Reverted(InsufficientFunds);
      }
      if to == MARKET || to in contracts {
        return Reverted(NotPayable);
      }
      ether := MoveEther(ether, sender, to, value);
      history := Then(history, EtherSent(sender, to, value));
      return Ok(());
    }

    method Tick(time: Uint256) returns (r: Result<()>)
      requires Valid()
      modifies this`blockTimestamp
      ensures Valid()
      ensures Completed(old(Abstract()), Market.Tick(old(Abstract()), time), r)
    {
      if time < blockTimestamp {
        return Reverted(TimeWentBack);
      }
      blockTimestamp := time;
      return Ok(());
    }

    /** `mint` up to the callback; `newTokenId` is the local the source keeps across it. */
    method StartMint(sender: Address, c: Address, to: Address) returns (r: Result<()>, newTokenId: Uint256)
      requires Valid()
      modifies repr
      ensures Valid()
      ensures Ends(Market.StartMint(old(Abstract()), sender, c, to), r, old(Abstract()).(ledgers := Ledgers()))
      ensures r.Ok? ==> newTokenId == Lookup(Ledgers(), c, NewLedger(ZERO_ADDRESS)).minted
    {
      hide ERC721.BeginMint;
      newTokenId := 0;
      if !LegalSender(sender) {
        r := Reverted(IllegalSender);
      } else if c !in contracts {
        r := Reverted(CollectionDoesNotExist);
      } else {
        r := contracts[c].BeginMint(sender, to);
        newTokenId := contracts[c].tokenIds;
        assert Ledgers() == old(Ledgers())[c := contracts[c].Value()];
      }
    }

    method StoreUri(c: Address, tokenId: Uint256, uri: Bytes) returns (r: Result<()>)
      requires Valid()
      modifies repr
      ensures Valid()
      ensures Ends(OnLedger(old(Abstract()), c, Ok(ERC721.SetTokenUri(old(Abstract()).LedgerOf(c), tokenId, uri))), r, old(Abstract()).(ledgers := Ledgers()))
    {
      if c !in contracts {
        return Reverted(CollectionDoesNotExist);
      }
      contracts[c].SetTokenUri(tokenId, uri);
      assert Ledgers() == old(Ledgers())[c := contracts[c].Value()];
      return Ok(());
    }

    /** `mint` after the callback. */
    method FinishMint(c: Address, newTokenId: Uint256, uri: Bytes) returns (r: Result<()>)
      requires Valid()
      modifies this`collections, this`history, repr
      ensures Valid()
      ensures Ends(Market.FinishMint(old(Abstract()), c, newTokenId, uri), r, old(Abstract()).(
        ledgers := Ledgers(), register := RegisterValue(), book := BookValue()))
    {
      hide Ledgers, OnLedger, Market.UpdateCollectionTotalSupply;
      r := StoreUri(c, newTokenId, uri);
      if r.Reverted? {
        return;
      }
      r := UpdateCollectionTotalSupply(c, c);
      history := Then(history, MintReturned(c, newTokenId));
    }

    /** A whole transaction, callbacks included, with the EVM's rollback when it fails. */
    method Execute(tx: Tx) returns (r: Result<()>)
      requires Valid()
      modifies this, repr
      ensures Valid() && fresh(repr - old(repr))
      ensures Completed(old(Abstract()), Exec(old(Abstract()), tx), r)
      decreases tx, 2
    {
      hide Market.Transact, Market.SendEther, Market.Tick, Market.StartMint, Market.FinishMint, Ledgers, RegisterValue, BookValue;
      match tx {
        case Plain(DoTransact(sender, value, call)) => r := Transact(sender, value, call);
        case Plain(DoSend(sender, to, value)) => r := SendEther(sender, to, value);
        case Plain(DoTick(time)) => r := Tick(time);
        case Plain(_) => r := Reverted(NotAnExternalCall);
        case Mint(sender, c, to, uri, callback, accepts) => r := ExecuteMint(tx, sender, c, to, uri, callback, accepts);
        case SafeTransfer(sender, from, to, k, callback, accepts) => r := ExecuteSafeTransfer(tx, sender, from, to, k, callback, accepts);
      }
    }

    method ExecuteMint(ghost tx: Tx, sender: Address, c: Address, to: Address, uri: Bytes, callback: seq<Tx>, accepts: bool) returns (r: Result<()>)
      requires Valid() && tx == Mint(sender, c, to, uri, callback, accepts)
      modifies this, repr
      ensures Valid() && fresh(repr - old(repr))
      ensures Completed(old(Abstract()), Exec(old(Abstract()), tx), r)
      decreases tx, 1
    {
      var saved, savedContracts := Abstract(), contracts;
      ghost var savedRepr := repr;
      assert savedContracts.Keys == saved.ledgers.Keys;
      hide Exec, Ledgers, RegisterValue, BookValue;
      r := MintBody(tx, sender, c, to, uri, callback, accepts);
      if r.Reverted? {
        Restore(saved, savedContracts, savedRepr);
      }
    }

    method MintBody(ghost tx: Tx, sender: Address, c: Address, to: Address, uri: Bytes, callback: seq<Tx>, accepts: bool) returns (r: Result<()>)
      requires Valid() && tx == Mint(sender, c, to, uri, callback, accepts)
      modifies this, repr
      ensures Valid() && fresh(repr - old(repr))
      ensures Ends(Exec(old(Abstract()), tx), r, Abstract())
      decreases tx, 0
    {
      hide Market.StartMint, Market.FinishMint, Ledgers, RegisterValue, BookValue;
      var newTokenId;
      r, newTokenId := StartMint(sender, c, to);
      if r.Reverted? {
        return;
      }
      var refuses := !accepts || to == MARKET || to in contracts;
      DeployedLedgers();
      ExecuteAll(callback);
      if refuses {
        return Reverted(ReceiverRejectedToken);
      }
      r := FinishMint(c, newTokenId, uri);
    }

    method ExecuteSafeTransfer(ghost tx: Tx, sender: Address, from: Address, to: Address, k: TokenKey, callback: seq<Tx>, accepts: bool) returns (r: Result<()>)
      requires Valid() && tx == SafeTransfer(sender, from, to, k, callback, accepts)
      modifies this, repr
      ensures Valid() && fresh(repr - old(repr))
      ensures Completed(old(Abstract()), Exec(old(Abstract()), tx), r)
      decreases tx, 0
    {
      var saved, savedContracts := Abstract(), contracts;
      ghost var savedRepr := repr;
      assert savedContracts.Keys == saved.ledgers.Keys;
      hide Market.Transact, Ledgers, RegisterValue, BookValue;
      r := Transact(sender, 0, CallTransferFrom(from, to, k));
      if r.Ok? {
        var refuses := !accepts || to == MARKET || to in contracts;
        ExecuteAll(callback);
        if refuses {
          Restore(saved, savedContracts, savedRepr);
          r := Reverted(ReceiverRejectedToken);
        }
      }
    }

    /** What a receiver does when it is called back: one transaction after another, a failed one undone. */
    method ExecuteAll(txs: seq<Tx>)
      requires Valid()
      modifies this, repr
      ensures Valid() && fresh(repr - old(repr))
      ensures Abstract() == ExecAll(old(Abstract()), txs)
      decreases txs, 0
    {
      hide Exec, Abstract;
      for i := 0 to |txs|
        invariant Valid() && fresh(repr - old(repr))
        invariant ExecAll(Abstract(), txs[i..]) == ExecAll(old(Abstract()), txs)
      {
        var r := Execute(txs[i]);
        assert txs[i..][1..] == txs[i + 1..];
      }
    }
  }
}
