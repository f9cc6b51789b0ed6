/** A call that fails names a reason that really applies, and the reason belongs to that call. */
module Reasons {
  import opened Basics
  import opened ERC721
  import opened Market
  import opened TokenCalls

  /** Why a token cannot be moved. */
  predicate MoveFails(l: Ledger, sender: Address, from: Address, to: Address, tokenId: Uint256, why: Reason) {
    match why
    case ERC721InvalidReceiver => to == ZERO_ADDRESS
    case ERC721NonexistentToken => l.OwnerOf(tokenId) == ZERO_ADDRESS
    case ERC721InsufficientApproval =>
      var owner := l.OwnerOf(tokenId);
      owner != ZERO_ADDRESS && sender != owner && (owner, sender) !in l.operators && l.Approved(tokenId) != sender
    case ERC721IncorrectOwner => l.OwnerOf(tokenId) != from
    case _ => false
  }

  lemma MoveReason(l: Ledger, sender: Address, from: Address, to: Address, tokenId: Uint256)
    requires sender != ZERO_ADDRESS
    ensures var r := TransferFrom(l, sender, from, to, tokenId); r.Reverted? ==> MoveFails(l, sender, from, to, tokenId, r.reason)
  {
  }

  /** Why the body of a call fails, in the state it runs in. */
  predicate BodyFails(s: State, sender: Address, value: Uint256, call: Call, why: Reason) {
    match call
    case CallAddCategory(category) =>
      if why == OwnableUnauthorizedAccount then sender != s.admin else
      why == CategoryAlreadyExists && category in s.register.categoryExists
    case CallCreateCollection(c, _, _, _, category) =>
      if why == InvalidCategory then category !in s.register.categoryExists else
      why == AddressCollision && (c == ZERO_ADDRESS || c == MARKET || c in s.ledgers)
    case CallUpdateSupply(c) =>
      if why == CollectionDoesNotExist then !s.register.IsActive(c) else
      why == OnlyCollection && sender != c
    case CallCreateMarketItem(k, price) => (
      match why
      case CollectionDoesNotExist => !s.register.IsActive(k.collection)
      case PriceIsZero => price == 0
      case WrongListingFee => value != LISTING_FEE
      case _ => MoveFails(s.LedgerOf(k.collection), MARKET, sender, MARKET, k.tokenId, why))
    case CallCreateMarketSale(k, sellerAccepts) => (
      match why
      case NotOnSale => !s.book.Item(k).isOnSale
      case OnAuction => s.book.Item(k).isAuction
      case WrongAskingPrice => value != s.book.Item(k).price
      case SellerRejectedEther => !sellerAccepts || s.Ether(MARKET) < value
      case ArithmeticOverflow => s.book.PurchaseCount(sender) + 1 > MAX_UINT256
      case _ => MoveFails(s.LedgerOf(k.collection), MARKET, MARKET, sender, k.tokenId, why))
    case CallCreateAuction(k, _, duration) => (
      match why
      case OnlySeller => s.book.Item(k).seller != sender
      case AlreadyOnAuction => s.book.Item(k).isAuction
      case ArithmeticOverflow => s.now + duration > MAX_UINT256
      case _ => false)
    case CallPlaceBid(k) => (
      match why
      case NotAnAuction => !s.book.Item(k).isAuction
      case AuctionEnded => s.now >= s.book.Item(k).auctionEndTime
      case BidTooLow => value <= s.book.Item(k).highestBid
      case ArithmeticOverflow => s.book.Pending(k, s.book.Item(k).highestBidder) + s.book.Item(k).highestBid > MAX_UINT256
      case _ => false)
    case CallMakeOffer(k) => (
      match why
      case NotOnSale => !s.book.Item(k).isOnSale
      case OnAuction => s.book.Item(k).isAuction
      case OfferIsZero => value == 0
      case _ => false)
    case CallApprove(_, k) =>
      var l := s.LedgerOf(k.collection); var owner := l.OwnerOf(k.tokenId); (
      match why
      case CollectionDoesNotExist => k.collection !in s.ledgers
      case ERC721NonexistentToken => owner == ZERO_ADDRESS
      case ERC721InvalidApprover => sender != owner && (owner, sender) !in l.operators
      case _ => false)
    case CallSetApprovalForAll(c, operator, _) =>
      if why == CollectionDoesNotExist then c !in s.ledgers else why == ERC721InvalidOperator && operator == ZERO_ADDRESS
    case CallTransferFrom(from, to, k) =>
      if why == CollectionDoesNotExist then k.collection !in s.ledgers else
      MoveFails(s.LedgerOf(k.collection), sender, from, to, k.tokenId, why)
  }

  lemma ListingReason(s: State, sender: Address, value: Uint256, k: TokenKey, price: Uint256)
    requires sender != ZERO_ADDRESS
    ensures var r := CreateMarketItem(s, sender, value, k, price); r.Reverted? ==> BodyFails(s, sender, value, CallCreateMarketItem(k, price), r.reason)
  {
    MoveReason(s.LedgerOf(k.collection), MARKET, sender, MARKET, k.tokenId);
    hide TransferFrom, NewLedger;
  }

  lemma SaleReason(s: State, sender: Address, value: Uint256, k: TokenKey, sellerAccepts: bool)
    requires sender != ZERO_ADDRESS
    ensures var r := CreateMarketSale(s, sender, value, k, sellerAccepts); r.Reverted? ==> BodyFails(s, sender, value, CallCreateMarketSale(k, sellerAccepts), r.reason)
  {
    MoveReason(s.LedgerOf(k.collection), MARKET, MARKET, sender, k.tokenId);
    hide TransferFrom, MoveEther, NewLedger;
  }

  lemma BodyReason(s: State, sender: Address, value: Uint256, call: Call)
    requires sender != ZERO_ADDRESS
    ensures var r := Body(s, sender, value, call); r.Reverted? ==> BodyFails(s, sender, value, call, r.reason)
  {
    match call
    case CallCreateMarketItem(k, price) =>
      ListingReason(s, sender, value, k, price);
      hide CreateMarketItem, BodyFails;
    case CallCreateMarketSale(k, sellerAccepts) =>
      SaleReason(s, sender, value, k, sellerAccepts);
      hide CreateMarketSale, BodyFails;
    case CallTransferFrom(from, to, k) =>
      MoveReason(s.LedgerOf(k.collection), sender, from, to, k.tokenId);
      hide TransferFrom, MoveFails;
    case _ =>
  }

  /** The reason a transaction fails for is true of it. */
  lemma ReasonIsTrue(s: State, sender: Address, value: Uint256, call: Call)
    ensures var r := Transact(s, sender, value, call);
      r.Reverted? ==>
        if !LegalSender(sender) then r.reason == IllegalSender
        else if value > s.Ether(sender) then r.reason == InsufficientFunds
        else (r.reason == NotPayable && value > 0 && !call.Payable()) || BodyFails(Arrived(s, sender, value), sender, value, call, r.reason)
  {
    if LegalSender(sender) && value <= s.Ether(sender) {
      BodyReason(Arrived(s, sender, value), sender, value, call);
    }
    hide Body, MoveEther, BodyFails;
  }
}
