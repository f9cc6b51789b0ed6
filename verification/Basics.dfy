/** Types shared by the whole model: EVM words, addresses, and the outcome of a call. */
module Basics {

  /** An account or contract address. The model only compares addresses, so their width is irrelevant. */
  type Address = nat

  const ZERO_ADDRESS: Address := 0

  /** `address(this)` of the marketplace. Only its being nonzero matters. */
  const MARKET: Address := 1

  const MAX_UINT256: nat := 0xffff_ffff_ffff_ffff_ffff_ffff_ffff_ffff_ffff_ffff_ffff_ffff_ffff_ffff_ffff_ffff

  type Uint256 = n: nat | n <= MAX_UINT256

  /** Solidity strings are byte arrays. */
  type Bytes = seq<bv8>

  /** Why a call was rolled back: one value for each `require`, custom error, panic or EVM failure. */
  datatype Reason =
    | IllegalSender            // the zero address and the marketplace itself send no transactions
    | InsufficientFunds        // the sender cannot pay the attached ether
    | ArithmeticOverflow       // checked arithmetic, panic 0x11
    | IndexOutOfBounds         // array access, panic 0x32
    | AddressCollision         // contract creation at an address in use
    | NotPayable               // plain ether sent to a contract with no receive function
    | SellerRejectedEther
    | ReceiverRejectedToken
    | TimeWentBack
    | NotAnExternalCall
    | OwnableUnauthorizedAccount
    | CategoryAlreadyExists | InvalidCategory | CategoryDoesNotExist
    | CollectionDoesNotExist | OnlyCollection
    | PriceIsZero | WrongListingFee
    | NotOnSale | OnAuction | WrongAskingPrice
    | OnlySeller | AlreadyOnAuction | NotAnAuction | AuctionEnded | BidTooLow
    | OfferIsZero
    | ERC721NonexistentToken | ERC721InsufficientApproval | ERC721InvalidReceiver
    | ERC721IncorrectOwner | ERC721InvalidApprover | ERC721InvalidOperator | ERC721InvalidSender

  /** A call either completes with a value or is rolled back. */
  datatype Result<+T> = Ok(value: T) | Reverted(reason: Reason) {
    predicate IsFailure() {
      Reverted?
    }

    function PropagateFailure<U>(): Result<U>
      requires Reverted?
    {
      Reverted(reason)
    }

    function Extract(): T
      requires Ok?
    {
      value
    }
  }

  /** Reading a Solidity mapping: absent keys hold the default value. */
  function Lookup<K, V>(m: map<K, V>, k: K, default: V): V {
    if k in m then m[k] else default
  }

  /** The token `tokenId` of the collection contract `collection`. */
  datatype TokenKey = TokenKey(collection: Address, tokenId: Uint256)
}
