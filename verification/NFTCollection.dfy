/** The collection contract: an object whose methods update the token ledger step by step. */
module Collections {
  import opened Basics
  import opened ERC721

  /**
   * What a method did: the ledger is the one the specification gives, or the method failed with the
   * specified reason. A failed method may leave half-made changes; undoing them is the caller's frame's job.
   */
  ghost predicate Did(spec: Result<Ledger>, after: Ledger, r: Result<()>) {
    match spec
    case Ok(l) => r.Ok? && after == l
    case Reverted(why) => r == Reverted(why)
  }

  class NFTCollection {
    var owners: map<Uint256, Address>
    var balances: map<Address, Uint256>
    var tokenApprovals: map<Uint256, Address>
    var operatorApprovals: set<(Address, Address)>
    var tokenUris: map<Uint256, Bytes>
    var owner: Address
    var tokenIds: Uint256

    /** The contract's storage as a value. */
    function Value(): Ledger
      reads this
    {
      Ledger(owners, balances, tokenApprovals, operatorApprovals, tokenUris, owner, tokenIds)
    }

    constructor (initialOwner: Address)
      ensures Value() == NewLedger(initialOwner)
    {
      owners, balances, tokenApprovals, operatorApprovals, tokenUris := map[], map[], map[], {}, map[];
      owner, tokenIds := initialOwner, 0;
    }

    /** Put the contract's storage back to an earlier value. */
    method Restore(l: Ledger)
      modifies this
      ensures Value() == l
    {
      owners, balances, tokenApprovals, operatorApprovals := l.owners, l.balances, l.approvals, l.operators;
      tokenUris, owner, tokenIds := l.uris, l.admin, l.minted;
    }

    /** `_update` */
    method Update(to: Address, tokenId: Uint256, auth: Address) returns (r: Result<Address>)
      modifies this
      ensures match ERC721.Update(old(Value()), to, tokenId, auth)
        case Ok((l, from)) => r == Ok(from) && Value() == l
        case Reverted(why) => r == Reverted(why)
    {
      var from := Lookup(owners, tokenId, ZERO_ADDRESS);
      if auth != ZERO_ADDRESS {
        if !Value().IsAuthorized(from, auth, tokenId) {
          return Reverted(if from == ZERO_ADDRESS then ERC721NonexistentToken else ERC721InsufficientApproval);
        }
      }
      if from != ZERO_ADDRESS {
        tokenApprovals := tokenApprovals[tokenId := ZERO_ADDRESS];
        balances := balances[from := WrappingDec(Lookup(balances, from, 0))];
      }
      if to != ZERO_ADDRESS {
        balances := balances[to := WrappingInc(Lookup(balances, to, 0))];
      }
      owners := owners[tokenId := to];
      return Ok(from);
    }

    method TransferFrom(sender: Address, from: Address, to: Address, tokenId: Uint256) returns (r: Result<()>)
      modifies this
      ensures Did(ERC721.TransferFrom(old(Value()), sender, from, to, tokenId), Value(), r)
    {
      if to == ZERO_ADDRESS {
        return Reverted(ERC721InvalidReceiver);
      }
      var updated := Update(to, tokenId, sender);
      if updated.Reverted? {
        return Reverted(updated.reason);
      }
      if updated.value != from {
        return Reverted(ERC721IncorrectOwner);
      }
      return Ok(());
    }

    /** `_approve` with the caller as `auth` */
    method Approve(sender: Address, to: Address, tokenId: Uint256) returns (r: Result<()>)
      modifies this
      ensures Did(ERC721.Approve(old(Value()), sender, to, tokenId), Value(), r)
    {
      var holder := Lookup(owners, tokenId, ZERO_ADDRESS);
      if holder == ZERO_ADDRESS {
        return Reverted(ERC721NonexistentToken);
      }
      if sender != ZERO_ADDRESS && holder != sender && (holder, sender) !in operatorApprovals {
        return Reverted(ERC721InvalidApprover);
      }
      tokenApprovals := tokenApprovals[tokenId := to];
      return Ok(());
    }

    method SetApprovalForAll(sender: Address, operator: Address, approved: bool) returns (r: Result<()>)
      modifies this
      ensures Did(ERC721.SetApprovalForAll(old(Value()), sender, operator, approved), Value(), r)
    {
      if operator == ZERO_ADDRESS {
        return Reverted(ERC721InvalidOperator);
      }
      if approved {
        operatorApprovals := operatorApprovals + {(sender, operator)};
      } else {
        operatorApprovals := operatorApprovals - {(sender, operator)};
      }
      return Ok(());
    }

    /** `mint` and `_safeMint` up to the receiver's callback. */
    method BeginMint(sender: Address, to: Address) returns (r: Result<()>)
      modifies this
      ensures Did(ERC721.BeginMint(old(Value()), sender, to), Value(), r)
    {
      if sender != owner {
        return Reverted(OwnableUnauthorizedAccount);
      }
      if tokenIds == MAX_UINT256 {
        return Reverted(ArithmeticOverflow);
      }
      tokenIds := tokenIds + 1;
      var newTokenId := tokenIds;
      if to == ZERO_ADDRESS {
        return Reverted(ERC721InvalidReceiver);
      }
      var updated := Update(to, newTokenId, ZERO_ADDRESS);
      if updated.value != ZERO_ADDRESS {
        return Reverted(ERC721InvalidSender);
      }
      return Ok(());
    }

    method SetTokenUri(tokenId: Uint256, uri: Bytes)
      modifies this
      ensures Value() == ERC721.SetTokenUri(old(Value()), tokenId, uri)
    {
      tokenUris := tokenUris[tokenId := uri];
    }
  }
}
