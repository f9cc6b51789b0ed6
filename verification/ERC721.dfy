/** The token ledger of one collection, as a value, and the ERC-721 operations on it. */
module ERC721 {
  import opened Basics
  import opened Sums

  /** `admin` is the Ownable owner, `minted` the counter `_tokenIds`; the rest are the ERC-721 mappings. */
  datatype Ledger = Ledger(
    owners: map<Uint256, Address>,
    balances: map<Address, Uint256>,
    approvals: map<Uint256, Address>,
    operators: set<(Address, Address)>,
    uris: map<Uint256, Bytes>,
    admin: Address,
    minted: Uint256)
  {
    function OwnerOf(tokenId: Uint256): Address {
      Lookup(owners, tokenId, ZERO_ADDRESS)
    }

    function BalanceOf(a: Address): Uint256 {
      Lookup(balances, a, 0)
    }

    function Approved(tokenId: Uint256): Address {
      Lookup(approvals, tokenId, ZERO_ADDRESS)
    }

    predicate IsAuthorized(owner: Address, spender: Address, tokenId: Uint256) {
      && spender != ZERO_ADDRESS
      && (owner == spender || (owner, spender) in operators || Approved(tokenId) == spender)
    }

    ghost function Owned(a: Address): set<Uint256> {
      set t | t in owners && owners[t] == a
    }

    /** What every collection ledger satisfies, whoever calls it and in whatever order. */
    ghost predicate Valid() {
      && (forall t: Uint256 :: t in owners <==> 1 <= t <= minted)
      && (forall t | t in owners :: owners[t] != ZERO_ADDRESS)
      && approvals.Keys <= owners.Keys
      && (forall o: Address :: (ZERO_ADDRESS, o) !in operators)
      && (forall a: Address :: BalanceOf(a) == |Owned(a)|)
      && Sum(balances) == minted
    }
  }

  function NewLedger(admin: Address): Ledger {
    Ledger(map[], map[], map[], {}, map[], admin, 0)
  }

  /** Unchecked 256-bit increment and decrement. */
  function WrappingInc(n: Uint256): Uint256 {
    if n == MAX_UINT256 then 0 else n + 1
  }

  function WrappingDec(n: Uint256): Uint256 {
    if n == 0 then MAX_UINT256 else n - 1
  }

  /** `_update`: move, or create, a token; with `auth` nonzero the caller's authority is checked. */
  function Update(l: Ledger, to: Address, tokenId: Uint256, auth: Address): Result<(Ledger, Address)> {
    var from := l.OwnerOf(tokenId);
    if auth != ZERO_ADDRESS && !l.IsAuthorized(from, auth, tokenId) then
      Reverted(if from == ZERO_ADDRESS then ERC721NonexistentToken else ERC721InsufficientApproval)
    else
      var l1 := if from == ZERO_ADDRESS then l else
        l.(approvals := l.approvals[tokenId := ZERO_ADDRESS],
           balances := l.balances[from := WrappingDec(l.BalanceOf(from))]);
      var l2 := if to == ZERO_ADDRESS then l1 else
        l1.(balances := l1.balances[to := WrappingInc(l1.BalanceOf(to))]);
      Ok((l2.(owners := l2.owners[tokenId := to]), from))
  }

  function TransferFrom(l: Ledger, sender: Address, from: Address, to: Address, tokenId: Uint256): Result<Ledger> {
    if to == ZERO_ADDRESS then Reverted(ERC721InvalidReceiver) else
    var (l', previousOwner) :- Update(l, to, tokenId, sender);
    if previousOwner != from then Reverted(ERC721IncorrectOwner) else Ok(l')
  }

  function Approve(l: Ledger, sender: Address, to: Address, tokenId: Uint256): Result<Ledger> {
    var owner := l.OwnerOf(tokenId);
    if owner == ZERO_ADDRESS then Reverted(ERC721NonexistentToken)
    else if sender != ZERO_ADDRESS && owner != sender && (owner, sender) !in l.operators then
      Reverted(ERC721InvalidApprover)
    else Ok(l.(approvals := l.approvals[tokenId := to]))
  }

  function SetApprovalForAll(l: Ledger, sender: Address, operator: Address, approved: bool): Result<Ledger> {
    if operator == ZERO_ADDRESS then Reverted(ERC721InvalidOperator)
    else Ok(l.(operators := if approved then l.operators + {(sender, operator)} else l.operators - {(sender, operator)}))
  }

  /** `mint` up to the moment the receiver is called back: the counter has moved and the token exists. */
  function BeginMint(l: Ledger, sender: Address, to: Address): Result<Ledger> {
    if sender != l.admin then Reverted(OwnableUnauthorizedAccount)
    else if l.minted == MAX_UINT256 then Reverted(ArithmeticOverflow)
    else if to == ZERO_ADDRESS then Reverted(ERC721InvalidReceiver)
    else
      var (l', previousOwner) :- Update(l.(minted := l.minted + 1), to, l.minted + 1, ZERO_ADDRESS);
      if previousOwner != ZERO_ADDRESS then Reverted(ERC721InvalidSender) else Ok(l')
  }

  function SetTokenUri(l: Ledger, tokenId: Uint256, uri: Bytes): Ledger {
    l.(uris := l.uris[tokenId := uri])
  }

  /** `ERC721URIStorage.tokenURI`; collections never override the empty `_baseURI`. */
  function TokenUri(l: Ledger, tokenId: Uint256): Result<Bytes> {
    if l.OwnerOf(tokenId) == ZERO_ADDRESS then Reverted(ERC721NonexistentToken)
    else Ok(Lookup(l.uris, tokenId, []))
  }

  // ---- Properties ----

  lemma NewLedgerIsValid(admin: Address)
    ensures NewLedger(admin).Valid()
  {
  }

  lemma OwnedAfter(l: Ledger, tokenId: Uint256, to: Address, l': Ledger, a: Address)
    requires to != ZERO_ADDRESS && l'.owners == l.owners[tokenId := to]
    ensures |l'.Owned(a)| == |l.Owned(a)| + (if a == to then 1 else 0) - (if tokenId in l.owners && a == l.owners[tokenId] then 1 else 0)
  {
    var o, o' := l.Owned(a), l'.Owned(a);
    if a == to {
      assert o' == o + {tokenId};
    } else {
      assert o' == o - {tokenId};
    }
  }

  /** No decrement or increment of a balance wraps when a token moves. */
  lemma MoveDoesNotWrap(l: Ledger, from: Address, to: Address, tokenId: Uint256)
    requires l.Valid() && tokenId in l.owners && l.owners[tokenId] == from
    ensures l.BalanceOf(from) >= 1
    ensures to != from ==> l.BalanceOf(to) < MAX_UINT256
  {
    assert tokenId in l.Owned(from);
    SumRemove(l.balances, from);
    SumBoundsMember(l.balances - {from}, to);
  }

  /** `to` now holds `from`'s token, its approval is cleared and one unit of balance has moved. */
  ghost predicate Moved(l: Ledger, l': Ledger, from: Address, to: Address, tokenId: Uint256) {
    && l'.owners == l.owners[tokenId := to]
    && l'.approvals == l.approvals[tokenId := ZERO_ADDRESS]
    && l'.operators == l.operators && l'.uris == l.uris && l'.admin == l.admin && l'.minted == l.minted
    && (forall a: Address :: l'.BalanceOf(a) == l.BalanceOf(a) + (if a == to then 1 else 0) - (if a == from then 1 else 0))
    && Sum(l'.balances) == Sum(l.balances)
  }

  lemma UpdateMoves(l: Ledger, from: Address, to: Address, tokenId: Uint256, auth: Address)
    requires l.Valid() && to != ZERO_ADDRESS && l.OwnerOf(tokenId) == from != ZERO_ADDRESS
    ensures var r := Update(l, to, tokenId, auth); r.Ok? ==> Moved(l, r.value.0, from, to, tokenId)
  {
    MoveDoesNotWrap(l, from, to, tokenId);
    hide Ledger.Valid, Ledger.IsAuthorized;
    var r := Update(l, to, tokenId, auth);
    if r.Ok? {
      var taken := l.balances[from := WrappingDec(l.BalanceOf(from))];
      SumMove(l.balances, taken, r.value.0.balances, from, to, 1);
      forall a: Address
        ensures r.value.0.BalanceOf(a) == l.BalanceOf(a) + (if a == to then 1 else 0) - (if a == from then 1 else 0)
      {
        assert r.value.0.BalanceOf(a) == if a == to then WrappingInc(Lookup(taken, to, 0)) else Lookup(taken, a, 0);
      }
    }
  }

  lemma MovedKeepsValid(l: Ledger, l': Ledger, from: Address, to: Address, tokenId: Uint256)
    requires l.Valid() && Moved(l, l', from, to, tokenId)
    requires to != ZERO_ADDRESS && tokenId in l.owners && l.owners[tokenId] == from
    ensures l'.Valid()
  {
    forall a: Address
      ensures l'.BalanceOf(a) == |l'.Owned(a)|
    {
      OwnedAfter(l, tokenId, to, l', a);
    }
  }

  /**
   * `transferFrom` succeeds exactly when the token exists, `from` owns it, `to` is nonzero and the caller
   * is the owner, an operator or the approved address; it then changes that token's owner, clears its
   * approval, moves one unit of balance and does nothing else.
   */
  lemma TransferFromExact(l: Ledger, sender: Address, from: Address, to: Address, tokenId: Uint256)
    requires l.Valid() && sender != ZERO_ADDRESS
    ensures var r := TransferFrom(l, sender, from, to, tokenId);
      && (r.Ok? <==> to != ZERO_ADDRESS && tokenId in l.owners && l.owners[tokenId] == from && l.IsAuthorized(from, sender, tokenId))
      && (r.Ok? ==> r.value.Valid() && Moved(l, r.value, from, to, tokenId))
  {
    var r := TransferFrom(l, sender, from, to, tokenId);
    if r.Ok? {
      UpdateMoves(l, from, to, tokenId, sender);
      MovedKeepsValid(l, r.value, from, to, tokenId);
    }
  }

  lemma ApproveKeepsValid(l: Ledger, sender: Address, to: Address, tokenId: Uint256)
    requires l.Valid()
    ensures var r := Approve(l, sender, to, tokenId); r.Ok? ==> r.value.Valid()
  {
    var r := Approve(l, sender, to, tokenId);
    if r.Ok? {
      assert forall a: Address :: r.value.Owned(a) == l.Owned(a);
    }
  }

  lemma SetApprovalForAllKeepsValid(l: Ledger, sender: Address, operator: Address, approved: bool)
    requires l.Valid() && sender != ZERO_ADDRESS
    ensures var r := SetApprovalForAll(l, sender, operator, approved); r.Ok? ==> r.value.Valid()
  {
    var r := SetApprovalForAll(l, sender, operator, approved);
    if r.Ok? {
      assert forall a: Address :: r.value.Owned(a) == l.Owned(a);
    }
  }

  lemma SetTokenUriKeepsValid(l: Ledger, tokenId: Uint256, uri: Bytes)
    requires l.Valid()
    ensures SetTokenUri(l, tokenId, uri).Valid()
  {
    assert forall a: Address :: SetTokenUri(l, tokenId, uri).Owned(a) == l.Owned(a);
  }

  /** The next id now exists and belongs to `to`, whose balance is one more. */
  ghost predicate Added(l: Ledger, l': Ledger, to: Address) {
    && l.minted < MAX_UINT256 && l'.minted == l.minted + 1 && l'.minted !in l.owners
    && l'.owners == l.owners[l'.minted := to]
    && l'.approvals == l.approvals && l'.operators == l.operators && l'.uris == l.uris && l'.admin == l.admin
    && (forall a: Address :: l'.BalanceOf(a) == l.BalanceOf(a) + if a == to then 1 else 0)
    && Sum(l'.balances) == Sum(l.balances) + 1
  }

  lemma AddedKeepsValid(l: Ledger, l': Ledger, to: Address)
    requires l.Valid() && Added(l, l', to) && to != ZERO_ADDRESS
    ensures l'.Valid()
  {
    forall a: Address
      ensures l'.BalanceOf(a) == |l'.Owned(a)|
    {
      OwnedAfter(l, l'.minted, to, l', a);
    }
  }

  /** Minting fails only for a stranger, a zero receiver or an exhausted counter, and adds exactly the next id. */
  lemma BeginMintExact(l: Ledger, sender: Address, to: Address)
    requires l.Valid()
    ensures var r := BeginMint(l, sender, to);
      && (r.Ok? <==> sender == l.admin && to != ZERO_ADDRESS && l.minted < MAX_UINT256)
      && (r.Ok? ==> r.value.Valid() && Added(l, r.value, to))
  {
    var r := BeginMint(l, sender, to);
    if sender == l.admin && to != ZERO_ADDRESS && l.minted < MAX_UINT256 {
      SumBoundsMember(l.balances, to);
      SumUpdate(l.balances, to, l.BalanceOf(to) + 1);
      AddedKeepsValid(l, r.value, to);
    }
  }
}
