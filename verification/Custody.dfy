/** Escrow: an item on sale is held by the marketplace, and nothing but its sale lets it go. */
module Custody {
  import opened Basics
  import opened ERC721
  import opened Market
  import opened Runs

  /** The marketplace owns the token and has approved nobody for it. */
  ghost predicate Held(l: Ledger, tokenId: Uint256) {
    tokenId in l.owners && l.owners[tokenId] == MARKET && l.Approved(tokenId) == ZERO_ADDRESS
  }

  /** The marketplace has approved nobody, for one token or for all. */
  ghost predicate LedgerInv(l: Ledger) {
    && l.Valid()
    && (forall o: Address :: (MARKET, o) !in l.operators)
    && (forall t | t in l.owners && l.owners[t] == MARKET :: Held(l, t))
  }

  ghost predicate LedgersInv(ledgers: map<Address, Ledger>) {
    forall c | c in ledgers :: LedgerInv(ledgers[c])
  }

  ghost predicate Escrowed(items: map<TokenKey, MarketItem>, ledgers: map<Address, Ledger>) {
    forall k | k in items && items[k].isOnSale :: k.collection in ledgers && Held(ledgers[k.collection], k.tokenId)
  }

  ghost predicate CustodyInv(s: State) {
    LedgersInv(s.ledgers) && Escrowed(s.book.items, s.ledgers)
  }

  // ---- One ledger ----

  /** The invariant is there afterwards, and every held token but possibly `except` still is. */
  ghost predicate Keeps(l: Ledger, l': Ledger, except: set<Uint256>) {
    LedgerInv(l') && forall t | Held(l, t) && t !in except :: Held(l', t)
  }

  /** Nothing a user does to a collection touches a token the marketplace holds. */
  lemma UserTransferKeeps(l: Ledger, sender: Address, from: Address, to: Address, tokenId: Uint256)
    requires LedgerInv(l) && LegalSender(sender)
    ensures var r := TransferFrom(l, sender, from, to, tokenId); r.Ok? ==> Keeps(l, r.value, {})
  {
    TransferFromExact(l, sender, from, to, tokenId);
  }

  lemma ApproveKeeps(l: Ledger, sender: Address, to: Address, tokenId: Uint256)
    requires LedgerInv(l) && LegalSender(sender)
    ensures var r := Approve(l, sender, to, tokenId); r.Ok? ==> Keeps(l, r.value, {})
  {
    ApproveKeepsValid(l, sender, to, tokenId);
  }

  lemma SetApprovalForAllKeeps(l: Ledger, sender: Address, operator: Address, approved: bool)
    requires LedgerInv(l) && LegalSender(sender)
    ensures var r := SetApprovalForAll(l, sender, operator, approved); r.Ok? ==> Keeps(l, r.value, {})
  {
    SetApprovalForAllKeepsValid(l, sender, operator, approved);
  }

  lemma BeginMintKeeps(l: Ledger, sender: Address, to: Address)
    requires LedgerInv(l)
    ensures var r := BeginMint(l, sender, to); r.Ok? ==> Keeps(l, r.value, {})
  {
    BeginMintExact(l, sender, to);
  }

  lemma SetTokenUriKeeps(l: Ledger, tokenId: Uint256, uri: Bytes)
    requires LedgerInv(l)
    ensures Keeps(l, SetTokenUri(l, tokenId, uri), {})
  {
    SetTokenUriKeepsValid(l, tokenId, uri);
  }

  /** Taking a token into escrow; it cannot have been there before. */
  lemma EscrowIn(l: Ledger, seller: Address, tokenId: Uint256)
    requires LedgerInv(l) && LegalSender(seller)
    ensures var r := TransferFrom(l, MARKET, seller, MARKET, tokenId);
      r.Ok? ==> Keeps(l, r.value, {}) && Held(r.value, tokenId) && !Held(l, tokenId)
  {
    TransferFromExact(l, MARKET, seller, MARKET, tokenId);
  }

  /** The marketplace can always hand over a token it holds. */
  lemma EscrowOut(l: Ledger, buyer: Address, tokenId: Uint256)
    requires LedgerInv(l) && LegalSender(buyer)
    ensures var r := TransferFrom(l, MARKET, MARKET, buyer, tokenId);
      && (Held(l, tokenId) ==> r.Ok?)
      && (r.Ok? ==> Keeps(l, r.value, {tokenId}) && r.value.OwnerOf(tokenId) == buyer)
  {
    TransferFromExact(l, MARKET, MARKET, buyer, tokenId);
  }

  // ---- The whole state ----

  lemma ReplaceLedger(items: map<TokenKey, MarketItem>, ledgers: map<Address, Ledger>, c: Address, l: Ledger)
    requires LedgersInv(ledgers) && Escrowed(items, ledgers)
    requires if c in ledgers then Keeps(ledgers[c], l, {}) else LedgerInv(l)
    ensures LedgersInv(ledgers[c := l]) && Escrowed(items, ledgers[c := l])
  {
  }

  lemma ReplaceItem(items: map<TokenKey, MarketItem>, ledgers: map<Address, Ledger>, k: TokenKey, item: MarketItem)
    requires Escrowed(items, ledgers)
    requires item.isOnSale ==> k.collection in ledgers && Held(ledgers[k.collection], k.tokenId)
    ensures Escrowed(items[k := item], ledgers)
  {
  }

  lemma ReleaseItem(items: map<TokenKey, MarketItem>, ledgers: map<Address, Ledger>, k: TokenKey, item: MarketItem, l: Ledger)
    requires LedgersInv(ledgers) && Escrowed(items, ledgers)
    requires k.collection in ledgers && Keeps(ledgers[k.collection], l, {k.tokenId}) && !item.isOnSale
    ensures LedgersInv(ledgers[k.collection := l]) && Escrowed(items[k := item], ledgers[k.collection := l])
  {
    forall j | j in items && j != k && items[j].isOnSale
      ensures j.collection in ledgers && Held(ledgers[k.collection := l][j.collection], j.tokenId)
    {
      assert j.collection == k.collection ==> j.tokenId != k.tokenId;
    }
  }

  lemma ListingKeepsCustody(s: State, sender: Address, value: Uint256, k: TokenKey, price: Uint256)
    requires CustodyInv(s) && LegalSender(sender) && s.ledgers.Keys == s.register.collections.Keys
    ensures var r := CreateMarketItem(s, sender, value, k, price); r.Ok? ==> CustodyInv(r.value)
  {
    var r := CreateMarketItem(s, sender, value, k, price);
    if r.Ok? {
      var l := TransferFrom(s.ledgers[k.collection], MARKET, sender, MARKET, k.tokenId).value;
      EscrowIn(s.ledgers[k.collection], sender, k.tokenId);
      ReplaceLedger(s.book.items, s.ledgers, k.collection, l);
      ReplaceItem(s.book.items, s.ledgers[k.collection := l], k, r.value.book.items[k]);
    }
  }

  lemma SaleKeepsCustody(s: State, sender: Address, value: Uint256, k: TokenKey, sellerAccepts: bool)
    requires CustodyInv(s) && LegalSender(sender)
    ensures var r := CreateMarketSale(s, sender, value, k, sellerAccepts); r.Ok? ==> CustodyInv(r.value)
  {
    var r := CreateMarketSale(s, sender, value, k, sellerAccepts);
    if r.Ok? {
      assert k in s.book.items;
      var l := TransferFrom(s.ledgers[k.collection], MARKET, MARKET, sender, k.tokenId).value;
      EscrowOut(s.ledgers[k.collection], sender, k.tokenId);
      ReleaseItem(s.book.items, s.ledgers, k, r.value.book.items[k], l);
    }
  }

  lemma LedgerCallKeepsCustody(s: State, sender: Address, value: Uint256, call: Call)
    requires CustodyInv(s) && LegalSender(sender)
    requires call.CallApprove? || call.CallSetApprovalForAll? || call.CallTransferFrom?
    ensures var r := Body(s, sender, value, call); r.Ok? ==> CustodyInv(r.value)
  {
    var r := Body(s, sender, value, call);
    if r.Ok? {
      match call
      case CallApprove(to, k) =>
        ApproveKeeps(s.ledgers[k.collection], sender, to, k.tokenId);
        ReplaceLedger(s.book.items, s.ledgers, k.collection, r.value.ledgers[k.collection]);
      case CallSetApprovalForAll(c, operator, approved) =>
        SetApprovalForAllKeeps(s.ledgers[c], sender, operator, approved);
        ReplaceLedger(s.book.items, s.ledgers, c, r.value.ledgers[c]);
      case CallTransferFrom(from, to, k) =>
        UserTransferKeeps(s.ledgers[k.collection], sender, from, to, k.tokenId);
        ReplaceLedger(s.book.items, s.ledgers, k.collection, r.value.ledgers[k.collection]);
    }
  }

  lemma CallKeepsCustody(s: State, sender: Address, value: Uint256, call: Call)
    requires CustodyInv(s) && LegalSender(sender) && s.ledgers.Keys == s.register.collections.Keys
    ensures var r := Body(s, sender, value, call); r.Ok? ==> CustodyInv(r.value)
  {
    var r := Body(s, sender, value, call);
    if r.Ok? {
      match call
      case CallCreateCollection(deployed, _, _, _, _) =>
        NewLedgerIsValid(sender);
        ReplaceLedger(s.book.items, s.ledgers, deployed, NewLedger(sender));
      case CallCreateMarketItem(k, price) => ListingKeepsCustody(s, sender, value, k, price);
      case CallCreateMarketSale(k, sellerAccepts) => SaleKeepsCustody(s, sender, value, k, sellerAccepts);
      case CallCreateAuction(k, _, _) => ReplaceItem(s.book.items, s.ledgers, k, r.value.book.items[k]);
      case CallPlaceBid(k) => ReplaceItem(s.book.items, s.ledgers, k, r.value.book.items[k]);
      case CallApprove(_, _) => LedgerCallKeepsCustody(s, sender, value, call);
      case CallSetApprovalForAll(_, _, _) => LedgerCallKeepsCustody(s, sender, value, call);
      case CallTransferFrom(_, _, _) => LedgerCallKeepsCustody(s, sender, value, call);
      case _ =>
    }
  }

  lemma FinishMintKeepsCustody(s: State, c: Address, tokenId: Uint256, uri: Bytes)
    requires CustodyInv(s)
    ensures var r := FinishMint(s, c, tokenId, uri); r.Ok? ==> CustodyInv(r.value)
  {
    if c in s.ledgers {
      SetTokenUriKeeps(s.ledgers[c], tokenId, uri);
      ReplaceLedger(s.book.items, s.ledgers, c, SetTokenUri(s.ledgers[c], tokenId, uri));
    }
  }

  lemma StartMintKeepsCustody(s: State, sender: Address, c: Address, to: Address)
    requires CustodyInv(s)
    ensures var r := StartMint(s, sender, c, to); r.Ok? ==> CustodyInv(r.value)
  {
    var r := StartMint(s, sender, c, to);
    if r.Ok? {
      BeginMintKeeps(s.ledgers[c], sender, to);
      ReplaceLedger(s.book.items, s.ledgers, c, r.value.ledgers[c]);
    }
  }

  lemma TransactKeepsCustody(s: State, sender: Address, value: Uint256, call: Call)
    requires CustodyInv(s) && s.ledgers.Keys == s.register.collections.Keys
    ensures var r := Transact(s, sender, value, call); r.Ok? ==> CustodyInv(r.value)
  {
    if Transact(s, sender, value, call).Ok? {
      CallKeepsCustody(s.(ether := MoveEther(s.ether, sender, MARKET, value)), sender, value, call);
    }
  }

  lemma StepKeepsCustody(s: State, step: Step)
    requires CustodyInv(s) && s.ledgers.Keys == s.register.collections.Keys
    ensures CustodyInv(After(s, step))
  {
    hide Transact, StartMint, FinishMint;
    match step
    case DoTransact(sender, value, call) => TransactKeepsCustody(s, sender, value, call);
    case DoStartMint(sender, c, to) => StartMintKeepsCustody(s, sender, c, to);
    case DoFinishMint(c, tokenId, uri) => FinishMintKeepsCustody(s, c, tokenId, uri);
    case _ =>
  }
}
