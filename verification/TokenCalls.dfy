/**
 * What a call made directly to a collection contract needs, and everything it does: exactly which caller may
 * make it, which entries of the ledger it changes, and that the rest of the world stays as it was.
 */
module TokenCalls {
  import opened Basics
  import opened ERC721
  import opened Market
  import opened Custody
  import opened Money
  import opened Reachability
  import opened Escrow

  // ---- Frames, shared by all calls ----

  ghost predicate SameEther(s: State, t: State) {
    forall a: Address :: t.Ether(a) == s.Ether(a)
  }

  /** `from` has paid `amount` to `to`, and no other balance moved. */
  ghost predicate Pays(s: State, t: State, from: Address, to: Address, amount: nat) {
    forall a: Address :: t.Ether(a) == s.Ether(a) + (if a == to then amount else 0) - (if a == from then amount else 0)
  }

  /** Besides ether, at most the ledger of `c` differs. */
  ghost predicate OnlyLedger(s: State, t: State, c: Address) {
    && t.admin == s.admin && t.now == s.now && t.register == s.register && t.book == s.book
    && SameLedgersBut(s, t, c)
  }

  ghost predicate SameLedgersBut(s: State, t: State, c: Address) {
    t.ledgers.Keys == s.ledgers.Keys && forall d | d in s.ledgers && d != c :: t.ledgers[d] == s.ledgers[d]
  }

  /** The state in which a call's body runs: the attached ether has arrived. */
  function Arrived(s: State, sender: Address, value: Uint256): State
    requires value <= s.Ether(sender)
  {
    s.(ether := MoveEther(s.ether, sender, MARKET, value))
  }

  lemma ArrivedPays(s: State, sender: Address, value: Uint256)
    requires value <= s.Ether(sender)
    ensures Pays(s, Arrived(s, sender, value), sender, MARKET, value)
    ensures value == 0 ==> SameEther(s, Arrived(s, sender, value))
  {
    MoveEtherExact(s.ether, sender, MARKET, value);
    assert forall a: Address :: Lookup(MoveEther(s.ether, sender, MARKET, value), a, 0) == s.Ether(a) + Paid(sender, MARKET, value, a);
  }

  /** The checks made of every call. */
  lemma TransactIsBody(s: State, sender: Address, value: Uint256, call: Call)
    ensures var r := Transact(s, sender, value, call);
      r.Ok? <==>
        && LegalSender(sender) && value <= s.Ether(sender)
        && (value > 0 ==> call.CallCreateMarketItem? || call.CallCreateMarketSale? || call.CallPlaceBid? || call.CallMakeOffer?)
        && Body(Arrived(s, sender, value), sender, value, call).Ok?
    ensures var r := Transact(s, sender, value, call);
      r.Ok? ==> r == Body(Arrived(s, sender, value), sender, value, call)
  {
    hide Body, MoveEther;
  }

  /** A call to a collection contract changes nothing but that contract. */
  lemma LedgerCallFrame(s: State, c: Address, r: Result<Ledger>)
    ensures var t := OnLedger(s, c, r);
      && (t.Ok? <==> c in s.ledgers && r.Ok?)
      && (t.Ok? ==> t.value.ether == s.ether && OnlyLedger(s, t.value, c) && c in t.value.ledgers && t.value.ledgers[c] == r.value)
  {
  }

  // ---- transferFrom ----

  /**
   * A user's `transferFrom` goes through exactly when nothing is paid, the receiver is nonzero, `from` owns the
   * token and the caller is `from` itself, an operator of `from` or approved for the token. It moves that
   * token in that collection and does nothing else.
   */
  lemma TransferSucceedsExactly(start: map<Address, nat>, s: State, sender: Address, value: Uint256, from: Address, to: Address, k: TokenKey)
    requires Reachable(start, s)
    ensures var r := Transact(s, sender, value, CallTransferFrom(from, to, k)); var l := s.LedgerOf(k.collection);
      && (r.Ok? <==>
        && LegalSender(sender) && value == 0 && to != ZERO_ADDRESS && k.collection in s.ledgers
        && from != ZERO_ADDRESS && l.OwnerOf(k.tokenId) == from
        && (sender == from || (from, sender) in l.operators || l.Approved(k.tokenId) == sender))
      && (r.Ok? ==>
        && OnlyLedger(s, r.value, k.collection) && SameEther(s, r.value)
        && Moved(l, r.value.LedgerOf(k.collection), from, to, k.tokenId))
  {
    var call := CallTransferFrom(from, to, k);
    TransactIsBody(s, sender, value, call);
    CollectionLedger(start, s, k.collection);
    if value <= s.Ether(sender) && value == 0 && LegalSender(sender) {
      ArrivedPays(s, sender, value);
      if k.collection in s.ledgers {
        TransferFromExact(s.ledgers[k.collection], sender, from, to, k.tokenId);
        OwnedTokens(s.ledgers[k.collection], k.tokenId);
      }
      LedgerCallFrame(Arrived(s, sender, value), k.collection, TransferFrom(s.LedgerOf(k.collection), sender, from, to, k.tokenId));
    }
    hide Reachable, Transact, TransferFrom, MoveEther, Moved, LedgerInv, Ledger.Valid, OnLedger, SameEther;
  }

  lemma OwnedTokens(l: Ledger, tokenId: Uint256)
    requires LedgerInv(l)
    ensures tokenId in l.owners <==> l.OwnerOf(tokenId) != ZERO_ADDRESS
  {
  }

  // ---- approve ----

  /** Only the approval of `tokenId` differs, and it is now `to`. */
  ghost predicate ApprovedOnly(l: Ledger, l': Ledger, to: Address, tokenId: Uint256) {
    && l'.owners == l.owners && l'.balances == l.balances && l'.operators == l.operators
    && l'.uris == l.uris && l'.admin == l.admin && l'.minted == l.minted
    && (forall t: Uint256 :: l'.Approved(t) == if t == tokenId then to else l.Approved(t))
  }

  /** `approve` goes through exactly when the token exists and the caller is its owner or the owner's operator. */
  lemma ApproveSucceedsExactly(s: State, sender: Address, value: Uint256, to: Address, k: TokenKey)
    ensures var r := Transact(s, sender, value, CallApprove(to, k)); var l := s.LedgerOf(k.collection); var owner := l.OwnerOf(k.tokenId);
      && (r.Ok? <==>
        && LegalSender(sender) && value == 0 && k.collection in s.ledgers
        && owner != ZERO_ADDRESS && (sender == owner || (owner, sender) in l.operators))
      && (r.Ok? ==>
        && OnlyLedger(s, r.value, k.collection) && SameEther(s, r.value)
        && ApprovedOnly(l, r.value.LedgerOf(k.collection), to, k.tokenId))
  {
    TransactIsBody(s, sender, value, CallApprove(to, k));
    if value <= s.Ether(sender) && value == 0 && LegalSender(sender) {
      ArrivedPays(s, sender, value);
      LedgerCallFrame(Arrived(s, sender, value), k.collection, Approve(s.LedgerOf(k.collection), sender, to, k.tokenId));
    }
    hide Transact, MoveEther, OnLedger, SameEther;
  }

  // ---- setApprovalForAll ----

  /** Only whether `operator` may act for `owner` differs, and it now may exactly if `approved`. */
  ghost predicate OperatorOnly(l: Ledger, l': Ledger, owner: Address, operator: Address, approved: bool) {
    && l'.owners == l.owners && l'.balances == l.balances && l'.approvals == l.approvals
    && l'.uris == l.uris && l'.admin == l.admin && l'.minted == l.minted
    && (forall o: Address, p: Address :: (o, p) in l'.operators <==> if o == owner && p == operator then approved else (o, p) in l.operators)
  }

  /** Anybody may grant or revoke an operator for its own tokens, and for nobody else's. */
  lemma SetApprovalForAllSucceedsExactly(s: State, sender: Address, value: Uint256, c: Address, operator: Address, approved: bool)
    ensures var r := Transact(s, sender, value, CallSetApprovalForAll(c, operator, approved));
      && (r.Ok? <==> LegalSender(sender) && value == 0 && c in s.ledgers && operator != ZERO_ADDRESS)
      && (r.Ok? ==>
        && OnlyLedger(s, r.value, c) && SameEther(s, r.value)
        && OperatorOnly(s.LedgerOf(c), r.value.LedgerOf(c), sender, operator, approved))
  {
    TransactIsBody(s, sender, value, CallSetApprovalForAll(c, operator, approved));
    if value <= s.Ether(sender) && value == 0 && LegalSender(sender) {
      ArrivedPays(s, sender, value);
      LedgerCallFrame(Arrived(s, sender, value), c, SetApprovalForAll(s.LedgerOf(c), sender, operator, approved));
    }
    hide Transact, MoveEther, OnLedger, SameEther;
  }
}
