/** A token the marketplace owns without having it on sale: nothing can ever bring it back. */
module Stranded {
  import opened Basics
  import opened ERC721
  import opened Market
  import opened Runs
  import opened Custody
  import opened Entries
  import opened Records
  import opened Reachability
  import opened Escrow

  ghost predicate HeldIn(s: State, k: TokenKey) {
    k.collection in s.ledgers && Held(s.ledgers[k.collection], k.tokenId)
  }

  /** The call is the sale of `k`. */
  predicate IsSaleOf(call: Call, k: TokenKey) {
    call.CallCreateMarketSale? && call.key == k
  }

  // ---- A held token stays held, whether on sale or not ----

  /** What a listing or a sale does to the ledgers. */
  lemma TradeMovesToken(s: State, sender: Address, value: Uint256, k: TokenKey, price: Uint256, sellerAccepts: bool)
    ensures var r := CreateMarketItem(s, sender, value, k, price); var moved := TransferFrom(s.LedgerOf(k.collection), MARKET, sender, MARKET, k.tokenId);
      r.Ok? ==> moved.Ok? && r.value.ledgers == s.ledgers[k.collection := moved.value]
    ensures var r := CreateMarketSale(s, sender, value, k, sellerAccepts); var moved := TransferFrom(s.LedgerOf(k.collection), MARKET, MARKET, sender, k.tokenId);
      r.Ok? ==> moved.Ok? && r.value.ledgers == s.ledgers[k.collection := moved.value]
  {
    hide TransferFrom, TokenUri, MoveEther, NewLedger;
  }

  lemma ListingKeepsHeld(s: State, sender: Address, value: Uint256, j: TokenKey, price: Uint256, k: TokenKey)
    requires LedgersInv(s.ledgers) && LegalSender(sender) && HeldIn(s, k)
    ensures var r := CreateMarketItem(s, sender, value, j, price); r.Ok? ==> j != k && HeldIn(r.value, k)
  {
    TradeMovesToken(s, sender, value, j, price, true);
    hide LedgerInv, Held, TransferFrom, CreateMarketItem;
    if j.collection in s.ledgers {
      EscrowIn(s.ledgers[j.collection], sender, j.tokenId);
    }
  }

  lemma SaleKeepsHeld(s: State, sender: Address, value: Uint256, j: TokenKey, sellerAccepts: bool, k: TokenKey)
    requires LedgersInv(s.ledgers) && LegalSender(sender) && HeldIn(s, k) && j != k
    ensures var r := CreateMarketSale(s, sender, value, j, sellerAccepts); r.Ok? ==> HeldIn(r.value, k)
  {
    TradeMovesToken(s, sender, value, j, 0, sellerAccepts);
    hide LedgerInv, Held, TransferFrom, CreateMarketSale;
    if j.collection in s.ledgers {
      EscrowOut(s.ledgers[j.collection], sender, j.tokenId);
    }
    assert j.collection == k.collection ==> j.tokenId != k.tokenId;
  }

  lemma LedgerCallKeepsHeld(s: State, sender: Address, call: Call, k: TokenKey)
    requires LedgersInv(s.ledgers) && LegalSender(sender) && HeldIn(s, k)
    requires call.CallApprove? || call.CallSetApprovalForAll? || call.CallTransferFrom?
    ensures var r := Body(s, sender, 0, call); r.Ok? ==> HeldIn(r.value, k)
  {
    hide LedgerInv, Held, TransferFrom, Approve, SetApprovalForAll;
    if Body(s, sender, 0, call).Ok? {
      match call
      case CallApprove(to, j) => ApproveKeeps(s.ledgers[j.collection], sender, to, j.tokenId);
      case CallSetApprovalForAll(c, operator, approved) => SetApprovalForAllKeeps(s.ledgers[c], sender, operator, approved);
      case CallTransferFrom(from, to, j) => UserTransferKeeps(s.ledgers[j.collection], sender, from, to, j.tokenId);
    }
  }

  lemma CallKeepsHeld(s: State, sender: Address, value: Uint256, call: Call, k: TokenKey)
    requires LedgersInv(s.ledgers) && LegalSender(sender) && HeldIn(s, k) && !IsSaleOf(call, k)
    ensures var r := Body(s, sender, value, call); r.Ok? ==> HeldIn(r.value, k) && !(call.CallCreateMarketItem? && call.key == k)
  {
    hide LedgersInv, Held, TransferFrom, Approve, SetApprovalForAll, MoveEther;
    match call
    case CallCreateMarketItem(j, price) => ListingKeepsHeld(s, sender, value, j, price, k);
    case CallCreateMarketSale(j, sellerAccepts) => SaleKeepsHeld(s, sender, value, j, sellerAccepts, k);
    case CallApprove(_, _) => LedgerCallKeepsHeld(s, sender, call, k);
    case CallSetApprovalForAll(_, _, _) => LedgerCallKeepsHeld(s, sender, call, k);
    case CallTransferFrom(_, _, _) => LedgerCallKeepsHeld(s, sender, call, k);
    case _ =>
  }

  lemma MintKeepsHeld(s: State, step: Step, k: TokenKey)
    requires LedgersInv(s.ledgers) && HeldIn(s, k) && (step.DoStartMint? || step.DoFinishMint?)
    ensures HeldIn(After(s, step), k)
  {
    hide LedgerInv, Held, BeginMint;
    if step.collection in s.ledgers {
      match step
      case DoStartMint(sender, c, to) => BeginMintKeeps(s.ledgers[c], sender, to);
      case DoFinishMint(c, tokenId, uri) => SetTokenUriKeeps(s.ledgers[c], tokenId, uri);
    }
  }

  /** No step but its sale takes a token from the marketplace, and none lists it. */
  lemma StepKeepsHeld(s: State, step: Step, k: TokenKey)
    requires LedgersInv(s.ledgers) && HeldIn(s, k) && !Sells(s, step, k)
    ensures HeldIn(After(s, step), k) && !Lists(s, step, k)
  {
    hide LedgersInv, Held, Body, StartMint, FinishMint, MoveEther;
    match step
    case DoTransact(sender, value, call) =>
      if Apply(s, step).Ok? {
        CallKeepsHeld(s.(ether := MoveEther(s.ether, sender, MARKET, value)), sender, value, call, k);
      }
    case DoStartMint(_, _, _) => MintKeepsHeld(s, step, k);
    case DoFinishMint(_, _, _) => MintKeepsHeld(s, step, k);
    case _ =>
  }

  // ---- Stranded tokens ----

  /** The marketplace owns the token but does not have it on sale. */
  predicate IsStranded(s: State, k: TokenKey) {
    s.LedgerOf(k.collection).OwnerOf(k.tokenId) == MARKET && !s.book.Item(k).isOnSale
  }

  lemma StrandedIsHeld(start: map<Address, nat>, s: State, k: TokenKey)
    requires Reachable(start, s) && IsStranded(s, k)
    ensures LedgersInv(s.ledgers) && CustodyInv(s) && HeldIn(s, k)
  {
    ReachableInv(start, s);
    assert k.collection in s.ledgers ==> LedgerInv(s.ledgers[k.collection]);
  }

  /** Only a listing puts an item on sale, only a listing adds to the index, and only an item on sale is sold. */
  lemma OnlyListingOpens(b: Book, now: Uint256, e: Entry, k: TokenKey)
    requires Allowed(b, now, e) && !b.Item(k).isOnSale && !(e.Listing? && e.key == k)
    ensures !Write(b, now, e).Item(k).isOnSale && Occurrences(Write(b, now, e), k) == Occurrences(b, k)
    ensures !(e.Sale? && e.key == k)
  {
    OccurrencesAfter(b, now, e, k);
    hide Occurrences;
  }

  lemma SaleIsEntry(s: State, step: Step, k: TokenKey)
    requires Sells(s, step, k)
    ensures EntryOf(s, step).Sale? && EntryOf(s, step).key == k
  {
  }

  lemma StepKeepsStranded(start: map<Address, nat>, s: State, step: Step, k: TokenKey)
    requires Reachable(start, s) && IsStranded(s, k)
    ensures IsStranded(After(s, step), k) && Occurrences(After(s, step).book, k) == Occurrences(s.book, k)
  {
    StrandedIsHeld(start, s, k);
    hide LedgersInv, CustodyInv, Occurrences, Apply, EntryOf, Write, Allowed, Reachable;
    if Apply(s, step).Ok? {
      StepMakesEntry(s, step);
      var e := EntryOf(s, step);
      if Sells(s, step, k) {
        SaleIsEntry(s, step, k);
      }
      StepKeepsHeld(s, step, k);
      EntryLists(s, step, k);
      OnlyListingOpens(s.book, s.now, e, k);
    }
  }

  /**
   * A token the marketplace owns without having it on sale, as when it was sent there directly, never leaves
   * the marketplace and is never listed again, whatever anybody does.
   */
  lemma {:induction false} StrandedForever(start: map<Address, nat>, s: State, steps: seq<Step>, k: TokenKey)
    requires Reachable(start, s) && IsStranded(s, k)
    ensures IsStranded(Run(s, steps), k) && Occurrences(Run(s, steps).book, k) == Occurrences(s.book, k)
    decreases |steps|
  {
    hide IsStranded, After, Occurrences, Reachable;
    if steps != [] {
      var before := steps[..|steps| - 1];
      StrandedForever(start, s, before, k);
      RunStaysReachable(start, s, before);
      StepKeepsStranded(start, Run(s, before), steps[|steps| - 1], k);
    }
  }
}
