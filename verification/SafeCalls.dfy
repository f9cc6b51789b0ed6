/**
 * Safe minting and safe transfer, exactly: when the receiver's answer lets them complete, that whatever the
 * receiver did in its callback has happened, and what they do before and after it.
 */
module SafeCalls {
  import opened Basics
  import opened ERC721
  import opened Market
  import opened Runs
  import opened Custody
  import opened Minting
  import opened Reachability
  import opened Escrow
  import opened TokenCalls
  import opened RegisterCalls

  // ---- Transactions in a row ----

  /** One more transaction takes effect on what the ones before it left, if it completes; otherwise it leaves that alone. */
  lemma OneMore(s: State, txs: seq<Tx>, tx: Tx)
    ensures var before := ExecAll(s, txs);
      ExecAll(s, txs + [tx]) == match Exec(before, tx) case Ok(after) => after case Reverted(_) => before
  {
    hide Exec;
    ExecAllAppend(s, txs, [tx]);
  }

  lemma CallKeepsContracts(s: State, sender: Address, value: Uint256, call: Call)
    ensures var r := Body(s, sender, value, call); r.Ok? ==> s.ledgers.Keys <= r.value.ledgers.Keys
  {
    hide TransferFrom, TokenUri, Approve, SetApprovalForAll, MoveEther, NewLedger;
  }

  lemma StepKeepsContracts(s: State, step: Step)
    ensures s.ledgers.Keys <= After(s, step).ledgers.Keys
  {
    hide Body, BeginMint, MoveEther;
    if step.DoTransact? && Apply(s, step).Ok? {
      CallKeepsContracts(Arrived(s, step.sender, step.value), step.sender, step.value, step.call);
    }
  }

  lemma {:induction false} RunKeepsContracts(s: State, steps: seq<Step>)
    ensures s.ledgers.Keys <= Run(s, steps).ledgers.Keys
    decreases |steps|
  {
    hide After;
    if steps != [] {
      RunKeepsContracts(s, steps[..|steps| - 1]);
      StepKeepsContracts(Run(s, steps[..|steps| - 1]), steps[|steps| - 1]);
    }
  }

  /** What is reached in a callback: reachable, with every contract still there. */
  lemma CallbackReaches(start: map<Address, nat>, s: State, callback: seq<Tx>)
    requires Reachable(start, s)
    ensures Reachable(start, ExecAll(s, callback)) && s.ledgers.Keys <= ExecAll(s, callback).ledgers.Keys
  {
    hide Reachable;
    var steps := ExecAllIsRun(s, callback);
    RunStaysReachable(start, s, steps);
    RunKeepsContracts(s, steps);
  }

  // ---- Safe transfer ----

  /**
   * A safe transfer completes exactly when the transfer itself would and the receiver accepts, which neither
   * the marketplace nor a collection does. The token moves first; then everything the receiver does happens.
   */
  lemma SafeTransferSucceedsExactly(start: map<Address, nat>, s: State, sender: Address, from: Address, to: Address, k: TokenKey, callback: seq<Tx>, accepts: bool)
    requires Reachable(start, s)
    ensures var r := Exec(s, SafeTransfer(sender, from, to, k, callback, accepts)); var l := s.LedgerOf(k.collection);
      var s1 := After(s, DoTransact(sender, 0, CallTransferFrom(from, to, k)));
      && (r.Ok? <==>
        && LegalSender(sender) && to != ZERO_ADDRESS && k.collection in s.ledgers
        && from != ZERO_ADDRESS && l.OwnerOf(k.tokenId) == from
        && (sender == from || (from, sender) in l.operators || l.Approved(k.tokenId) == sender)
        && accepts && to != MARKET && to !in s.ledgers)
      && (r.Ok? ==>
        && OnlyLedger(s, s1, k.collection) && SameEther(s, s1)
        && Moved(l, s1.LedgerOf(k.collection), from, to, k.tokenId)
        && r.value == ExecAll(s1, callback))
  {
    TransferSucceedsExactly(start, s, sender, 0, from, to, k);
    hide Transact, Reachable, Moved, SameEther, ExecAll;
  }

  // ---- Safe mint ----

  /** Up to the callback: the next id exists and belongs to `to`. */
  ghost predicate MintBegun(s: State, s1: State, c: Address, to: Address) {
    OnlyLedger(s, s1, c) && s1.ether == s.ether && c in s.ledgers && Added(s.ledgers[c], s1.ledgers[c], to)
  }

  /** Nothing but the URI of `tokenId` differs. */
  ghost predicate UriStored(l: Ledger, l': Ledger, tokenId: Uint256, uri: Bytes) {
    && l' == l.(uris := l'.uris)
    && (forall t: Uint256 :: Lookup(l'.uris, t, []) == if t == tokenId then uri else Lookup(l.uris, t, []))
  }

  /** After the callback: the URI is stored, the supply recorded, and the id returned. */
  ghost predicate MintFinished(s: State, t: State, c: Address, tokenId: Uint256, uri: Bytes) {
    && t.admin == s.admin && t.now == s.now && t.ether == s.ether
    && t.book == s.book.(history := Then(s.book.history, MintReturned(c, tokenId)))
    && SameLedgersBut(s, t, c) && c in s.ledgers && UriStored(s.ledgers[c], t.ledgers[c], tokenId, uri)
    && SupplyStored(s.register, t.register, c, s.ledgers[c].minted)
  }

  lemma BeginsExactly(s: State, sender: Address, c: Address, to: Address)
    requires c in s.ledgers ==> s.ledgers[c].Valid()
    ensures var r := StartMint(s, sender, c, to); var l := s.LedgerOf(c);
      && (r.Ok? <==> LegalSender(sender) && c in s.ledgers && sender == l.admin && to != ZERO_ADDRESS && l.minted < MAX_UINT256)
      && (r.Ok? ==> MintBegun(s, r.value, c, to))
  {
    if c in s.ledgers {
      BeginMintExact(s.ledgers[c], sender, to);
    }
    LedgerCallFrame(s, c, BeginMint(s.LedgerOf(c), sender, to));
    hide BeginMint, Added, Ledger.Valid, OnLedger;
  }

  lemma FinishesExactly(s: State, c: Address, tokenId: Uint256, uri: Bytes)
    requires c in s.ledgers && s.register.IsActive(c)
    ensures var r := FinishMint(s, c, tokenId, uri); r.Ok? && MintFinished(s, r.value, c, tokenId, uri)
  {
  }

  /**
   * `mint` completes exactly when the collection's owner calls it with the counter not exhausted and the nonzero
   * receiver accepts, which neither the marketplace nor a collection does. The id exists before the receiver
   * is called; everything the receiver does has happened; then URI and supply are stored on top of that.
   */
  lemma MintSucceedsExactly(start: map<Address, nat>, s: State, sender: Address, c: Address, to: Address, uri: Bytes, callback: seq<Tx>, accepts: bool)
    requires Reachable(start, s)
    ensures var r := Exec(s, Mint(sender, c, to, uri, callback, accepts)); var l := s.LedgerOf(c);
      var s1 := After(s, DoStartMint(sender, c, to));
      && (r.Ok? <==>
        && LegalSender(sender) && c in s.ledgers && sender == l.admin && l.minted < MAX_UINT256
        && to != ZERO_ADDRESS && accepts && to != MARKET && to !in s.ledgers)
      && (r.Ok? ==>
        && MintBegun(s, s1, c, to)
        && MintFinished(ExecAll(s1, callback), r.value, c, l.minted + 1, uri))
  {
    CollectionLedger(start, s, c);
    BeginsExactly(s, sender, c, to);
    var s1 := After(s, DoStartMint(sender, c, to));
    if StartMint(s, sender, c, to).Ok? {
      StepStaysReachable(start, s, DoStartMint(sender, c, to));
      CallbackReaches(start, s1, callback);
      CollectionLedger(start, ExecAll(s1, callback), c);
      FinishesExactly(ExecAll(s1, callback), c, s.ledgers[c].minted + 1, uri);
    }
    hide Reachable, StartMint, FinishMint, ExecAll, LedgerInv, MintFinished, SameEther;
  }

  /** A mint around a callback in which `n` mints on the collection completed raises the counter by `n + 1`. */
  lemma MintsAddUp(s: State, sender: Address, c: Address, to: Address, uri: Bytes, callback: seq<Tx>, accepts: bool)
    ensures var r := Exec(s, Mint(sender, c, to, uri, callback, accepts));
      var after := ExecAll(After(s, DoStartMint(sender, c, to)), callback);
      var n := |Returned(after.book.history, c)| - |Returned(s.book.history, c)|;
      r.Ok? ==> n >= 0 && Minted(r.value, c) == Minted(s, c) + n + 1
  {
    if Exec(s, Mint(sender, c, to, uri, callback, accepts)).Ok? {
      var s1 := StartMint(s, sender, c, to).value;
      StartMintCounts(s, sender, c, to, c);
      hide StartMint, FinishMint, ExecAll, Minted;
      var ids := ExecAllMints(s1, callback, c);
      FinishMintSettles(ExecAll(s1, callback), c, Minted(s1, c), uri, c);
    }
  }

  // ---- Trees of mints ----

  /** A mint by the collection's owner that is accepted, and so are all the mints nested in it. */
  predicate OwnMint(tx: Tx, c: Address, owner: Address, contracts: set<Address>)
    decreases tx, 1
  {
    && tx.Mint? && tx.collection == c && tx.sender == owner && tx.accepts
    && tx.to != ZERO_ADDRESS && tx.to != MARKET && tx.to !in contracts
    && OwnMints(tx.callback, c, owner, contracts)
  }

  predicate OwnMints(txs: seq<Tx>, c: Address, owner: Address, contracts: set<Address>)
    decreases txs, 0
  {
    txs == [] || (OwnMint(txs[0], c, owner, contracts) && OwnMints(txs[1..], c, owner, contracts))
  }

  function MintCount(tx: Tx): nat
    decreases tx, 1
  {
    if tx.Mint? then 1 + MintCounts(tx.callback) else 0
  }

  function MintCounts(txs: seq<Tx>): nat
    decreases txs, 0
  {
    if txs == [] then 0 else MintCount(txs[0]) + MintCounts(txs[1..])
  }

  /** `n` more tokens of `c` exist, under the same owner and among the same contracts. */
  ghost predicate MoreMinted(s: State, t: State, c: Address, n: nat) {
    && t.ledgers.Keys == s.ledgers.Keys && c in s.ledgers
    && t.ledgers[c].admin == s.ledgers[c].admin && t.ledgers[c].minted == s.ledgers[c].minted + n
  }

  /** A tree of `n` such mints, however nested, completes and mints `n` tokens: none is lost. */
  lemma {:induction false} MintTree(start: map<Address, nat>, s: State, tx: Tx, c: Address)
    requires Reachable(start, s) && c in s.ledgers && LegalSender(s.ledgers[c].admin)
    requires OwnMint(tx, c, s.ledgers[c].admin, s.ledgers.Keys) && s.ledgers[c].minted + MintCount(tx) <= MAX_UINT256
    ensures Exec(s, tx).Ok? && Reachable(start, Exec(s, tx).value) && MoreMinted(s, Exec(s, tx).value, c, MintCount(tx))
    decreases tx, 1
  {
    hide Reachable, Exec, Apply, Added, ExecAll;
    MintSucceedsExactly(start, s, tx.sender, c, tx.to, tx.uri, tx.callback, tx.accepts);
    ExecStaysReachable(start, s, tx);
    var s1 := After(s, DoStartMint(tx.sender, c, tx.to));
    StepStaysReachable(start, s, DoStartMint(tx.sender, c, tx.to));
    BegunCounts(s, s1, c, tx.to);
    MintTrees(start, s1, tx.callback, c);
  }

  lemma BegunCounts(s: State, s1: State, c: Address, to: Address)
    requires MintBegun(s, s1, c, to)
    ensures MoreMinted(s, s1, c, 1)
  {
  }

  lemma {:induction false} MintTrees(start: map<Address, nat>, s: State, txs: seq<Tx>, c: Address)
    requires Reachable(start, s) && c in s.ledgers && LegalSender(s.ledgers[c].admin)
    requires OwnMints(txs, c, s.ledgers[c].admin, s.ledgers.Keys) && s.ledgers[c].minted + MintCounts(txs) <= MAX_UINT256
    ensures MoreMinted(s, ExecAll(s, txs), c, MintCounts(txs))
    decreases txs, 0
  {
    hide Reachable, Exec;
    if txs != [] {
      MintTree(start, s, txs[0], c);
      MintTrees(start, Exec(s, txs[0]).value, txs[1..], c);
    }
  }
}
