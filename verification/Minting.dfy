/** Minting with callbacks: `mint` may be re-entered from the receiver's callback to any depth. */
module Minting {
  import opened Basics
  import opened ERC721
  import opened Market
  import opened Runs
  import opened Registry
  import opened Reachability
  import Settlement

  /** The ids that completed calls of `mint` on collection `c` returned, in order. */
  function Returned(h: History, c: Address): seq<Uint256> {
    match h
    case Start => []
    case Then(past, MintReturned(d, tokenId)) => if d == c then Returned(past, c) + [tokenId] else Returned(past, c)
    case Then(past, _) => Returned(past, c)
  }

  /** `ids` names each number in `lo + 1 .. hi` exactly once. */
  ghost predicate Fills(ids: seq<Uint256>, lo: nat, hi: nat) {
    && lo + |ids| == hi
    && Distinct(ids)
    && forall i | 0 <= i < |ids| :: lo < ids[i] <= hi
  }

  function Minted(s: State, c: Address): Uint256 {
    s.LedgerOf(c).minted
  }

  /** The supply the marketplace has on record. */
  function Supply(s: State, c: Address): Uint256 {
    if c in s.register.collections then s.register.collections[c].totalSupply else 0
  }

  /** The recorded supply was brought up to date, or nothing about it changed. */
  predicate Settled(s: State, s': State, c: Address) {
    Supply(s', c) == Minted(s', c) || (Supply(s', c) == Supply(s, c) && Minted(s', c) == Minted(s, c))
  }

  /** From `s` to `s'` calls of `mint` on `c` returned `ids`, and the supply is settled. */
  ghost predicate Mints(s: State, s': State, c: Address, ids: seq<Uint256>) {
    && Returned(s'.book.history, c) == Returned(s.book.history, c) + ids
    && Fills(ids, Minted(s, c), Minted(s', c))
    && Settled(s, s', c)
  }

  lemma LedgerCallsKeepMinted(l: Ledger, sender: Address, from: Address, to: Address, tokenId: Uint256, approved: bool)
    ensures var r := TransferFrom(l, sender, from, to, tokenId); r.Ok? ==> r.value.minted == l.minted
    ensures var r := Approve(l, sender, to, tokenId); r.Ok? ==> r.value.minted == l.minted
    ensures var r := SetApprovalForAll(l, sender, to, approved); r.Ok? ==> r.value.minted == l.minted
  {
  }

  /** A call to a collection contract that is no mint. */
  lemma LedgerCallMintsNothing(s: State, sender: Address, call: Call, c: Address)
    requires call.CallApprove? || call.CallSetApprovalForAll? || call.CallTransferFrom?
    ensures var r := Body(s, sender, 0, call); r.Ok? ==> Mints(s, r.value, c, [])
  {
    hide TransferFrom, Approve, SetApprovalForAll;
    match call
    case CallApprove(to, k) => LedgerCallsKeepMinted(s.LedgerOf(k.collection), sender, sender, to, k.tokenId, true);
    case CallSetApprovalForAll(d, operator, approved) => LedgerCallsKeepMinted(s.LedgerOf(d), sender, sender, operator, 0, approved);
    case CallTransferFrom(from, to, k) => LedgerCallsKeepMinted(s.LedgerOf(k.collection), sender, from, to, k.tokenId, true);
  }

  /** A call that moves a token in or out of escrow. */
  lemma TradeMintsNothing(s: State, sender: Address, value: Uint256, call: Call, c: Address)
    requires call.CallCreateMarketItem? || call.CallCreateMarketSale?
    ensures var r := Body(s, sender, value, call); r.Ok? ==> Mints(s, r.value, c, [])
  {
    hide TransferFrom, MoveEther;
    match call
    case CallCreateMarketItem(k, _) => LedgerCallsKeepMinted(s.LedgerOf(k.collection), MARKET, sender, MARKET, k.tokenId, true);
    case CallCreateMarketSale(k, _) => LedgerCallsKeepMinted(s.LedgerOf(k.collection), MARKET, MARKET, sender, k.tokenId, true);
  }

  /** A call that only writes to the register. */
  lemma RegisterCallMintsNothing(s: State, sender: Address, value: Uint256, call: Call, c: Address)
    requires call.CallAddCategory? || call.CallCreateCollection? || call.CallUpdateSupply?
    ensures var r := Body(s, sender, value, call); r.Ok? ==> Mints(s, r.value, c, [])
  {
  }

  /** A call that only writes to the book. */
  lemma BookCallMintsNothing(s: State, sender: Address, value: Uint256, call: Call, c: Address)
    requires call.CallCreateAuction? || call.CallPlaceBid? || call.CallMakeOffer?
    ensures var r := Body(s, sender, value, call); r.Ok? ==> Mints(s, r.value, c, [])
  {
  }

  lemma CallMintsNothing(s: State, sender: Address, value: Uint256, call: Call, c: Address)
    ensures var r := Body(s, sender, value, call); r.Ok? ==> Mints(s, r.value, c, [])
  {
    if call.CallApprove? || call.CallSetApprovalForAll? || call.CallTransferFrom? {
      LedgerCallMintsNothing(s, sender, call, c);
      hide Mints, OnLedger;
    } else {
      hide Body, Mints;
      match call
      case CallCreateMarketItem(_, _) => TradeMintsNothing(s, sender, value, call, c);
      case CallCreateMarketSale(_, _) => TradeMintsNothing(s, sender, value, call, c);
      case CallAddCategory(_) => RegisterCallMintsNothing(s, sender, value, call, c);
      case CallCreateCollection(_, _, _, _, _) => RegisterCallMintsNothing(s, sender, value, call, c);
      case CallUpdateSupply(_) => RegisterCallMintsNothing(s, sender, value, call, c);
      case _ => BookCallMintsNothing(s, sender, value, call, c);
    }
  }

  lemma TransactMintsNothing(s: State, sender: Address, value: Uint256, call: Call, c: Address)
    ensures var r := Transact(s, sender, value, call); r.Ok? ==> Mints(s, r.value, c, [])
  {
    hide Body, MoveEther;
    if Transact(s, sender, value, call).Ok? {
      CallMintsNothing(s.(ether := MoveEther(s.ether, sender, MARKET, value)), sender, value, call, c);
    }
  }

  lemma StartMintCounts(s: State, sender: Address, c: Address, to: Address, d: Address)
    ensures var r := StartMint(s, sender, c, to);
      r.Ok? ==>
        && Minted(r.value, d) == Minted(s, d) + (if d == c then 1 else 0)
        && Supply(r.value, d) == Supply(s, d) && r.value.book == s.book && c in r.value.ledgers
  {
  }

  lemma FinishMintSettles(s: State, c: Address, tokenId: Uint256, uri: Bytes, d: Address)
    ensures var r := FinishMint(s, c, tokenId, uri);
      r.Ok? ==>
        && Minted(r.value, d) == Minted(s, d)
        && Supply(r.value, d) == (if d == c then Minted(s, c) else Supply(s, d))
        && Returned(r.value.book.history, d) == Returned(s.book.history, d) + if d == c then [tokenId] else []
  {
  }

  lemma MintsTwice(s: State, s1: State, s2: State, c: Address, ids: seq<Uint256>, more: seq<Uint256>)
    requires Mints(s, s1, c, ids) && Mints(s1, s2, c, more)
    ensures Mints(s, s2, c, ids + more)
  {
  }

  /** The id of the outer mint, returned last, fills the gap below those its callback minted. */
  lemma FillsAround(ids: seq<Uint256>, lo: nat, hi: nat)
    requires lo < MAX_UINT256 && Fills(ids, lo + 1, hi)
    ensures Fills(ids + [lo + 1], lo, hi)
  {
  }

  /** A mint on `c` around a callback that minted `inner` on `c`. */
  lemma MintAroundSame(s: State, s1: State, s2: State, s3: State, c: Address, inner: seq<Uint256>)
    requires Minted(s1, c) == Minted(s, c) + 1 && s1.book == s.book
    requires Mints(s1, s2, c, inner)
    requires Minted(s3, c) == Minted(s2, c) == Supply(s3, c)
    requires Returned(s3.book.history, c) == Returned(s2.book.history, c) + [Minted(s, c) + 1]
    ensures Mints(s, s3, c, inner + [Minted(s, c) + 1])
  {
    FillsAround(inner, Minted(s, c), Minted(s2, c));
    hide Fills, Returned;
  }

  /** A mint on another collection around a callback that minted `inner` on `c`. */
  lemma MintAroundOther(s: State, s1: State, s2: State, s3: State, c: Address, inner: seq<Uint256>)
    requires Minted(s1, c) == Minted(s, c) && Supply(s1, c) == Supply(s, c) && s1.book == s.book
    requires Mints(s1, s2, c, inner)
    requires Minted(s3, c) == Minted(s2, c) && Supply(s3, c) == Supply(s2, c)
    requires Returned(s3.book.history, c) == Returned(s2.book.history, c)
    ensures Mints(s, s3, c, inner)
  {
    hide Fills, Returned;
  }

  /** A completed transaction, with everything its callbacks did, mints a gapless run of ids and returns each once. */
  lemma {:induction false} ExecMints(s: State, tx: Tx, c: Address) returns (ids: seq<Uint256>)
    ensures Exec(s, tx).Ok? ==> Mints(s, Exec(s, tx).value, c, ids)
    decreases tx, 1
  {
    ids := [];
    if Exec(s, tx).Ok? {
      match tx
      case Plain(step) =>
        hide Apply;
        PlainMintsNothing(s, step, c);
      case Mint(sender, d, to, uri, callback, _) =>
        StartMintCounts(s, sender, d, to, c);
        StartMintCounts(s, sender, d, to, d);
        var s1 := StartMint(s, sender, d, to).value;
        hide StartMint, FinishMint, Supply, Mints;
        var inner := ExecAllMints(s1, callback, c);
        var s2 := ExecAll(s1, callback);
        FinishMintSettles(s2, d, Minted(s1, d), uri, c);
        if c == d {
          MintAroundSame(s, s1, s2, Exec(s, tx).value, c, inner);
          ids := inner + [Minted(s, c) + 1];
        } else {
          MintAroundOther(s, s1, s2, Exec(s, tx).value, c, inner);
          ids := inner;
        }
      case SafeTransfer(sender, from, to, k, callback, _) =>
        hide Transact, Mints;
        TransactMintsNothing(s, sender, 0, CallTransferFrom(from, to, k), c);
        var s1 := Transact(s, sender, 0, CallTransferFrom(from, to, k)).value;
        ids := ExecAllMints(s1, callback, c);
        MintsTwice(s, s1, ExecAll(s1, callback), c, [], ids);
        assert [] + ids == ids;
    }
  }

  lemma PlainMintsNothing(s: State, step: Step, c: Address)
    requires !step.DoStartMint? && !step.DoFinishMint?
    ensures Apply(s, step).Ok? ==> Mints(s, Apply(s, step).value, c, [])
  {
    if step.DoTransact? {
      TransactMintsNothing(s, step.sender, step.value, step.call, c);
      hide Transact;
    }
  }

  lemma {:induction false} ExecAllMints(s: State, txs: seq<Tx>, c: Address) returns (ids: seq<Uint256>)
    ensures Mints(s, ExecAll(s, txs), c, ids)
    decreases txs, 0
  {
    hide Exec;
    ids := [];
    if txs != [] {
      var head := ExecMints(s, txs[0], c);
      if Exec(s, txs[0]).Reverted? {
        ids := ExecAllMints(s, txs[1..], c);
      } else {
        var s1 := Exec(s, txs[0]).value;
        var tail := ExecAllMints(s1, txs[1..], c);
        MintsTwice(s, s1, ExecAll(s1, txs[1..]), c, head, tail);
        ids := head + tail;
      }
    }
  }

  /**
   * Between whole transactions, in every collection, completed mints have returned each of the ids
   * 1..`minted` exactly once, those are the ids that have owners, and the marketplace's record of the supply
   * is `minted`; this however the mints were nested.
   */
  lemma MintingIsExact(deployer: Address, now: Uint256, start: map<Address, nat>, txs: seq<Tx>, c: Address)
    ensures var s := ExecAll(Genesis(deployer, now, start), txs);
      && Fills(Returned(s.book.history, c), 0, Minted(s, c))
      && Supply(s, c) == Minted(s, c)
      && forall t: Uint256 :: s.LedgerOf(c).OwnerOf(t) != ZERO_ADDRESS <==> 1 <= t <= Minted(s, c)
  {
    var g := Genesis(deployer, now, start);
    var s := ExecAll(g, txs);
    var ids := ExecAllMints(g, txs, c);
    assert [] + ids == ids;
    TransactionsReach(deployer, now, start, txs);
    OwnedIds(start, s, c);
  }

  lemma OwnedIds(start: map<Address, nat>, s: State, c: Address)
    requires Reachable(start, s)
    ensures forall t: Uint256 :: s.LedgerOf(c).OwnerOf(t) != ZERO_ADDRESS <==> 1 <= t <= Minted(s, c)
  {
    if c in s.ledgers {
      Settlement.TokenLedgers(start, s, c, 0);
    }
  }

  /** `mint` returns: the new id is the next one, and it is settled although the callback may have minted more. */
  lemma MintReturnsNextId(s: State, sender: Address, c: Address, to: Address, uri: Bytes, callback: seq<Tx>, accepts: bool)
    ensures var r := Exec(s, Mint(sender, c, to, uri, callback, accepts));
      r.Ok? ==>
        && r.value.book.history.Then? && r.value.book.history.event == MintReturned(c, Minted(s, c) + 1)
        && Supply(r.value, c) == Minted(r.value, c) >= Minted(s, c) + 1
        && Lookup(r.value.LedgerOf(c).uris, Minted(s, c) + 1, []) == uri
  {
    var r := Exec(s, Mint(sender, c, to, uri, callback, accepts));
    if r.Ok? {
      StartMintCounts(s, sender, c, to, c);
      var s1 := StartMint(s, sender, c, to).value;
      hide StartMint;
      var inner := ExecAllMints(s1, callback, c);
      FinishMintSettles(ExecAll(s1, callback), c, Minted(s, c) + 1, uri, c);
    }
  }
}
