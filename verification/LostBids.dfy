/**
 * What becomes of a bid. Ordinarily its ether is on record for the bidder, as the standing bid or as a
 * pending return; a relisting can wipe it. This module says exactly when.
 */
module LostBids {
  import opened Basics
  import opened Market
  import opened Runs
  import opened Registry
  import opened Custody
  import opened Entries
  import opened Records
  import opened Bids
  import opened Money
  import opened Reachability
  import opened Escrow

  /** What `a` ever bid on the token and no longer has on record, as its standing bid or its pending return. */
  function OffRecord(b: Book, k: TokenKey, a: Address): int {
    TotalBids(b.history, k, a) - b.Pending(k, a) - (if b.Item(k).highestBidder == a then b.Item(k).highestBid else 0)
  }

  lemma OffRecordIsAbandoned(start: map<Address, nat>, s: State, k: TokenKey, a: Address)
    requires Reachable(start, s)
    ensures OffRecord(s.book, k, a) == AbandonedBids(s.book.history, k, a)
  {
    ReachableInv(start, s);
    assert Standing(s.book.history, k) == Stake(s.book.Item(k).highestBidder, s.book.Item(k).highestBid);
    assert s.book.Pending(k, a) == Outbid(s.book.history, k, a);
  }

  lemma EntryLoses(b: Book, now: Uint256, e: Entry, k: TokenKey, a: Address)
    requires BidInv(b) && Allowed(b, now, e)
    ensures AbandonedBids(Write(b, now, e).history, k, a) == AbandonedBids(b.history, k, a) +
      if e.Listing? && e.key == k && b.Item(k).highestBidder == a then b.Item(k).highestBid else 0
    ensures Abandoned(Write(b, now, e).history) == Abandoned(b.history) + if e.Listing? then b.Item(e.key).highestBid else 0
  {
    if e.Listing? {
      assert Standing(b.history, e.key) == Stake(b.Item(e.key).highestBidder, b.Item(e.key).highestBid);
    }
  }

  /** One step loses a bid exactly when it lists the token over a record with a standing bid; it loses that bid. */
  lemma StepLosesExactly(start: map<Address, nat>, s: State, step: Step, k: TokenKey, a: Address)
    requires Reachable(start, s)
    ensures OffRecord(After(s, step).book, k, a) == OffRecord(s.book, k, a) +
      if Lists(s, step, k) && s.book.Item(k).highestBidder == a then s.book.Item(k).highestBid else 0
  {
    StepStaysReachable(start, s, step);
    OffRecordIsAbandoned(start, s, k, a);
    OffRecordIsAbandoned(start, After(s, step), k, a);
    if Apply(s, step).Ok? {
      ReachableInv(start, s);
      hide EntryOf, Write, Allowed, RegistryInv, CustodyInv, KnownInv, RecordsInv, BidInv, SolvencyInv, EtherInv, Apply, Reachable, OffRecord, Lists;
      StepMakesEntry(s, step);
      EntryLoses(s.book, s.now, EntryOf(s, step), k, a);
      EntryLists(s, step, k);
    }
  }

  lemma BidOnSoldItem(start: map<Address, nat>, s: State, k: TokenKey)
    requires Reachable(start, s) && s.book.Item(k).highestBid > 0
    ensures k in s.book.items && s.book.Item(k).isAuction && s.book.Item(k).highestBidder != ZERO_ADDRESS
    ensures !s.book.Item(k).isOnSale ==> s.book.Item(k).owner != ZERO_ADDRESS
  {
    ReachableInv(start, s);
    assert RecordOk(k, s.book.items[k], s.book.purchases);
  }

  /**
   * A listing loses a bid exactly when the record it overwrites has one: that record is then of a sold item,
   * put under auction by its past seller. The bid becomes no pending return, and the ether stays.
   */
  lemma ListingLosesExactly(start: map<Address, nat>, s: State, seller: Address, value: Uint256, k: TokenKey, price: Uint256)
    requires Reachable(start, s) && Transact(s, seller, value, CallCreateMarketItem(k, price)).Ok?
    ensures var b, b' := s.book, Transact(s, seller, value, CallCreateMarketItem(k, price)).value.book; var lost := b.Item(k);
      && Abandoned(b'.history) == Abandoned(b.history) + lost.highestBid
      && b'.pendingReturns == b.pendingReturns && b'.Item(k).highestBid == 0
      && OffRecord(b', k, lost.highestBidder) == OffRecord(b, k, lost.highestBidder) + lost.highestBid
      && (lost.highestBid > 0 ==> !lost.isOnSale && lost.owner != ZERO_ADDRESS && lost.isAuction && lost.highestBidder != ZERO_ADDRESS)
  {
    var step := DoTransact(seller, value, CallCreateMarketItem(k, price));
    StepLosesExactly(start, s, step, k, s.book.Item(k).highestBidder);
    if s.book.Item(k).highestBid > 0 {
      BidOnSoldItem(start, s, k);
    }
    ReachableInv(start, s);
    hide RegistryInv, CustodyInv, KnownInv, RecordsInv, BidInv, SolvencyInv, EtherInv, Transact, Reachable, OffRecord;
    StepMakesEntry(s, step);
    EntryLoses(s.book, s.now, EntryOf(s, step), k, seller);
  }

  lemma {:induction false} AbandonedCoversEach(h: History, k: TokenKey, a: Address)
    ensures AbandonedBids(h, k, a) <= Abandoned(h)
  {
    if h.Then? {
      AbandonedCoversEach(h.past, k, a);
    }
  }

  lemma {:induction false} AbandonedHasBidder(h: History)
    requires Abandoned(h) > 0
    ensures exists k: TokenKey, a: Address :: AbandonedBids(h, k, a) > 0
  {
    if h.event.Listed? && Standing(h.past, h.event.key).amount > 0 {
      assert AbandonedBids(h, h.event.key, Standing(h.past, h.event.key).bidder) > 0;
    } else {
      AbandonedHasBidder(h.past);
      var k: TokenKey, a: Address :| AbandonedBids(h.past, k, a) > 0;
      assert AbandonedBids(h, k, a) > 0;
    }
  }

  /** Every bidder has all its ether on record exactly when the marketplace holds nothing beyond what is on record. */
  lemma AllOnRecord(start: map<Address, nat>, s: State)
    requires Reachable(start, s)
    ensures (forall k: TokenKey, a: Address :: OffRecord(s.book, k, a) == 0) <==> Abandoned(s.book.history) == 0
    ensures forall k: TokenKey, a: Address :: OffRecord(s.book, k, a) >= 0
  {
    var h := s.book.history;
    forall k: TokenKey, a: Address
      ensures OffRecord(s.book, k, a) == AbandonedBids(h, k, a) <= Abandoned(h)
    {
      OffRecordIsAbandoned(start, s, k, a);
      AbandonedCoversEach(h, k, a);
    }
    hide Reachable, OffRecord;
    if Abandoned(h) > 0 {
      AbandonedHasBidder(h);
      var k: TokenKey, a: Address :| AbandonedBids(h, k, a) > 0;
      assert OffRecord(s.book, k, a) > 0;
    }
  }
}
