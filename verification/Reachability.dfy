/** Reachable states, and the invariant every one of them satisfies. */
module Reachability {
  import opened Basics
  import opened ERC721
  import opened Market
  import opened Runs
  import opened Registry
  import opened Custody
  import opened Entries
  import opened Records
  import opened Bids
  import opened Money

  /** The state some account finds, at rest or in the middle of a callback, if accounts first held `start`. */
  ghost predicate Reachable(start: map<Address, nat>, s: State) {
    exists deployer: Address, now: Uint256, steps: seq<Step> :: s == Run(Genesis(deployer, now, start), steps)
  }

  /** Only registered collections have listings. */
  ghost predicate KnownInv(s: State) {
    s.book.tokenIds.Keys <= s.register.collections.Keys
  }

  ghost predicate BookInv(b: Book) {
    RecordsInv(b) && BidInv(b) && SolvencyInv(b)
  }

  ghost predicate Inv(start: map<Address, nat>, s: State) {
    RegistryInv(s) && CustodyInv(s) && KnownInv(s) && BookInv(s.book) && EtherInv(start, s)
  }

  lemma GenesisInv(deployer: Address, now: Uint256, start: map<Address, nat>)
    ensures Inv(start, Genesis(deployer, now, start))
  {
    GenesisRegistry(deployer, now, start);
    var b := Genesis(deployer, now, start).book;
    assert OpenItems(b.items) == {};
    assert ListingCounts(b.tokenIds) == map[];
    assert HighestBids(b.items) == map[] && OfferTotals(b.offers) == map[];
  }

  lemma WriteKeepsBook(b: Book, now: Uint256, e: Entry)
    requires BookInv(b) && Allowed(b, now, e) && NotMarket(e)
    ensures BookInv(Write(b, now, e))
  {
    hide BidInv, SolvencyInv, LifecycleInv, ListingInv, PurchaseInv, AskInv, TotalsInv, Write, Allowed;
    WriteKeepsRecords(b, now, e);
    WriteKeepsBids(b, now, e);
    WriteKeepsSolvency(b, now, e);
  }

  lemma CallKeepsKnown(s: State, sender: Address, value: Uint256, call: Call)
    requires KnownInv(s)
    ensures var r := Body(s, sender, value, call); r.Ok? ==> KnownInv(r.value)
  {
    hide TransferFrom, Approve, SetApprovalForAll, MoveEther;
  }

  lemma StepKeepsKnown(s: State, step: Step)
    requires KnownInv(s)
    ensures KnownInv(After(s, step))
  {
    hide Body, BeginMint, MoveEther;
    if step.DoTransact? && Apply(s, step).Ok? {
      CallKeepsKnown(s.(ether := MoveEther(s.ether, step.sender, MARKET, step.value)), step.sender, step.value, step.call);
    }
  }

  lemma TransferAvoidsMarket(s: State, step: Step)
    ensures Apply(s, step).Ok? ==> NotMarket(EntryOf(s, step))
  {
    hide Transact, StartMint, FinishMint;
  }

  lemma StepKeepsInv(start: map<Address, nat>, s: State, step: Step)
    requires Inv(start, s)
    ensures Inv(start, After(s, step))
  {
    if Apply(s, step).Ok? {
      TransferAvoidsMarket(s, step);
      hide RegistryInv, CustodyInv, KnownInv, BookInv, Apply, EntryOf, Write, Allowed;
      assert s.ledgers.Keys == s.register.collections.Keys by {
        SameKeys(s);
      }
      StepKeepsRegistry(s, step);
      StepKeepsCustody(s, step);
      StepKeepsKnown(s, step);
      StepMakesEntry(s, step);
      WriteKeepsBook(s.book, s.now, EntryOf(s, step));
      StepMovesEther(s, step);
    }
  }

  lemma SameKeys(s: State)
    requires RegistryInv(s)
    ensures s.ledgers.Keys == s.register.collections.Keys
  {
  }

  lemma {:induction false} RunKeepsInv(start: map<Address, nat>, s: State, steps: seq<Step>)
    requires Inv(start, s)
    ensures Inv(start, Run(s, steps))
    decreases |steps|
  {
    hide Inv, After;
    if steps != [] {
      RunKeepsInv(start, s, steps[..|steps| - 1]);
      StepKeepsInv(start, Run(s, steps[..|steps| - 1]), steps[|steps| - 1]);
    }
  }

  lemma ReachableInv(start: map<Address, nat>, s: State)
    requires Reachable(start, s)
    ensures Inv(start, s)
  {
    hide Inv, Genesis;
    var deployer: Address, now: Uint256, steps: seq<Step> :| s == Run(Genesis(deployer, now, start), steps);
    GenesisInv(deployer, now, start);
    RunKeepsInv(start, Genesis(deployer, now, start), steps);
  }

  lemma RunStaysReachable(start: map<Address, nat>, s: State, steps: seq<Step>)
    requires Reachable(start, s)
    ensures Reachable(start, Run(s, steps))
  {
    hide Genesis, After;
    var deployer: Address, now: Uint256, before: seq<Step> :| s == Run(Genesis(deployer, now, start), before);
    RunAppend(Genesis(deployer, now, start), before, steps);
  }

  lemma StepStaysReachable(start: map<Address, nat>, s: State, step: Step)
    requires Reachable(start, s)
    ensures Reachable(start, After(s, step))
  {
    hide Reachable;
    RunOne(s, step);
    RunStaysReachable(start, s, [step]);
  }

  /** What any sequence of whole transactions leads to is reachable. */
  lemma TransactionsReach(deployer: Address, now: Uint256, start: map<Address, nat>, txs: seq<Tx>)
    ensures Reachable(start, ExecAll(Genesis(deployer, now, start), txs))
  {
    hide Genesis, ExecAll;
    var steps := ExecAllIsRun(Genesis(deployer, now, start), txs);
  }

  // ---- Between transactions ----

  /** The state after some sequence of whole transactions, none of them still under way. */
  ghost predicate AtRest(start: map<Address, nat>, s: State) {
    exists deployer: Address, now: Uint256, txs: seq<Tx> :: s == ExecAll(Genesis(deployer, now, start), txs)
  }

  lemma {:induction false} ExecAllAppend(s: State, a: seq<Tx>, b: seq<Tx>)
    ensures ExecAll(s, a + b) == ExecAll(ExecAll(s, a), b)
    decreases |a|
  {
    hide Exec;
    if a == [] {
      assert a + b == b;
    } else {
      ExecAllAppend(match Exec(s, a[0]) case Ok(s1) => s1 case Reverted(_) => s, a[1..], b);
      assert (a + b)[1..] == a[1..] + b;
    }
  }

  lemma AtRestIsReachable(start: map<Address, nat>, s: State)
    requires AtRest(start, s)
    ensures Reachable(start, s)
  {
    hide Genesis, ExecAll, Reachable;
    var deployer: Address, now: Uint256, txs: seq<Tx> :| s == ExecAll(Genesis(deployer, now, start), txs);
    TransactionsReach(deployer, now, start, txs);
  }

  lemma ExecStaysAtRest(start: map<Address, nat>, s: State, tx: Tx)
    requires AtRest(start, s) && Exec(s, tx).Ok?
    ensures AtRest(start, Exec(s, tx).value)
  {
    hide Genesis, Exec;
    var deployer: Address, now: Uint256, txs: seq<Tx> :| s == ExecAll(Genesis(deployer, now, start), txs);
    ExecAllAppend(Genesis(deployer, now, start), txs, [tx]);
  }

  // ---- Moments inside a transaction ----

  /** `m` is the state some receiver finds, in control at some moment while `tx` runs from `s`, at any depth. */
  ghost predicate FoundWithin(s: State, tx: Tx, m: State)
    decreases tx, 1
  {
    match tx
    case Plain(_) => false
    case Mint(sender, c, to, _, callback, _) =>
      StartMint(s, sender, c, to).Ok? && FoundDuring(StartMint(s, sender, c, to).value, callback, m)
    case SafeTransfer(sender, from, to, k, callback, _) =>
      var moved := Transact(s, sender, 0, CallTransferFrom(from, to, k));
      moved.Ok? && FoundDuring(moved.value, callback, m)
  }

  /** The same for the transactions `txs`: before, between, within or after them. */
  ghost predicate FoundDuring(s: State, txs: seq<Tx>, m: State)
    decreases txs, 0
  {
    || m == s
    || (txs != [] && (FoundWithin(s, txs[0], m) || FoundDuring(match Exec(s, txs[0]) case Ok(s1) => s1 case Reverted(_) => s, txs[1..], m)))
  }

  lemma ExecStaysReachable(start: map<Address, nat>, s: State, tx: Tx)
    requires Reachable(start, s) && Exec(s, tx).Ok?
    ensures Reachable(start, Exec(s, tx).value)
  {
    hide Reachable, Exec;
    var steps := ExecIsRun(s, tx);
    RunStaysReachable(start, s, steps);
  }

  /** Whatever anybody finds in a callback is reachable, also if the transaction around it later reverts. */
  lemma {:induction false} WithinIsReachable(start: map<Address, nat>, s: State, tx: Tx, m: State)
    requires Reachable(start, s) && FoundWithin(s, tx, m)
    ensures Reachable(start, m)
    decreases tx, 1
  {
    hide Reachable, Transact, StartMint, Exec;
    match tx
    case Mint(sender, c, to, _, callback, _) =>
      StepStaysReachable(start, s, DoStartMint(sender, c, to));
      DuringIsReachable(start, StartMint(s, sender, c, to).value, callback, m);
    case SafeTransfer(sender, from, to, k, callback, _) =>
      StepStaysReachable(start, s, DoTransact(sender, 0, CallTransferFrom(from, to, k)));
      DuringIsReachable(start, Transact(s, sender, 0, CallTransferFrom(from, to, k)).value, callback, m);
  }

  lemma {:induction false} DuringIsReachable(start: map<Address, nat>, s: State, txs: seq<Tx>, m: State)
    requires Reachable(start, s) && FoundDuring(s, txs, m)
    ensures Reachable(start, m)
    decreases txs, 0
  {
    hide Reachable, Exec;
    if m != s {
      if FoundWithin(s, txs[0], m) {
        WithinIsReachable(start, s, txs[0], m);
      } else if Exec(s, txs[0]).Ok? {
        ExecStaysReachable(start, s, txs[0]);
        DuringIsReachable(start, Exec(s, txs[0]).value, txs[1..], m);
      } else {
        DuringIsReachable(start, s, txs[1..], m);
      }
    }
  }

  /** What is found between the transactions of `txs` is found during them, so the definition misses no moment. */
  lemma {:induction false} BetweenIsDuring(s: State, txs: seq<Tx>, i: nat)
    requires i <= |txs|
    ensures FoundDuring(s, txs, ExecAll(s, txs[..i]))
    ensures i < |txs| ==> forall m | FoundWithin(ExecAll(s, txs[..i]), txs[i], m) :: FoundDuring(s, txs, m)
    decreases i
  {
    hide Exec, FoundWithin;
    if i > 0 {
      BetweenIsDuring(match Exec(s, txs[0]) case Ok(s1) => s1 case Reverted(_) => s, txs[1..], i - 1);
      assert txs[..i][1..] == txs[1..][..i - 1];
    }
  }
}
