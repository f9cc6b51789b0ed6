/**
 * Runs of the system. A transaction is a tree: the receiver of a safely minted or safely transferred token
 * is called back and may send any further transactions before the outer one goes on. A `Step` is a piece of
 * such a tree between two callbacks; flattening a tree into steps turns every moment at which some account
 * is in control, also one in the middle of a callback, into the end of a sequence of steps.
 */
module Runs {
  import opened Basics
  import opened Market

  datatype Step =
    | DoTransact(sender: Address, value: Uint256, call: Call)
    | DoSend(sender: Address, to: Address, value: Uint256)
    | DoStartMint(sender: Address, collection: Address, to: Address)
    | DoFinishMint(collection: Address, tokenId: Uint256, uri: Bytes)
    | DoTick(time: Uint256)

  function Apply(s: State, step: Step): Result<State> {
    match step
    case DoTransact(sender, value, call) => Transact(s, sender, value, call)
    case DoSend(sender, to, value) => SendEther(s, sender, to, value)
    case DoStartMint(sender, c, to) => StartMint(s, sender, c, to)
    case DoFinishMint(c, tokenId, uri) => FinishMint(s, c, tokenId, uri)
    case DoTick(time) => Tick(s, time)
  }

  /** A reverted step leaves the state unchanged. */
  function After(s: State, step: Step): State {
    match Apply(s, step)
    case Ok(s') => s'
    case Reverted(_) => s
  }

  function Run(s: State, steps: seq<Step>): State {
    if steps == [] then s else After(Run(s, steps[..|steps| - 1]), steps[|steps| - 1])
  }

  /**
   * Whole transactions. `callback` lists what the receiver does when it is called back (nothing, for an
   * account without code); a nested transaction that reverts is undone on its own. `accepts` says whether
   * the receiver then returns the required value instead of reverting; the marketplace and the collections
   * are contracts without `onERC721Received`, so they never do.
   */
  datatype Tx =
    | Plain(step: Step)
    | Mint(sender: Address, collection: Address, to: Address, uri: Bytes, callback: seq<Tx>, accepts: bool)
    | SafeTransfer(sender: Address, from: Address, to: Address, key: TokenKey, callback: seq<Tx>, accepts: bool)

  function Exec(s: State, tx: Tx): Result<State>
    decreases tx, 1
  {
    match tx
    case Plain(step) =>
      if step.DoStartMint? || step.DoFinishMint? then Reverted(NotAnExternalCall) else Apply(s, step)
    case Mint(sender, c, to, uri, callback, accepts) =>
      var s1 :- StartMint(s, sender, c, to);
      var newTokenId := s1.LedgerOf(c).minted;
      var s2 := ExecAll(s1, callback);
      if Refuses(s1, to, accepts) then Reverted(ReceiverRejectedToken) else FinishMint(s2, c, newTokenId, uri)
    case SafeTransfer(sender, from, to, k, callback, accepts) =>
      var s1 :- Transact(s, sender, 0, CallTransferFrom(from, to, k));
      var s2 := ExecAll(s1, callback);
      if Refuses(s1, to, accepts) then Reverted(ReceiverRejectedToken) else Ok(s2)
  }

  predicate Refuses(s: State, to: Address, accepts: bool) {
    !accepts || to == MARKET || to in s.ledgers
  }

  function ExecAll(s: State, txs: seq<Tx>): State
    decreases txs, 0
  {
    if txs == [] then s else
    match Exec(s, txs[0])
    case Ok(s') => ExecAll(s', txs[1..])
    case Reverted(_) => ExecAll(s, txs[1..])
  }

  lemma {:induction false} RunAppend(s: State, a: seq<Step>, b: seq<Step>)
    ensures Run(s, a + b) == Run(Run(s, a), b)
    decreases |b|
  {
    if b == [] {
      assert a + b == a;
    } else {
      var b' := b[..|b| - 1];
      RunAppend(s, a, b');
      assert (a + b)[..|a + b| - 1] == a + b';
    }
  }

  lemma RunOne(s: State, step: Step)
    ensures Run(s, [step]) == After(s, step)
  {
    assert [step][..0] == [];
  }

  /** Every completed transaction, however deeply its callbacks nest, is a sequence of steps. */
  lemma {:induction false} ExecIsRun(s: State, tx: Tx) returns (steps: seq<Step>)
    ensures Exec(s, tx).Ok? ==> Exec(s, tx).value == Run(s, steps)
    decreases tx, 1
  {
    steps := [];
    if Exec(s, tx).Ok? {
      match tx
      case Plain(step) =>
        steps := [step];
        RunOne(s, step);
      case Mint(sender, c, to, uri, callback, _) =>
        var first := DoStartMint(sender, c, to);
        var s1 := After(s, first);
        var last := DoFinishMint(c, s1.LedgerOf(c).minted, uri);
        var inner := ExecAllIsRun(s1, callback);
        RunOne(s, first);
        RunAppend(s, [first], inner);
        RunOne(Run(s1, inner), last);
        RunAppend(s, [first] + inner, [last]);
        steps := [first] + inner + [last];
      case SafeTransfer(sender, from, to, k, callback, _) =>
        var first := DoTransact(sender, 0, CallTransferFrom(from, to, k));
        var inner := ExecAllIsRun(After(s, first), callback);
        RunOne(s, first);
        RunAppend(s, [first], inner);
        steps := [first] + inner;
    }
  }

  lemma {:induction false} ExecAllIsRun(s: State, txs: seq<Tx>) returns (steps: seq<Step>)
    ensures ExecAll(s, txs) == Run(s, steps)
    decreases txs, 0
  {
    if txs == [] {
      steps := [];
    } else {
      var head := ExecIsRun(s, txs[0]);
      if Exec(s, txs[0]).Reverted? {
        head := [];
      }
      var tail := ExecAllIsRun(Run(s, head), txs[1..]);
      RunAppend(s, head, tail);
      steps := head + tail;
    }
  }
}
