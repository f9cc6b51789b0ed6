/** The theorems and the contract objects meet: what a deployed marketplace ever holds is a reachable state. */
module Deployment {
  import opened Basics
  import opened Market
  import opened Runs
  import opened Reachability
  import opened Marketplace

  /** Deploy the marketplace and send it transactions. */
  method DeployAndExecute(deployer: Address, now: Uint256, accounts: map<Address, nat>, txs: seq<Tx>) returns (m: NFTMarketplace)
    ensures fresh(m) && m.Valid()
    ensures m.Abstract() == ExecAll(Genesis(deployer, now, accounts), txs)
    ensures Reachable(accounts, m.Abstract()) && Inv(accounts, m.Abstract())
  {
    hide Genesis, ExecAll, Reachable, Inv;
    m := new NFTMarketplace(deployer, now, accounts);
    m.ExecuteAll(txs);
    TransactionsReach(deployer, now, accounts, txs);
    ReachableInv(accounts, m.Abstract());
  }
}
