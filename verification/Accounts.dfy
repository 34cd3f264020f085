/** Accounts of the chain, shared by the contract and the devnet tool. */
module Accounts {
  type AccountId = string
}
