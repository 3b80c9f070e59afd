/** What the pallets take from the framework: accounts and call origins. */
module FrameSystem {
  /** Accounts are only ever compared for equality. */
  type AccountId = nat

  datatype Origin = Root | Signed(who: AccountId) | Unsigned
}
