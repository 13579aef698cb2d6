/** Two-step governance of the protocol configuration. */
module Config {
  import opened Types
  import opened Storage
  import opened AccessControl

  predicate IsValid(config: ProtocolConfig) {
    config.minTransferAmount >= 0 && config.maxBatchSize != 0
  }

  function ProposeGuard(s: State, signers: set<Address>, admin: Address, config: ProtocolConfig): Outcome {
    RequireAdminCall(s, signers, admin)
    .Then(if config.minTransferAmount < 0 then Err(InvalidAmount)
          else if config.maxBatchSize == 0 then Err(InvalidAmount)
          else Ok)
  }

  /** The missing-proposal case reuses the admin-transfer error. */
  function PendingGuard(s: State, signers: set<Address>, admin: Address): Outcome {
    RequireAdminCall(s, signers, admin)
    .Then(if s.configCandidate.None? then Err(NoPendingAdminTransfer) else Ok)
  }

  function Propose(s: State, admin: Address, config: ProtocolConfig): State {
    s.(configCandidate := Some(config)).Emit(ConfigProposed(admin, config))
  }

  function Accept(s: State, admin: Address): State
    requires s.configCandidate.Some?
  {
    var config := s.configCandidate.value;
    s.(configCandidate := None, config := config).Emit(ConfigAmended(admin, config))
  }

  /** Cancelling emits no event. */
  function Cancel(s: State): State {
    s.(configCandidate := None)
  }
}
