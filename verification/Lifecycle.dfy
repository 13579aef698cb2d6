/** The asset's own lifecycle, independent of the contract-wide pause. */
module Lifecycle {
  import opened Types
  import opened Storage
  import opened AccessControl

  predicate IsValidTransition(current: AssetStatus, next: AssetStatus) {
    match (current, next)
    case (Draft, Active) => true
    case (Active, Paused) => true
    case (Active, Retired) => true
    case (Active, Blocked) => true
    case (Paused, Active) => true
    case (Paused, Retired) => true
    case (Paused, Blocked) => true
    case (Blocked, Active) => true
    case _ => false
  }

  /** The table in one line: any live status can become Active, only Active and Paused can be
      suspended, blocked or retired, and nothing leaves Retired or returns to Draft. */
  lemma TransitionTable(current: AssetStatus, next: AssetStatus)
    ensures IsValidTransition(current, next) <==>
            && current != next
            && current != AssetStatus.Retired
            && next != AssetStatus.Draft
            && (next == AssetStatus.Active || current in {AssetStatus.Active, AssetStatus.Paused})
  {
  }

  /** Only a move to Active is held back by the contract-wide pause. */
  function SetAssetStatusGuard(s: State, signers: set<Address>, admin: Address, next: AssetStatus): Outcome {
    var paused := if next == Active then RequireNotPaused(s) else Ok;
    paused
    .Then(RequireAuth(signers, admin))
    .Then(CheckAdmin(s, admin))
    .Then(if s.assetStatus == next || !IsValidTransition(s.assetStatus, next)
          then Err(InvalidLifecycleTransition)
          else Ok)
  }

  function SetAssetStatus(s: State, admin: Address, next: AssetStatus): State {
    s.(assetStatus := next).Emit(AssetStatusChanged(admin, s.assetStatus, next))
  }
}
