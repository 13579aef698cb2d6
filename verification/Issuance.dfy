/** Separation of issuer duties. */
module Issuance {
  import opened Types
  import opened Storage
  import opened AccessControl

  datatype Duty = Compliance | Issuance | Emergency | Governance

  datatype IssuanceGuard =
    | Allowed
    | NotInitialized
    | MissingIssuanceDuty
    | DualDutyConflict
    | SelfIssuanceConflict
    | ApproverConflict

  predicate RoleHasDuty(role: Role, duty: Duty) {
    match role
    case NoRole => false
    case Admin => true
    case ComplianceOfficer => duty.Compliance?
    case AssetManager => duty.Issuance?
    case EmergencyOfficer => duty.Compliance? || duty.Emergency?
  }

  function EffectiveRole(s: State, caller: Address): Role {
    match s.admin
    case None => NoRole
    case Some(admin) => if caller == admin then Role.Admin else s.RoleOf(caller)
  }

  function ErrorForIssuance(g: IssuanceGuard): Option<Error> {
    match g
    case Allowed => None
    case NotInitialized => Some(Error.NotInitialized)
    case MissingIssuanceDuty => Some(Unauthorized)
    case DualDutyConflict => Some(IssuanceDutyConflict)
    case SelfIssuanceConflict => Some(SelfIssuanceForbidden)
    case ApproverConflict => Some(IssuanceApproverConflict)
  }

  /** A missing recipient stands for an issuance with no single beneficiary. */
  function EvaluateIssuance(s: State, caller: Address, recipient: Option<Address>): IssuanceGuard {
    var role := EffectiveRole(s, caller);
    if s.admin.None? then IssuanceGuard.NotInitialized
    else if !RoleHasDuty(role, Duty.Issuance) then MissingIssuanceDuty
    else if !s.policy.enforced then Allowed
    else if !s.policy.allowDualDutyIssuance && RoleHasDuty(role, Duty.Compliance) then DualDutyConflict
    else
      match recipient
      case None => Allowed
      case Some(r) =>
        if !s.policy.allowSelfIssuance && caller == r then SelfIssuanceConflict
        else if s.policy.requireIndependentApprover && r in s.approvers && s.approvers[r] == caller
        then ApproverConflict
        else Allowed
  }

  function RequireIssuanceAuthority(s: State, caller: Address, recipient: Option<Address>): Outcome {
    match ErrorForIssuance(EvaluateIssuance(s, caller, recipient))
    case None => Ok
    case Some(e) => Panic(e)
  }

  function SetPolicyGuard(s: State, signers: set<Address>, admin: Address): Outcome {
    RequireAdminCall(s, signers, admin)
  }

  function SetPolicy(s: State, admin: Address, policy: SeparationPolicy): State {
    s.(policy := policy).Emit(PolicyUpdated(admin, s.policy, policy))
  }
}
