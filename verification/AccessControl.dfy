/** Administration: roles, the two-step admin handoff and the contract-wide pause. */
module AccessControl {
  import opened Types
  import opened Storage

  function RequireNotPaused(s: State): Outcome {
    if s.paused then Panic(Error.ContractPaused) else Ok
  }

  function RequireAuth(signers: set<Address>, a: Address): Outcome {
    if a in signers then Ok else Trap(AuthenticationMissing)
  }

  /** The caller must be the admin; a missing admin panics, another caller is an error. */
  function CheckAdmin(s: State, caller: Address): Outcome {
    match s.admin
    case None => Panic(Error.NotInitialized)
    case Some(admin) => if caller == admin then Ok else Err(Unauthorized)
  }

  /** As CheckAdmin, for the entry points that compare with an assertion. */
  function AssertAdmin(s: State, caller: Address): Outcome {
    match s.admin
    case None => Panic(Error.NotInitialized)
    case Some(admin) => if caller == admin then Ok else Trap(AssertionFailed)
  }

  /** The caller must be the admin or hold exactly the required role. */
  function RequireRole(s: State, caller: Address, required: Role): Outcome {
    match s.admin
    case None => Panic(Error.NotInitialized)
    case Some(admin) =>
      if caller == admin || s.RoleOf(caller) == required then Ok else Panic(Unauthorized)
  }

  /** The three checks that open most admin entry points. */
  function RequireAdminCall(s: State, signers: set<Address>, admin: Address): Outcome {
    RequireNotPaused(s)
    .Then(RequireAuth(signers, admin))
    .Then(CheckAdmin(s, admin))
  }

  // ── Guards ────────────────────────────────────────────────────────────

  function InitializeGuard(s: State, signers: set<Address>, admin: Address): Outcome {
    if s.admin.Some? then Err(AlreadyInitialized) else RequireAuth(signers, admin)
  }

  function SetRoleGuard(s: State, signers: set<Address>, admin: Address, role: Role): Outcome {
    RequireAdminCall(s, signers, admin)
    .Then(if role == Role.Admin then Err(CannotAssignAdminRole) else Ok)
  }

  function RemoveRoleGuard(s: State, signers: set<Address>, admin: Address, target: Address): Outcome {
    RequireAdminCall(s, signers, admin)
    .Then(if s.RoleOf(target) == NoRole then Err(NoRoleToRevoke) else Ok)
  }

  function AcceptAdminGuard(s: State, signers: set<Address>, candidate: Address): Outcome {
    RequireNotPaused(s)
    .Then(RequireAuth(signers, candidate))
    .Then(if s.adminCandidate.None? then Err(NoPendingAdminTransfer)
          else if candidate != s.adminCandidate.value then Err(NotPendingCandidate)
          else if s.admin.None? then Panic(Error.NotInitialized)
          else Ok)
  }

  function PauseGuard(s: State, signers: set<Address>, caller: Address): Outcome {
    RequireAuth(signers, caller)
    .Then(RequireRole(s, caller, EmergencyOfficer))
    .Then(if s.paused then Err(AlreadyPaused) else Ok)
  }

  function UnpauseGuard(s: State, signers: set<Address>, caller: Address): Outcome {
    RequireAuth(signers, caller)
    .Then(CheckAdmin(s, caller))
    .Then(if !s.paused then Err(NotPaused) else Ok)
  }

  // ── Effects ───────────────────────────────────────────────────────────

  function Initialize(s: State, admin: Address): State {
    s.(admin := Some(admin), roles := s.roles[admin := Role.Admin]).Emit(ContractInitialized(admin))
  }

  function SetRole(s: State, admin: Address, target: Address, role: Role): State {
    s.(roles := s.roles[target := role]).Emit(RoleAssigned(admin, target, role))
  }

  function RemoveRole(s: State, admin: Address, target: Address): State {
    s.(roles := s.roles[target := NoRole]).Emit(RoleRevoked(admin, target, s.RoleOf(target)))
  }

  function TransferAdmin(s: State, admin: Address, candidate: Address): State {
    s.(adminCandidate := Some(candidate)).Emit(AdminTransferInitiated(admin, candidate))
  }

  /** The old admin's table entry is cleared before the new one is written. */
  function AcceptAdmin(s: State, candidate: Address): State
    requires s.admin.Some?
  {
    var previous := s.admin.value;
    s.(adminCandidate := None,
       admin := Some(candidate),
       roles := s.roles[previous := NoRole][candidate := Role.Admin])
    .Emit(AdminTransferred(previous, candidate))
  }

  /** The pending candidate, if any, is left in place. */
  function RenounceAdmin(s: State, admin: Address): State {
    s.(admin := None, roles := s.roles[admin := NoRole]).Emit(AdminRenounced(admin, admin))
  }

  function Pause(s: State, caller: Address): State {
    s.(paused := true).Emit(ContractPausedBy(caller))
  }

  function Unpause(s: State, caller: Address): State {
    s.(paused := false).Emit(ContractUnpausedBy(caller))
  }
}
