/** The investor compliance lifecycle: its entry points and what they write. */
module Compliance {
  import opened Types
  import opened Storage
  import opened AccessControl
  import opened TransitionGuards

  // ── Enforcement used by minting and transfers ─────────────────────────

  function RequireCanReceive(s: State, user: Address): Outcome {
    match s.StatusOf(user)
    case Approved => Ok
    case Blocked => Err(ReceiverBlocked)
    case Pending => Err(ReceiverCompliancePending)
    case Unknown | Revoked => Err(ReceiverNotWhitelisted)
  }

  function RequireCanSend(s: State, user: Address): Outcome {
    match s.StatusOf(user)
    case Approved => Ok
    case Blocked => Err(SenderBlocked)
    case Pending => Err(SenderCompliancePending)
    case Unknown | Revoked => Err(SenderNotWhitelisted)
  }

  // ── Guards ────────────────────────────────────────────────────────────

  function SetComplianceStatusGuard(
    s: State, signers: set<Address>, caller: Address, user: Address, next: ComplianceStatus): Outcome
  {
    RequireNotPaused(s)
    .Then(RequireAuth(signers, caller))
    .Then(RequireTransition(s, caller, s.StatusOf(user), next))
  }

  function EnforceRow(s: State, caller: Address, updates: seq<BatchUpdate>, i: nat): Outcome
    requires i < |updates|
  {
    if IsDuplicateAt(updates, i) then Err(InvalidComplianceTransition)
    else RequireTransition(s, caller, s.StatusOf(updates[i].user), updates[i].newStatus)
  }

  /** The first failing row, in input order, against the untouched state. */
  function ScanBatch(s: State, caller: Address, updates: seq<BatchUpdate>): Outcome {
    if |updates| == 0 then Ok
    else
      var last := |updates| - 1;
      ScanBatch(s, caller, updates[..last]).Then(EnforceRow(s, caller, updates, last))
  }

  function BatchGuard(s: State, signers: set<Address>, caller: Address, updates: seq<BatchUpdate>): Outcome {
    RequireNotPaused(s)
    .Then(RequireAuth(signers, caller))
    .Then(ScanBatch(s, caller, updates))
  }

  function WhitelistUserGuard(s: State, signers: set<Address>, admin: Address, user: Address): Outcome {
    var current := s.StatusOf(user);
    RequireNotPaused(s)
    .Then(RequireAuth(signers, admin))
    .Then(RequireTransitionAuthority(s, admin, current))
    .Then(if current != Approved && !TransitionIsAllowed(current, Approved)
          then Err(InvalidComplianceTransition)
          else Ok)
  }

  function RevokeWhitelistGuard(s: State, signers: set<Address>, admin: Address, user: Address): Outcome {
    RequireNotPaused(s)
    .Then(RequireAuth(signers, admin))
    .Then(RequireTransitionAuthority(s, admin, s.StatusOf(user)))
  }

  // ── Effects ───────────────────────────────────────────────────────────

  /** Writes the status and keeps the legacy whitelist flag in step with it. */
  function WriteStatus(s: State, user: Address, status: ComplianceStatus): State {
    s.(compliance := s.compliance[user := status],
       whitelist := if status.Approved? then s.whitelist + {user} else s.whitelist - {user})
  }

  /** The approver is recorded on the way into Approved and never erased. */
  function ApplyTransition(
    s: State, caller: Address, user: Address, previous: ComplianceStatus, next: ComplianceStatus): State
  {
    var written := WriteStatus(s, user, next);
    var recorded := if next.Approved?
                    then written.(approvers := written.approvers[user := caller])
                    else written;
    recorded.Emit(ComplianceStatusChanged(caller, user, previous, next))
  }

  /** Applies the rows in order; every previous status was read before the first write. */
  function ApplyBatch(s: State, caller: Address, updates: seq<BatchUpdate>): State {
    if |updates| == 0 then s
    else
      var last := updates[|updates| - 1];
      ApplyTransition(
        ApplyBatch(s, caller, updates[..|updates| - 1]),
        caller, last.user, s.StatusOf(last.user), last.newStatus)
  }

  function WhitelistUser(s: State, admin: Address, user: Address): State {
    var current := s.StatusOf(user);
    var moved := if current != Approved then ApplyTransition(s, admin, user, current, Approved) else s;
    moved.Emit(UserWhitelisted(admin, user))
  }

  function RevokeWhitelist(s: State, admin: Address, user: Address): State {
    var current := s.StatusOf(user);
    var moved := if TransitionIsAllowed(current, Revoked)
                 then ApplyTransition(s, admin, user, current, Revoked)
                 else s;
    moved.Emit(WhitelistRevoked(admin, user))
  }
}
