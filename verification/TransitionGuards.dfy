/** The single evaluation behind both enforcement and pre-flight of a compliance
    status change, and the batch pre-flight. */
module TransitionGuards {
  import opened Types
  import opened Storage

  datatype TransitionGuard =
    | Allowed
    | NotInitialized
    | ContractPaused
    | CallerUnauthorized
    | BlockedRequiresAdmin
    | StatusUnchanged
    | TargetUnknownForbidden
    | TransitionForbidden
    | DuplicateUserInBatch

  predicate TransitionIsAllowed(from: ComplianceStatus, to: ComplianceStatus) {
    from != to && to != Unknown &&
    match from
    case Unknown => to.Pending? || to.Approved? || to.Blocked?
    case Pending => to.Approved? || to.Revoked? || to.Blocked?
    case Approved => to.Pending? || to.Revoked? || to.Blocked?
    case Revoked => to.Pending? || to.Approved? || to.Blocked?
    case Blocked => to.Pending?
  }

  /** The matrix in one line: every change is allowed except to Unknown, out of Blocked
      other than into review, and revoking what was never cleared. */
  lemma TransitionMatrix(from: ComplianceStatus, to: ComplianceStatus)
    ensures TransitionIsAllowed(from, to) <==>
            && from != to
            && to != ComplianceStatus.Unknown
            && (from == ComplianceStatus.Blocked ==> to == ComplianceStatus.Pending)
            && !(from == ComplianceStatus.Unknown && to == ComplianceStatus.Revoked)
  {
  }

  function ErrorForGuard(g: TransitionGuard): Option<Error> {
    match g
    case Allowed => None
    case NotInitialized => Some(Error.NotInitialized)
    case ContractPaused => Some(Error.ContractPaused)
    case CallerUnauthorized => Some(Unauthorized)
    case BlockedRequiresAdmin => Some(Unauthorized)
    case StatusUnchanged => Some(ComplianceStatusUnchanged)
    case TargetUnknownForbidden => Some(InvalidComplianceTransition)
    case TransitionForbidden => Some(InvalidComplianceTransition)
    case DuplicateUserInBatch => Some(InvalidComplianceTransition)
  }

  predicate GuardPanics(g: TransitionGuard) {
    g.NotInitialized? || g.ContractPaused? || g.CallerUnauthorized? || g.BlockedRequiresAdmin?
  }

  /** The outcome a verdict turns into when it is enforced. */
  function Enforced(g: TransitionGuard): Outcome {
    match ErrorForGuard(g)
    case None => Ok
    case Some(e) => if GuardPanics(g) then Panic(e) else Err(e)
  }

  /** Leaving Blocked is reserved to the admin. */
  function AuthorityGuard(s: State, caller: Address, from: ComplianceStatus): TransitionGuard {
    match s.admin
    case None => TransitionGuard.NotInitialized
    case Some(admin) =>
      if caller == admin then Allowed
      else if from.Blocked? then BlockedRequiresAdmin
      else if s.RoleOf(caller) in {ComplianceOfficer, EmergencyOfficer} then Allowed
      else CallerUnauthorized
  }

  function EvaluateFromStatus(s: State, caller: Address, current: ComplianceStatus, next: ComplianceStatus)
    : TransitionGuard
  {
    if s.paused then TransitionGuard.ContractPaused
    else
      var authority := AuthorityGuard(s, caller, current);
      if authority != Allowed then authority
      else if current == next then StatusUnchanged
      else if next == Unknown then TargetUnknownForbidden
      else if !TransitionIsAllowed(current, next) then TransitionForbidden
      else Allowed
  }

  function RequireTransition(s: State, caller: Address, current: ComplianceStatus, next: ComplianceStatus)
    : Outcome
  {
    Enforced(EvaluateFromStatus(s, caller, current, next))
  }

  function RequireTransitionAuthority(s: State, caller: Address, current: ComplianceStatus): Outcome {
    match ErrorForGuard(AuthorityGuard(s, caller, current))
    case None => Ok
    case Some(e) => Panic(e)
  }

  // ── Pre-flight reports ────────────────────────────────────────────────

  datatype TransitionCheck = TransitionCheck(
    user: Address,
    caller: Address,
    currentStatus: ComplianceStatus,
    requestedStatus: ComplianceStatus,
    allowed: bool,
    reason: TransitionGuard,
    errorCode: Option<u32>)

  function CodeOf(e: Option<Error>): Option<u32> {
    match e
    case None => None
    case Some(error) => Some(error.Code())
  }

  function CheckTransition(s: State, caller: Address, user: Address, next: ComplianceStatus): TransitionCheck {
    var current := s.StatusOf(user);
    var reason := EvaluateFromStatus(s, caller, current, next);
    TransitionCheck(user, caller, current, next, reason == Allowed, reason, CodeOf(ErrorForGuard(reason)))
  }

  /** Whether row i repeats the address of an earlier row. */
  predicate IsDuplicateAt(updates: seq<BatchUpdate>, i: nat)
    requires i < |updates|
  {
    exists k | 0 <= k < i :: updates[k].user == updates[i].user
  }

  /** The report for row i of a batch. */
  function CheckRow(s: State, caller: Address, updates: seq<BatchUpdate>, i: nat): TransitionCheck
    requires i < |updates|
  {
    var check := CheckTransition(s, caller, updates[i].user, updates[i].newStatus);
    if IsDuplicateAt(updates, i)
    then check.(allowed := false, reason := DuplicateUserInBatch, errorCode := CodeOf(ErrorForGuard(DuplicateUserInBatch)))
    else check
  }
}
