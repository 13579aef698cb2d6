/** The values the contract exchanges with its callers: addresses, integers of fixed
    width, error codes, role and status enumerations, and emitted events. */
module Types {

  datatype Option<+T> = None | Some(value: T)

  /** An account or contract address; only its identity matters. */
  datatype Address = Address(id: nat)

  // ── Fixed-width integers ──────────────────────────────────────────────

  const I128_MAX: int := 0x7FFF_FFFF_FFFF_FFFF_FFFF_FFFF_FFFF_FFFF
  const I128_MIN: int := -I128_MAX - 1

  predicate FitsI128(x: int) {
    I128_MIN <= x <= I128_MAX
  }

  type i128 = x: int | FitsI128(x)
  type u32 = x: int | 0 <= x < 0x1_0000_0000

  /** Addition with overflow checks on: None stands for the arithmetic trap. */
  function CheckedAdd(a: int, b: int): Option<int> {
    if FitsI128(a + b) then Some(a + b) else None
  }

  // ── Errors and outcomes ───────────────────────────────────────────────

  datatype Error =
    | AlreadyInitialized
    | NotInitialized
    | NoPendingAdminTransfer
    | Unauthorized
    | CannotAssignAdminRole
    | NoRoleToRevoke
    | NotPendingCandidate
    | ContractPaused
    | AlreadyPaused
    | NotPaused
    | IssuanceDutyConflict
    | SelfIssuanceForbidden
    | IssuanceApproverConflict
    | SenderNotWhitelisted
    | ReceiverNotWhitelisted
    | SenderBlocked
    | ReceiverBlocked
    | SenderCompliancePending
    | ReceiverCompliancePending
    | InvalidComplianceTransition
    | ComplianceStatusUnchanged
    | InvalidAmount
    | InsufficientBalance
    | SupplyCapExceeded
    | HoldingCapExceeded
    | InvalidLifecycleTransition
    | AssetMetadataUpdateBlocked
    | AssetPausedRestriction
    | AssetRetiredRestriction
    | AssetBlockedRestriction
  {
    /** The numeric code a client observes. */
    function Code(): u32 {
      match this
      case AlreadyInitialized => 1000
      case NotInitialized => 2000
      case NoPendingAdminTransfer => 2001
      case Unauthorized => 3000
      case CannotAssignAdminRole => 3001
      case NoRoleToRevoke => 3002
      case NotPendingCandidate => 3003
      case ContractPaused => 3004
      case AlreadyPaused => 3005
      case NotPaused => 3006
      case IssuanceDutyConflict => 3007
      case SelfIssuanceForbidden => 3008
      case IssuanceApproverConflict => 3009
      case SenderNotWhitelisted => 4000
      case ReceiverNotWhitelisted => 4001
      case SenderBlocked => 4002
      case ReceiverBlocked => 4003
      case SenderCompliancePending => 4004
      case ReceiverCompliancePending => 4005
      case InvalidComplianceTransition => 4006
      case ComplianceStatusUnchanged => 4007
      case InvalidAmount => 5000
      case InsufficientBalance => 5001
      case SupplyCapExceeded => 5002
      case HoldingCapExceeded => 5003
      case InvalidLifecycleTransition => 6004
      case AssetMetadataUpdateBlocked => 6006
      case AssetPausedRestriction => 7000
      case AssetRetiredRestriction => 7001
      case AssetBlockedRestriction => 7002
    }
  }

  /** Why the host aborts without a contract error code. */
  datatype TrapCause = AuthenticationMissing | ArithmeticOverflow | AssertionFailed

  /** How an invocation ends: a typed `Err`, a panic that carries an error code, or a
      host trap that carries none. */
  datatype Outcome = Ok | Err(error: Error) | Panic(error: Error) | Trap(cause: TrapCause) {

    predicate IsFailure() {
      !Ok?
    }

    function PropagateFailure(): Outcome
      requires IsFailure()
    {
      this
    }

    /** The first failure of a series of checks. */
    function Then(next: Outcome): Outcome {
      if Ok? then next else this
    }

    predicate FailsWith(e: Error) {
      (Err? || Panic?) && error == e
    }
  }

  // ── Roles, statuses, policy, configuration ────────────────────────────

  datatype Role = NoRole | Admin | ComplianceOfficer | AssetManager | EmergencyOfficer

  datatype AssetStatus = Draft | Active | Paused | Retired | Blocked

  datatype ComplianceStatus = Unknown | Pending | Approved | Revoked | Blocked

  datatype SeparationPolicy = SeparationPolicy(
    enforced: bool,
    allowDualDutyIssuance: bool,
    allowSelfIssuance: bool,
    requireIndependentApprover: bool)

  const DEFAULT_POLICY := SeparationPolicy(false, true, true, false)

  datatype ProtocolConfig = ProtocolConfig(minTransferAmount: i128, maxBatchSize: u32)

  const DEFAULT_CONFIG := ProtocolConfig(0, 100)

  datatype Metadata = Metadata(name: string, symbol: string, uri: string)

  datatype BatchUpdate = BatchUpdate(user: Address, newStatus: ComplianceStatus)

  /** Which of the two caps: they follow the same two-step governance. */
  datatype CapKind = SupplyCap | HoldingCap

  // ── Events ────────────────────────────────────────────────────────────

  datatype Event =
    | ContractInitialized(admin: Address)
    | RoleAssigned(admin: Address, target: Address, role: Role)
    | RoleRevoked(admin: Address, target: Address, role: Role)
    | AdminTransferInitiated(admin: Address, candidate: Address)
    | AdminTransferred(previousAdmin: Address, newAdmin: Address)
    | AdminRenounced(previousAdmin: Address, newAdmin: Address)
    | ContractPausedBy(caller: Address)
    | ContractUnpausedBy(caller: Address)
    | MetadataUpdated(caller: Address, metadata: Metadata)
    | AssetMinted(caller: Address, to: Address, amount: i128, totalSupply: int)
    | Transferred(from: Address, to: Address, amount: i128)
    | YieldDistributed(caller: Address, amount: i128)
    | AssetStatusChanged(admin: Address, previousAssetStatus: AssetStatus, newAssetStatus: AssetStatus)
    | ComplianceStatusChanged(caller: Address, user: Address, previousStatus: ComplianceStatus, newStatus: ComplianceStatus)
    | UserWhitelisted(caller: Address, user: Address)
    | WhitelistRevoked(caller: Address, user: Address)
    | PolicyUpdated(admin: Address, previousPolicy: SeparationPolicy, newPolicy: SeparationPolicy)
    | CapProposed(kind: CapKind, admin: Address, currentCap: i128, proposedCap: i128)
    | CapAmended(kind: CapKind, admin: Address, previousCap: i128, newCap: i128)
    | ConfigProposed(admin: Address, config: ProtocolConfig)
    | ConfigAmended(admin: Address, config: ProtocolConfig)
}
