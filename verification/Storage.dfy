/** The contract's ledger entries as one value. An entry the code only ever reads with a
    default is stored as that default; an entry whose presence the code tests is an Option. */
module Storage {
  import opened Types

  /** An active cap (0 means no cap) and the proposal waiting to be accepted. */
  datatype CapSlot = CapSlot(active: i128, candidate: Option<i128>)

  /** Balances and supply are unbounded here: every write goes through CheckedAdd, and
      Invariants proves that they stay within i128. */
  datatype State = State(
    admin: Option<Address>,
    adminCandidate: Option<Address>,
    roles: map<Address, Role>,
    paused: bool,
    assetStatus: AssetStatus,
    compliance: map<Address, ComplianceStatus>,
    whitelist: set<Address>,
    approvers: map<Address, Address>,
    balances: map<Address, int>,
    totalSupply: int,
    supplyCap: CapSlot,
    holdingCap: CapSlot,
    policy: SeparationPolicy,
    config: ProtocolConfig,
    configCandidate: Option<ProtocolConfig>,
    metadata: Metadata,
    log: seq<Event>)
  {
    function RoleOf(a: Address): Role {
      if a in roles then roles[a] else NoRole
    }

    function StatusOf(u: Address): ComplianceStatus {
      if u in compliance then compliance[u] else Unknown
    }

    predicate IsWhitelisted(u: Address) {
      StatusOf(u).Approved?
    }

    function BalanceOf(a: Address): int {
      if a in balances then balances[a] else 0
    }

    function Slot(kind: CapKind): CapSlot {
      match kind
      case SupplyCap => supplyCap
      case HoldingCap => holdingCap
    }

    function WithSlot(kind: CapKind, slot: CapSlot): State {
      this.(supplyCap := if kind.SupplyCap? then slot else supplyCap,
            holdingCap := if kind.HoldingCap? then slot else holdingCap)
    }

    function Emit(e: Event): State {
      this.(log := log + [e])
    }
  }

  /** A freshly deployed contract. */
  function Initial(): State {
    State(
      None, None, map[], false, Draft, map[], {}, map[], map[], 0,
      CapSlot(0, None), CapSlot(0, None), DEFAULT_POLICY, DEFAULT_CONFIG, None,
      Metadata("", "", ""), [])
  }
}
