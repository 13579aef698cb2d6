/** The contract as a state machine: one step is one invocation by a set of signers. */
module Contract {
  import opened Types
  import opened Storage
  import AccessControl
  import AssetOps
  import Caps
  import Compliance
  import Config
  import Issuance
  import Lifecycle

  datatype Call =
    | Initialize(admin: Address)
    | SetRole(admin: Address, target: Address, role: Role)
    | RemoveRole(admin: Address, target: Address)
    | TransferAdmin(admin: Address, candidate: Address)
    | AcceptAdmin(candidate: Address)
    | RenounceAdmin(admin: Address)
    | Pause(caller: Address)
    | Unpause(caller: Address)
    | UpdateAssetMetadata(caller: Address, metadata: Metadata)
    | MintAsset(admin: Address, to: Address, amount: i128)
    | Transfer(from: Address, to: Address, amount: i128)
    | DistributeYield(admin: Address, amount: i128)
    | SetAssetStatus(admin: Address, assetStatus: AssetStatus)
    | SetComplianceStatus(caller: Address, user: Address, status: ComplianceStatus)
    | BatchSetComplianceStatus(caller: Address, updates: seq<BatchUpdate>)
    | WhitelistUser(admin: Address, user: Address)
    | RevokeWhitelist(admin: Address, user: Address)
    | SetIssuerSeparationPolicy(admin: Address, policy: SeparationPolicy)
    | ProposeCap(kind: CapKind, admin: Address, cap: i128)
    | AcceptCap(kind: CapKind, admin: Address)
    | CancelCap(kind: CapKind, admin: Address)
    | ProposeConfig(admin: Address, config: ProtocolConfig)
    | AcceptConfig(admin: Address)
    | CancelConfig(admin: Address)

  /** A call and the addresses whose authorisation the transaction carries. */
  datatype Invocation = Invocation(call: Call, signers: set<Address>)

  /** The one address whose authorisation the call demands. */
  function Caller(call: Call): Address {
    match call
    case AcceptAdmin(candidate) => candidate
    case Transfer(from, _, _) => from
    case Pause(caller) => caller
    case Unpause(caller) => caller
    case UpdateAssetMetadata(caller, _) => caller
    case SetComplianceStatus(caller, _, _) => caller
    case BatchSetComplianceStatus(caller, _) => caller
    case _ => call.admin
  }

  /** How the invocation ends. */
  function Guard(s: State, inv: Invocation): Outcome {
    var auth := inv.signers;
    match inv.call
    case Initialize(admin) => AccessControl.InitializeGuard(s, auth, admin)
    case SetRole(admin, _, role) => AccessControl.SetRoleGuard(s, auth, admin, role)
    case RemoveRole(admin, target) => AccessControl.RemoveRoleGuard(s, auth, admin, target)
    case TransferAdmin(admin, _) => AccessControl.RequireAdminCall(s, auth, admin)
    case AcceptAdmin(candidate) => AccessControl.AcceptAdminGuard(s, auth, candidate)
    case RenounceAdmin(admin) => AccessControl.RequireAdminCall(s, auth, admin)
    case Pause(caller) => AccessControl.PauseGuard(s, auth, caller)
    case Unpause(caller) => AccessControl.UnpauseGuard(s, auth, caller)
    case UpdateAssetMetadata(caller, _) => AssetOps.UpdateMetadataGuard(s, auth, caller)
    case MintAsset(admin, to, amount) => AssetOps.MintGuard(s, auth, admin, to, amount)
    case Transfer(from, to, amount) => AssetOps.TransferGuard(s, auth, from, to, amount)
    case DistributeYield(admin, amount) => AssetOps.YieldGuard(s, auth, admin, amount)
    case SetAssetStatus(admin, next) => Lifecycle.SetAssetStatusGuard(s, auth, admin, next)
    case SetComplianceStatus(caller, user, next) =>
      Compliance.SetComplianceStatusGuard(s, auth, caller, user, next)
    case BatchSetComplianceStatus(caller, updates) => Compliance.BatchGuard(s, auth, caller, updates)
    case WhitelistUser(admin, user) => Compliance.WhitelistUserGuard(s, auth, admin, user)
    case RevokeWhitelist(admin, user) => Compliance.RevokeWhitelistGuard(s, auth, admin, user)
    case SetIssuerSeparationPolicy(admin, _) => Issuance.SetPolicyGuard(s, auth, admin)
    case ProposeCap(kind, admin, cap) => Caps.ProposeGuard(s, auth, kind, admin, cap)
    case AcceptCap(kind, admin) => Caps.PendingGuard(s, auth, kind, admin)
    case CancelCap(kind, admin) => Caps.PendingGuard(s, auth, kind, admin)
    case ProposeConfig(admin, config) => Config.ProposeGuard(s, auth, admin, config)
    case AcceptConfig(admin) => Config.PendingGuard(s, auth, admin)
    case CancelConfig(admin) => Config.PendingGuard(s, auth, admin)
  }

  /** What a successful invocation leaves in the ledger. */
  function Effect(s: State, inv: Invocation): State
    requires Guard(s, inv).Ok?
  {
    match inv.call
    case Initialize(admin) => AccessControl.Initialize(s, admin)
    case SetRole(admin, target, role) => AccessControl.SetRole(s, admin, target, role)
    case RemoveRole(admin, target) => AccessControl.RemoveRole(s, admin, target)
    case TransferAdmin(admin, candidate) => AccessControl.TransferAdmin(s, admin, candidate)
    case AcceptAdmin(candidate) => AccessControl.AcceptAdmin(s, candidate)
    case RenounceAdmin(admin) => AccessControl.RenounceAdmin(s, admin)
    case Pause(caller) => AccessControl.Pause(s, caller)
    case Unpause(caller) => AccessControl.Unpause(s, caller)
    case UpdateAssetMetadata(caller, metadata) => AssetOps.UpdateMetadata(s, caller, metadata)
    case MintAsset(admin, to, amount) => AssetOps.Mint(s, admin, to, amount)
    case Transfer(from, to, amount) => AssetOps.Transfer(s, from, to, amount)
    case DistributeYield(admin, amount) => AssetOps.DistributeYield(s, admin, amount)
    case SetAssetStatus(admin, next) => Lifecycle.SetAssetStatus(s, admin, next)
    case SetComplianceStatus(caller, user, next) =>
      Compliance.ApplyTransition(s, caller, user, s.StatusOf(user), next)
    case BatchSetComplianceStatus(caller, updates) => Compliance.ApplyBatch(s, caller, updates)
    case WhitelistUser(admin, user) => Compliance.WhitelistUser(s, admin, user)
    case RevokeWhitelist(admin, user) => Compliance.RevokeWhitelist(s, admin, user)
    case SetIssuerSeparationPolicy(admin, policy) => Issuance.SetPolicy(s, admin, policy)
    case ProposeCap(kind, admin, cap) => Caps.Propose(s, kind, admin, cap)
    case AcceptCap(kind, admin) => Caps.Accept(s, kind, admin)
    case CancelCap(kind, _) => Caps.Cancel(s, kind)
    case ProposeConfig(admin, config) => Config.Propose(s, admin, config)
    case AcceptConfig(admin) => Config.Accept(s, admin)
    case CancelConfig(_) => Config.Cancel(s)
  }

  /** The host keeps the effect of a success and rolls everything else back. */
  function Step(s: State, inv: Invocation): State {
    if Guard(s, inv).Ok? then Effect(s, inv) else s
  }

  /** The state after a whole sequence of invocations. */
  function Run(s: State, invs: seq<Invocation>): State {
    if |invs| == 0 then s else Step(Run(s, invs[..|invs| - 1]), invs[|invs| - 1])
  }

  ghost predicate Reachable(s: State) {
    exists invs: seq<Invocation> :: Run(Initial(), invs) == s
  }

  lemma RunSnoc(s: State, invs: seq<Invocation>, inv: Invocation)
    ensures Run(s, invs + [inv]) == Step(Run(s, invs), inv)
  {
    assert (invs + [inv])[..|invs|] == invs;
  }

  lemma {:induction false} RunConcat(s: State, a: seq<Invocation>, b: seq<Invocation>)
    ensures Run(s, a + b) == Run(Run(s, a), b)
  {
    if |b| == 0 {
      assert a + b == a;
    } else {
      var front, last := b[..|b| - 1], b[|b| - 1];
      assert a + b == (a + front) + [last];
      RunSnoc(s, a + front, last);
      RunConcat(s, a, front);
    }
  }

  lemma ReachableStep(s: State, inv: Invocation)
    requires Reachable(s)
    ensures Reachable(Step(s, inv))
  {
    var invs: seq<Invocation> :| Run(Initial(), invs) == s;
    RunSnoc(Initial(), invs, inv);
  }
}
