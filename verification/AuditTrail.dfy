/** The event log as an audit trail. An auditor who sees only the events can check each one
    against the state replayed so far (Legal) and advance that state (Apply). The auditor's
    rules never mention entry points; the lemmas connect them with the contract's steps:
    every successful step is a run of legal events (or a silent cancellation), and every
    legal event is what some invocation produces. */
module AuditTrail {
  import opened Types
  import opened Storage
  import opened Contract
  import opened TransitionGuards
  import AssetOps
  import Caps
  import Compliance
  import Config
  import Lifecycle

  // ── The auditor's rules ───────────────────────────────────────────────

  predicate IsAdmin(s: State, a: Address) {
    s.admin == Some(a)
  }

  /** The admin of a contract that is not paused. */
  predicate Governs(s: State, a: Address) {
    !s.paused && IsAdmin(s, a)
  }

  /** Who may issue: the admin or an asset manager, while not paused. */
  predicate Issues(s: State, a: Address) {
    !s.paused && s.admin.Some? && (IsAdmin(s, a) || s.RoleOf(a) == AssetManager)
  }

  /** Who may change a compliance status that is currently `from`. */
  predicate Clears(s: State, a: Address, from: ComplianceStatus) {
    && !s.paused
    && s.admin.Some?
    && (IsAdmin(s, a) || (from != ComplianceStatus.Blocked && s.RoleOf(a) in {ComplianceOfficer, EmergencyOfficer}))
  }

  /** An issuer that the policy bars because it also decides who may hold the asset. */
  predicate DutiesSeparated(s: State, a: Address) {
    s.policy.enforced && !s.policy.allowDualDutyIssuance ==>
      !IsAdmin(s, a) && s.RoleOf(a) != Role.Admin
  }

  predicate IndependentOf(s: State, a: Address, to: Address) {
    s.policy.enforced ==>
      && (a == to ==> s.policy.allowSelfIssuance)
      && (s.policy.requireIndependentApprover && to in s.approvers ==> s.approvers[to] != a)
  }

  predicate WithinCap(total: int, cap: int) {
    cap > 0 ==> total <= cap
  }

  predicate Legal(s: State, e: Event) {
    match e
    case ContractInitialized(_) => s.admin.None?
    case RoleAssigned(a, _, role) => Governs(s, a) && role != Role.Admin
    case RoleRevoked(a, target, role) => Governs(s, a) && role == s.RoleOf(target) && role != NoRole
    case AdminTransferInitiated(a, _) => Governs(s, a)
    case AdminTransferred(p, n) => Governs(s, p) && s.adminCandidate == Some(n)
    case AdminRenounced(p, n) => Governs(s, p) && n == p
    case ContractPausedBy(c) =>
      !s.paused && s.admin.Some? && (IsAdmin(s, c) || s.RoleOf(c) == EmergencyOfficer)
    case ContractUnpausedBy(c) => s.paused && IsAdmin(s, c)
    case MetadataUpdated(c, _) =>
      Issues(s, c) && s.assetStatus != AssetStatus.Retired && s.assetStatus != AssetStatus.Blocked
    case AssetMinted(c, to, amount, total) =>
      && MayIssue(s, c)
      && IndependentOf(s, c, to)
      && amount > 0
      && s.assetStatus == Active
      && s.StatusOf(to) == Approved
      && total == s.totalSupply + amount <= I128_MAX
      && WithinCap(total, s.supplyCap.active)
      && WithinCap(s.BalanceOf(to) + amount, s.holdingCap.active)
    case Transferred(from, to, amount) =>
      && !s.paused
      && amount > 0
      && s.assetStatus == Active
      && s.StatusOf(from) == Approved
      && s.StatusOf(to) == Approved
      && WithinCap(s.BalanceOf(to) + amount, s.holdingCap.active)
      && amount <= s.BalanceOf(from)
    case YieldDistributed(c, amount) => MayIssue(s, c) && amount > 0
    case AssetStatusChanged(a, previous, next) =>
      && IsAdmin(s, a)
      && previous == s.assetStatus
      && Lifecycle.IsValidTransition(previous, next)
      && (next == Active ==> !s.paused)
    case ComplianceStatusChanged(c, u, previous, next) =>
      Clears(s, c, previous) && previous == s.StatusOf(u) && TransitionIsAllowed(previous, next)
    case UserWhitelisted(c, u) => Clears(s, c, Approved) && s.StatusOf(u) == Approved
    case WhitelistRevoked(c, u) =>
      Clears(s, c, s.StatusOf(u)) && !TransitionIsAllowed(s.StatusOf(u), Revoked)
    case PolicyUpdated(a, previous, _) => Governs(s, a) && previous == s.policy
    case CapProposed(kind, a, current, proposed) =>
      Governs(s, a) && current == s.Slot(kind).active && 0 <= proposed != current
    case CapAmended(kind, a, previous, next) =>
      Governs(s, a) && s.Slot(kind) == CapSlot(previous, Some(next))
    case ConfigProposed(a, config) => Governs(s, a) && Config.IsValid(config)
    case ConfigAmended(a, config) => Governs(s, a) && s.configCandidate == Some(config)
  }

  predicate MayIssue(s: State, a: Address) {
    Issues(s, a) && DutiesSeparated(s, a)
  }

  function Credit(balances: map<Address, int>, a: Address, amount: int): map<Address, int> {
    balances[a := (if a in balances then balances[a] else 0) + amount]
  }

  /** The state an indexer holds after reading one more event. */
  function Apply(s: State, e: Event): State {
    var t := s.Emit(e);
    match e
    case ContractInitialized(a) => t.(admin := Some(a), roles := s.roles[a := Role.Admin])
    case RoleAssigned(_, target, role) => t.(roles := s.roles[target := role])
    case RoleRevoked(_, target, _) => t.(roles := s.roles[target := NoRole])
    case AdminTransferInitiated(_, c) => t.(adminCandidate := Some(c))
    case AdminTransferred(p, n) =>
      t.(admin := Some(n), adminCandidate := None, roles := s.roles[p := NoRole][n := Role.Admin])
    case AdminRenounced(p, _) => t.(admin := None, roles := s.roles[p := NoRole])
    case ContractPausedBy(_) => t.(paused := true)
    case ContractUnpausedBy(_) => t.(paused := false)
    case MetadataUpdated(_, m) => t.(metadata := m)
    case AssetMinted(_, to, amount, total) => t.(balances := Credit(s.balances, to, amount), totalSupply := total)
    case Transferred(from, to, amount) =>
      t.(balances := Credit(Credit(s.balances, from, 0 - amount), to, amount))
    case YieldDistributed(_, _) => t
    case AssetStatusChanged(_, _, next) => t.(assetStatus := next)
    case ComplianceStatusChanged(c, u, _, next) =>
      t.(compliance := s.compliance[u := next],
         whitelist := if next == Approved then s.whitelist + {u} else s.whitelist - {u},
         approvers := if next == Approved then s.approvers[u := c] else s.approvers)
    case UserWhitelisted(_, _) => t
    case WhitelistRevoked(_, _) => t
    case PolicyUpdated(_, _, p) => t.(policy := p)
    case CapProposed(kind, _, current, proposed) => t.WithSlot(kind, CapSlot(current, Some(proposed)))
    case CapAmended(kind, _, _, next) => t.WithSlot(kind, CapSlot(next, None))
    case ConfigProposed(_, c) => t.(configCandidate := Some(c))
    case ConfigAmended(_, c) => t.(config := c, configCandidate := None)
  }

  /** Audits events one by one from a given state; None as soon as one is illegal. */
  function Play(s: State, events: seq<Event>): Option<State> {
    if |events| == 0 then Some(s)
    else
      var e := events[|events| - 1];
      match Play(s, events[..|events| - 1])
      case None => None
      case Some(t) => if Legal(t, e) then Some(Apply(t, e)) else None
  }

  /** Audits a whole log from deployment. */
  function Replay(log: seq<Event>): Option<State> {
    Play(Initial(), log)
  }

  lemma PlaySnoc(s: State, events: seq<Event>, e: Event)
    ensures Play(s, events + [e]) ==
            match Play(s, events)
            case None => None
            case Some(t) => if Legal(t, e) then Some(Apply(t, e)) else None
  {
    assert (events + [e])[..|events|] == events;
  }

  lemma PlayOne(s: State, e: Event)
    requires Legal(s, e)
    ensures Play(s, [e]) == Some(Apply(s, e))
  {
    assert [e] == [] + [e];
    PlaySnoc(s, [], e);
  }

  lemma {:induction false} PlayConcat(s: State, a: seq<Event>, b: seq<Event>)
    requires Play(s, a).Some?
    ensures Play(s, a + b) == Play(Play(s, a).value, b)
  {
    if |b| == 0 {
      assert a + b == a;
    } else {
      var front, last := b[..|b| - 1], b[|b| - 1];
      assert a + b == (a + front) + [last];
      PlaySnoc(s, a + front, last);
      PlayConcat(s, a, front);
    }
  }

  lemma ApplyLog(s: State, e: Event)
    ensures Apply(s, e).log == s.log + [e]
  {
  }

  lemma {:induction false} PlayLog(s: State, events: seq<Event>)
    requires Play(s, events).Some?
    ensures Play(s, events).value.log == s.log + events
  {
    hide Legal, Apply;
    if |events| != 0 {
      var front, last := events[..|events| - 1], events[|events| - 1];
      PlayLog(s, front);
      ApplyLog(Play(s, front).value, last);
      assert events == front + [last];
    }
  }

  // ── Every successful step is a run of legal events ────────────────────

  predicate IsCancel(call: Call) {
    call.CancelCap? || call.CancelConfig?
  }

  /** A cancellation clears one candidate and leaves no event. */
  lemma CancelEffect(s: State, inv: Invocation)
    requires Guard(s, inv).Ok? && IsCancel(inv.call)
    ensures Effect(s, inv) ==
            if inv.call.CancelConfig? then s.(configCandidate := None)
            else if inv.call.kind.SupplyCap? then s.(supplyCap := CapSlot(s.supplyCap.active, None))
            else s.(holdingCap := CapSlot(s.holdingCap.active, None))
    ensures Effect(s, inv) ==
            if inv.call.CancelCap? then Caps.Cancel(s, inv.call.kind) else Config.Cancel(s)
  {
  }

  lemma MintIsLegal(s: State, auth: set<Address>, admin: Address, to: Address, amount: i128)
    requires AssetOps.MintGuard(s, auth, admin, to, amount).Ok?
    ensures var e := AssetMinted(admin, to, amount, s.totalSupply + amount);
            Legal(s, e) && Apply(s, e) == AssetOps.Mint(s, admin, to, amount)
  {
    hide AssetOps.MintGuard;
    AssetOps.MintGuardIff(s, auth, admin, to, amount);
  }

  lemma TransferEffect(s: State, from: Address, to: Address, amount: i128)
    ensures Apply(s, Transferred(from, to, amount)) == AssetOps.Transfer(s, from, to, amount)
  {
    var debited := AssetOps.Debited(s, from, amount);
    assert debited.balances == Credit(s.balances, from, 0 - amount);
    assert AssetOps.Transfer(s, from, to, amount).balances == Credit(debited.balances, to, amount);
  }

  lemma TransferIsLegal(s: State, auth: set<Address>, from: Address, to: Address, amount: i128)
    requires AssetOps.TransferGuard(s, auth, from, to, amount).Ok?
    ensures var e := Transferred(from, to, amount);
            Legal(s, e) && Apply(s, e) == AssetOps.Transfer(s, from, to, amount)
  {
    hide AssetOps.TransferGuard, AssetOps.Transfer, AssetOps.Debited, Apply;
    AssetOps.TransferGuardIff(s, auth, from, to, amount);
    TransferEffect(s, from, to, amount);
  }

  lemma TransitionIsLegal(s: State, caller: Address, user: Address, next: ComplianceStatus)
    requires RequireTransition(s, caller, s.StatusOf(user), next).Ok?
    ensures var e := ComplianceStatusChanged(caller, user, s.StatusOf(user), next);
            Legal(s, e) && Apply(s, e) == Compliance.ApplyTransition(s, caller, user, s.StatusOf(user), next)
  {
  }

  predicate SameButCompliance(s: State, t: State) {
    t == s.(compliance := t.compliance, whitelist := t.whitelist, approvers := t.approvers, log := t.log)
  }

  lemma TransitionFrame(s: State, caller: Address, user: Address, previous: ComplianceStatus, next: ComplianceStatus)
    ensures var t := Compliance.ApplyTransition(s, caller, user, previous, next);
            && SameButCompliance(s, t)
            && forall u: Address | u != user :: t.StatusOf(u) == s.StatusOf(u)
  {
  }

  /** A batch touches the compliance entries of its own users and nothing else. */
  lemma {:induction false} BatchFrame(s: State, caller: Address, updates: seq<BatchUpdate>)
    ensures SameButCompliance(s, Compliance.ApplyBatch(s, caller, updates))
    ensures forall u: Address | (forall i | 0 <= i < |updates| :: updates[i].user != u) ::
              Compliance.ApplyBatch(s, caller, updates).StatusOf(u) == s.StatusOf(u)
  {
    hide Compliance.ApplyTransition, State.StatusOf;
    if |updates| != 0 {
      var front, last := updates[..|updates| - 1], updates[|updates| - 1];
      BatchFrame(s, caller, front);
      TransitionFrame(
        Compliance.ApplyBatch(s, caller, front), caller, last.user, s.StatusOf(last.user), last.newStatus);
      forall u: Address | forall i | 0 <= i < |updates| :: updates[i].user != u
        ensures Compliance.ApplyBatch(s, caller, updates).StatusOf(u) == s.StatusOf(u)
      {
        assert forall i | 0 <= i < |front| :: front[i].user == updates[i].user;
        assert updates[|updates| - 1].user != u;
      }
    }
  }

  /** With no duplicate users, each row still finds the state it was checked against. */
  lemma BatchRowUnmoved(s: State, caller: Address, updates: seq<BatchUpdate>)
    requires |updates| > 0 && !IsDuplicateAt(updates, |updates| - 1)
    ensures var t := Compliance.ApplyBatch(s, caller, updates[..|updates| - 1]);
            var last := updates[|updates| - 1];
            && t.StatusOf(last.user) == s.StatusOf(last.user)
            && RequireTransition(t, caller, t.StatusOf(last.user), last.newStatus) ==
               RequireTransition(s, caller, s.StatusOf(last.user), last.newStatus)
  {
    var front := updates[..|updates| - 1];
    BatchFrame(s, caller, front);
    assert forall i | 0 <= i < |front| :: front[i] == updates[i];
  }

  /** The events of a batch: one per row, each with the status the row started from. */
  function RowEvents(s: State, caller: Address, updates: seq<BatchUpdate>): seq<Event> {
    seq(|updates|, i requires 0 <= i < |updates| =>
      ComplianceStatusChanged(caller, updates[i].user, s.StatusOf(updates[i].user), updates[i].newStatus))
  }

  lemma {:induction false} BatchEvents(s: State, caller: Address, updates: seq<BatchUpdate>)
    requires Compliance.ScanBatch(s, caller, updates).Ok?
    ensures Play(s, RowEvents(s, caller, updates)) == Some(Compliance.ApplyBatch(s, caller, updates))
  {
    if |updates| != 0 {
      var front, last := updates[..|updates| - 1], updates[|updates| - 1];
      BatchEvents(s, caller, front);
      BatchRowUnmoved(s, caller, updates);
      var t := Compliance.ApplyBatch(s, caller, front);
      TransitionIsLegal(t, caller, last.user, last.newStatus);
      var e := ComplianceStatusChanged(caller, last.user, s.StatusOf(last.user), last.newStatus);
      PlaySnoc(s, RowEvents(s, caller, front), e);
      assert RowEvents(s, caller, updates) == RowEvents(s, caller, front) + [e];
    }
  }

  /** The legacy approval: a change of status unless there is nothing to change, and then always
      the legacy event. */
  function WhitelistEvents(s: State, admin: Address, user: Address): seq<Event> {
    var moved := ComplianceStatusChanged(admin, user, s.StatusOf(user), Approved);
    (if s.StatusOf(user) == Approved then [] else [moved]) + [UserWhitelisted(admin, user)]
  }

  /** The legacy revocation: only what was Pending or Approved is revoked. */
  function RevokeEvents(s: State, admin: Address, user: Address): seq<Event> {
    var moved := ComplianceStatusChanged(admin, user, s.StatusOf(user), Revoked);
    (if s.StatusOf(user) in {Pending, Approved} then [moved] else []) + [WhitelistRevoked(admin, user)]
  }

  lemma WhitelistIsLegal(s: State, auth: set<Address>, admin: Address, user: Address)
    requires Compliance.WhitelistUserGuard(s, auth, admin, user).Ok?
    ensures Play(s, WhitelistEvents(s, admin, user)) == Some(Compliance.WhitelistUser(s, admin, user))
  {
    var e := UserWhitelisted(admin, user);
    if s.StatusOf(user) == Approved {
      assert WhitelistEvents(s, admin, user) == [e];
      PlayOne(s, e);
    } else {
      var moved := ComplianceStatusChanged(admin, user, s.StatusOf(user), Approved);
      TransitionIsLegal(s, admin, user, Approved);
      PlayOne(s, moved);
      PlaySnoc(s, [moved], e);
    }
  }

  lemma RevokeIsLegal(s: State, auth: set<Address>, admin: Address, user: Address)
    requires Compliance.RevokeWhitelistGuard(s, auth, admin, user).Ok?
    ensures Play(s, RevokeEvents(s, admin, user)) == Some(Compliance.RevokeWhitelist(s, admin, user))
  {
    var e := WhitelistRevoked(admin, user);
    if !TransitionIsAllowed(s.StatusOf(user), Revoked) {
      assert RevokeEvents(s, admin, user) == [e];
      PlayOne(s, e);
    } else {
      var moved := ComplianceStatusChanged(admin, user, s.StatusOf(user), Revoked);
      TransitionIsLegal(s, admin, user, Revoked);
      PlayOne(s, moved);
      PlaySnoc(s, [moved], e);
    }
  }

  /** The one event of a call that emits exactly one. */
  function SingleEvent(s: State, inv: Invocation): Event
    requires Guard(s, inv).Ok? && EmitsOne(inv.call)
  {
    match inv.call
    case Initialize(a) => ContractInitialized(a)
    case SetRole(a, target, role) => RoleAssigned(a, target, role)
    case RemoveRole(a, target) => RoleRevoked(a, target, s.RoleOf(target))
    case TransferAdmin(a, c) => AdminTransferInitiated(a, c)
    case AcceptAdmin(c) => AdminTransferred(s.admin.value, c)
    case RenounceAdmin(a) => AdminRenounced(a, a)
    case Pause(c) => ContractPausedBy(c)
    case Unpause(c) => ContractUnpausedBy(c)
    case UpdateAssetMetadata(c, m) => MetadataUpdated(c, m)
    case MintAsset(a, to, amount) => AssetMinted(a, to, amount, s.totalSupply + amount)
    case Transfer(from, to, amount) => Transferred(from, to, amount)
    case DistributeYield(a, amount) => YieldDistributed(a, amount)
    case SetAssetStatus(a, next) => AssetStatusChanged(a, s.assetStatus, next)
    case SetComplianceStatus(c, u, next) => ComplianceStatusChanged(c, u, s.StatusOf(u), next)
    case SetIssuerSeparationPolicy(a, p) => PolicyUpdated(a, s.policy, p)
    case ProposeCap(kind, a, cap) => CapProposed(kind, a, s.Slot(kind).active, cap)
    case AcceptCap(kind, a) => CapAmended(kind, a, s.Slot(kind).active, s.Slot(kind).candidate.value)
    case ProposeConfig(a, config) => ConfigProposed(a, config)
    case AcceptConfig(a) => ConfigAmended(a, s.configCandidate.value)
  }

  predicate EmitsOne(call: Call) {
    !IsCancel(call) && !call.BatchSetComplianceStatus? && !call.WhitelistUser? && !call.RevokeWhitelist?
  }

  lemma RoleCallIsLegal(s: State, inv: Invocation)
    requires Guard(s, inv).Ok? && (inv.call.Initialize? || inv.call.SetRole? || inv.call.RemoveRole?)
    ensures var e := SingleEvent(s, inv); Legal(s, e) && Effect(s, inv) == Apply(s, e)
  {
  }

  lemma AdminCallIsLegal(s: State, inv: Invocation)
    requires Guard(s, inv).Ok? && (inv.call.TransferAdmin? || inv.call.AcceptAdmin? || inv.call.RenounceAdmin?)
    ensures var e := SingleEvent(s, inv); Legal(s, e) && Effect(s, inv) == Apply(s, e)
  {
  }

  lemma PauseCallIsLegal(s: State, inv: Invocation)
    requires Guard(s, inv).Ok? && (inv.call.Pause? || inv.call.Unpause?)
    ensures var e := SingleEvent(s, inv); Legal(s, e) && Effect(s, inv) == Apply(s, e)
  {
  }

  lemma CapProposalIsLegal(s: State, auth: set<Address>, kind: CapKind, a: Address, cap: i128)
    requires Caps.ProposeGuard(s, auth, kind, a, cap).Ok?
    ensures var e := CapProposed(kind, a, s.Slot(kind).active, cap);
            Legal(s, e) && Apply(s, e) == Caps.Propose(s, kind, a, cap)
  {
  }

  lemma CapAcceptanceIsLegal(s: State, auth: set<Address>, kind: CapKind, a: Address)
    requires Caps.PendingGuard(s, auth, kind, a).Ok?
    ensures var e := CapAmended(kind, a, s.Slot(kind).active, s.Slot(kind).candidate.value);
            Legal(s, e) && Apply(s, e) == Caps.Accept(s, kind, a)
  {
  }

  lemma ConfigCallIsLegal(s: State, auth: set<Address>, a: Address, config: ProtocolConfig)
    ensures Config.ProposeGuard(s, auth, a, config).Ok? ==>
              Legal(s, ConfigProposed(a, config)) && Apply(s, ConfigProposed(a, config)) == Config.Propose(s, a, config)
    ensures Config.PendingGuard(s, auth, a).Ok? ==>
              var e := ConfigAmended(a, s.configCandidate.value);
              Legal(s, e) && Apply(s, e) == Config.Accept(s, a)
  {
  }

  lemma PolicyCallIsLegal(s: State, inv: Invocation)
    requires Guard(s, inv).Ok? && inv.call.SetIssuerSeparationPolicy?
    ensures var e := SingleEvent(s, inv); Legal(s, e) && Effect(s, inv) == Apply(s, e)
  {
  }

  lemma LifecycleCallIsLegal(s: State, inv: Invocation)
    requires Guard(s, inv).Ok? && inv.call.SetAssetStatus?
    ensures var e := SingleEvent(s, inv); Legal(s, e) && Effect(s, inv) == Apply(s, e)
  {
  }

  lemma OperationIsLegal(s: State, inv: Invocation)
    requires Guard(s, inv).Ok? && (inv.call.UpdateAssetMetadata? || inv.call.DistributeYield?)
    ensures var e := SingleEvent(s, inv); Legal(s, e) && Effect(s, inv) == Apply(s, e)
  {
  }

  lemma SingleEventIsLegal(s: State, inv: Invocation)
    requires Guard(s, inv).Ok? && EmitsOne(inv.call)
    ensures var e := SingleEvent(s, inv); Legal(s, e) && Effect(s, inv) == Apply(s, e)
  {
    hide Legal, Apply;
    var call := inv.call;
    if call.Initialize? || call.SetRole? || call.RemoveRole? {
      RoleCallIsLegal(s, inv);
    } else if call.TransferAdmin? || call.AcceptAdmin? || call.RenounceAdmin? {
      AdminCallIsLegal(s, inv);
    } else if call.Pause? || call.Unpause? {
      PauseCallIsLegal(s, inv);
    } else if call.ProposeCap? {
      CapProposalIsLegal(s, inv.signers, call.kind, call.admin, call.cap);
    } else if call.AcceptCap? {
      CapAcceptanceIsLegal(s, inv.signers, call.kind, call.admin);
    } else if call.ProposeConfig? {
      ConfigCallIsLegal(s, inv.signers, call.admin, call.config);
    } else if call.AcceptConfig? {
      ConfigCallIsLegal(s, inv.signers, call.admin, DEFAULT_CONFIG);
    } else if call.SetAssetStatus? {
      LifecycleCallIsLegal(s, inv);
    } else if call.SetIssuerSeparationPolicy? {
      PolicyCallIsLegal(s, inv);
    } else if call.MintAsset? {
      MintIsLegal(s, inv.signers, call.admin, call.to, call.amount);
    } else if call.Transfer? {
      TransferIsLegal(s, inv.signers, call.from, call.to, call.amount);
    } else if call.SetComplianceStatus? {
      TransitionIsLegal(s, call.caller, call.user, call.status);
    } else {
      OperationIsLegal(s, inv);
    }
  }

  /** The events a successful call announces, in order; a cancellation announces none. */
  function Announced(s: State, inv: Invocation): seq<Event>
    requires Guard(s, inv).Ok?
  {
    match inv.call
    case CancelCap(_, _) => []
    case CancelConfig(_) => []
    case BatchSetComplianceStatus(caller, updates) => RowEvents(s, caller, updates)
    case WhitelistUser(admin, user) => WhitelistEvents(s, admin, user)
    case RevokeWhitelist(admin, user) => RevokeEvents(s, admin, user)
    case _ => [SingleEvent(s, inv)]
  }

  /** A successful step is told completely by the events it announces: they are legal one after
      another, they are what is appended to the log, and an auditor who applies them holds the
      new ledger. */
  lemma StepEvents(s: State, inv: Invocation)
    requires Guard(s, inv).Ok?
    ensures Effect(s, inv).log == s.log + Announced(s, inv)
    ensures !IsCancel(inv.call) ==> Play(s, Announced(s, inv)) == Some(Effect(s, inv))
  {
    hide Legal, Apply, Guard, Effect, SingleEvent;
    if IsCancel(inv.call) {
      CancelEffect(s, inv);
    } else {
      if EmitsOne(inv.call) {
        SingleEventIsLegal(s, inv);
        PlayOne(s, SingleEvent(s, inv));
      } else {
        ComplianceCallIsLegal(s, inv);
      }
      PlayLog(s, Announced(s, inv));
    }
  }

  lemma ComplianceCallIsLegal(s: State, inv: Invocation)
    requires Guard(s, inv).Ok? && !EmitsOne(inv.call) && !IsCancel(inv.call)
    ensures Play(s, Announced(s, inv)) == Some(Effect(s, inv))
  {
    hide Legal, Apply, SingleEvent;
    var call := inv.call;
    if call.BatchSetComplianceStatus? {
      BatchEvents(s, call.caller, call.updates);
    } else if call.WhitelistUser? {
      WhitelistIsLegal(s, inv.signers, call.admin, call.user);
    } else {
      RevokeIsLegal(s, inv.signers, call.admin, call.user);
    }
  }
}
