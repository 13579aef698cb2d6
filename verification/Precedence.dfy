/** Why a call fails, for all entry points at once. Every objection to a call is described from the
    ledger and the call alone, in no order and under the number a client sees. There is one order
    of precedence for the whole contract: a call succeeds iff there is no objection to it, and
    fails with the objection that comes first. */
module Precedence {
  import opened Types
  import opened Storage
  import opened Contract
  import opened Invariants
  import opened Refusals
  import AssetOps
  import Caps
  import Issuance
  import Restrictions

  /** A numbered error, or a trap without a number. */
  datatype Objection = Coded(code: int) | Trapped(cause: TrapCause)

  // ── Who may make a call, what it moves ────────────────────────────────

  predicate IsAdmin(s: State, a: Address) {
    s.admin == Some(a)
  }

  predicate Holds(s: State, a: Address, role: Role) {
    IsAdmin(s, a) || s.RoleOf(a) == role
  }

  predicate IsCapCall(call: Call) {
    call.ProposeCap? || call.AcceptCap? || call.CancelCap?
  }

  predicate IsClearance(call: Call) {
    call.SetComplianceStatus? || call.WhitelistUser? || call.RevokeWhitelist?
  }

  predicate IsMovement(call: Call) {
    call.MintAsset? || call.Transfer?
  }

  predicate MayClear(s: State, a: Address, user: Address) {
    || IsAdmin(s, a)
    || (s.StatusOf(user) != ComplianceStatus.Blocked && s.RoleOf(a) in {ComplianceOfficer, EmergencyOfficer})
  }

  predicate Entitled(s: State, call: Call) {
    if call.Initialize? || call.AcceptAdmin? || call.Transfer? then true
    else if call.Pause? then Holds(s, call.caller, EmergencyOfficer)
    else if call.MintAsset? || call.UpdateAssetMetadata? || call.DistributeYield? then
      Holds(s, Caller(call), AssetManager)
    else if IsClearance(call) then MayClear(s, Caller(call), call.user)
    else IsAdmin(s, Caller(call))
  }

  predicate MatrixForbids(from: ComplianceStatus, to: ComplianceStatus) {
    || from == to
    || to == Unknown
    || (from == ComplianceStatus.Blocked && to != Pending)
    || (from == Unknown && to == Revoked)
  }

  predicate LifecycleForbids(from: AssetStatus, to: AssetStatus) {
    || from == to
    || from == Retired
    || to == Draft
    || (to != Active && from !in {Active, Paused})
  }

  /** What the recipient would hold. */
  function Credited(s: State, call: Call): int
    requires IsMovement(call)
  {
    s.BalanceOf(call.to) + call.amount
  }

  /** Whether the additions of a mint or transfer reach one that does not fit. */
  predicate Overflows(s: State, call: Call)
    requires IsMovement(call)
  {
    if call.Transfer? then s.holdingCap.active > 0 && Credited(s, call) > I128_MAX
    else
      && s.totalSupply + call.amount > I128_MAX
      && (|| s.supplyCap.active > 0
          || Credited(s, call) > I128_MAX
          || s.holdingCap.active == 0
          || Credited(s, call) <= s.holdingCap.active)
  }

  // ── The objections ────────────────────────────────────────────────────

  predicate ObjectsToAccess(s: State, inv: Invocation, code: int) {
    var call := inv.call;
    || (code == 1000 && call.Initialize? && s.admin.Some?)
    || (code == 2000 && s.admin.None? && !IgnoresAdmin(s, call))
    || (code == 2001 && call.AcceptAdmin? && s.adminCandidate.None?)
    || (code == 2001 && (call.AcceptConfig? || call.CancelConfig?) && s.configCandidate.None?)
    || (code == 3000 && !IsCapCall(call) && !Entitled(s, call))
    || (code == 3001 && call.SetRole? && call.role == Role.Admin)
    || (code == 3002 && call.RemoveRole? && s.RoleOf(call.target) == NoRole)
    || (code == 3003 && call.AcceptAdmin? && s.adminCandidate.Some? && s.adminCandidate != Some(call.candidate))
    || (code == 3004 && s.paused && !IgnoresPause(call))
    || (code == 3005 && call.Pause? && s.paused)
    || (code == 3006 && call.Unpause? && !s.paused)
  }

  predicate SeparatesDuties(s: State, issuer: Address) {
    s.policy.enforced && !s.policy.allowDualDutyIssuance && IsAdmin(s, issuer)
  }

  predicate ForbidsSelf(s: State, issuer: Address, to: Address) {
    s.policy.enforced && !s.policy.allowSelfIssuance && issuer == to
  }

  predicate DemandsAnother(s: State, issuer: Address, to: Address) {
    && s.policy.enforced && s.policy.requireIndependentApprover
    && to in s.approvers && s.approvers[to] == issuer
  }

  predicate ObjectsToSeparation(s: State, inv: Invocation, code: int) {
    var call := inv.call;
    || (code == 3007 && (call.MintAsset? || call.DistributeYield?) && SeparatesDuties(s, call.admin))
    || (code == 3008 && call.MintAsset? && ForbidsSelf(s, call.admin, call.to))
    || (code == 3009 && call.MintAsset? && DemandsAnother(s, call.admin, call.to))
  }

  predicate ObjectsToRequest(s: State, inv: Invocation, code: int) {
    var call := inv.call;
    || (code == 4006 && call.SetComplianceStatus? && MatrixForbids(s.StatusOf(call.user), call.status))
    || (code == 4006 && call.WhitelistUser? && s.StatusOf(call.user) == ComplianceStatus.Blocked)
    || (code == 4007 && call.SetComplianceStatus? && s.StatusOf(call.user) == call.status)
    || (code == 5000 && call.ProposeConfig? && (call.config.minTransferAmount < 0 || call.config.maxBatchSize == 0))
    || (code == 5000 && call.DistributeYield? && call.amount <= 0)
    || (code == 6004 && call.SetAssetStatus? && LifecycleForbids(s.assetStatus, call.assetStatus))
    || (code == 6006 && call.UpdateAssetMetadata? && s.assetStatus in {AssetStatus.Retired, AssetStatus.Blocked})
  }

  predicate ObjectsToParties(s: State, inv: Invocation, code: int)
    requires IsMovement(inv.call)
  {
    var call := inv.call;
    var receiver := s.StatusOf(call.to);
    || (code == 4000 && call.Transfer? && s.StatusOf(call.from) in {Unknown, Revoked})
    || (code == 4001 && receiver in {Unknown, Revoked})
    || (code == 4002 && call.Transfer? && s.StatusOf(call.from) == ComplianceStatus.Blocked)
    || (code == 4003 && receiver == ComplianceStatus.Blocked)
    || (code == 4004 && call.Transfer? && s.StatusOf(call.from) == Pending)
    || (code == 4005 && receiver == Pending)
  }

  predicate ObjectsToMovement(s: State, inv: Invocation, code: int)
    requires IsMovement(inv.call)
  {
    var call := inv.call;
    || (code == 5000 && call.amount <= 0)
    || (code == 5001 && call.Transfer? && s.BalanceOf(call.from) < call.amount)
    || (code == 5002 && call.MintAsset? && 0 < s.supplyCap.active < s.totalSupply + call.amount)
    || (code == 5003 && 0 < s.holdingCap.active < Credited(s, call))
    || (code == 7000 && s.assetStatus == Paused)
    || (code == 7001 && s.assetStatus == Retired)
    || (code == 7002 && s.assetStatus in {Draft, AssetStatus.Blocked})
  }

  /** Failures without a number. The cap entry points have no others of their own. */
  predicate Aborts(s: State, inv: Invocation, cause: TrapCause) {
    var call := inv.call;
    || (cause.AuthenticationMissing? && Caller(call) !in inv.signers)
    || (cause.ArithmeticOverflow? && IsMovement(call) && Overflows(s, call))
    || (cause.AssertionFailed? && IsCapCall(call) &&
        (|| !IsAdmin(s, call.admin)
         || (call.ProposeCap? && (call.cap < 0 || call.cap == s.Slot(call.kind).active))
         || (!call.ProposeCap? && s.Slot(call.kind).candidate.None?)))
  }

  predicate Objects(s: State, inv: Invocation, o: Objection) {
    match o
    case Coded(code) =>
      || ObjectsToAccess(s, inv, code)
      || ObjectsToSeparation(s, inv, code)
      || (if IsMovement(inv.call)
          then ObjectsToParties(s, inv, code) || ObjectsToMovement(s, inv, code)
          else ObjectsToRequest(s, inv, code))
    case Trapped(cause) => Aborts(s, inv, cause)
  }

  /** The order of precedence; lower comes first. */
  function Rank(o: Objection): nat {
    match o
    case Coded(3004) => 0
    case Coded(1000) => 1
    case Trapped(AuthenticationMissing) => 2
    case Coded(2000) => 3
    case Coded(3000) => 4
    case Coded(3001) => 5
    case Coded(3002) => 6
    case Coded(2001) => 7
    case Coded(3003) => 8
    case Coded(3005) => 9
    case Coded(3006) => 10
    case Coded(3007) => 11
    case Coded(3008) => 12
    case Coded(3009) => 13
    case Coded(5000) => 14
    case Coded(7000) => 15
    case Coded(7001) => 16
    case Coded(7002) => 17
    case Coded(4002) => 18
    case Coded(4004) => 19
    case Coded(4000) => 20
    case Coded(4003) => 21
    case Coded(4005) => 22
    case Coded(4001) => 23
    case Coded(4007) => 24
    case Coded(4006) => 25
    case Trapped(ArithmeticOverflow) => 26
    case Coded(5002) => 27
    case Coded(5003) => 28
    case Coded(5001) => 29
    case Coded(6004) => 30
    case Coded(6006) => 31
    case Trapped(AssertionFailed) => 32
    case _ => 33
  }

  // ── The first objection decides ───────────────────────────────────────

  function Objected(outcome: Outcome): Objection
    requires !outcome.Ok?
  {
    match outcome
    case Err(e) => Coded(e.Code())
    case Panic(e) => Coded(e.Code())
    case Trap(cause) => Trapped(cause)
  }

  ghost predicate IsFirst(s: State, inv: Invocation, o: Objection) {
    Objects(s, inv, o) && forall p | Objects(s, inv, p) :: Rank(o) <= Rank(p)
  }

  predicate ChecksRole(call: Call) {
    || call.Pause? || call.UpdateAssetMetadata? || call.MintAsset? || call.DistributeYield?
    || IsClearance(call)
  }

  /** The pause, a missing admin, a missing role and the separation of duties panic; every other
      number is returned as an error. */
  predicate Surfaces(call: Call, r: Outcome) {
    r.Err? || r.Panic? ==>
      var code := r.error.Code();
      r.Panic? <==> code in {3004, 2000, 3007, 3008, 3009} || (code == 3000 && ChecksRole(call))
  }

  ghost predicate Decided(s: State, inv: Invocation) {
    if Guard(s, inv).Ok? then forall o: Objection :: !Objects(s, inv, o)
    else IsFirst(s, inv, Objected(Guard(s, inv))) && Surfaces(inv.call, Guard(s, inv))
  }

  lemma RoleDecided(s: State, inv: Invocation)
    requires inv.call.Initialize? || inv.call.SetRole? || inv.call.RemoveRole?
    ensures Decided(s, inv)
  {
  }

  lemma SeatDecided(s: State, inv: Invocation)
    requires inv.call.TransferAdmin? || inv.call.AcceptAdmin? || inv.call.RenounceAdmin?
    ensures Decided(s, inv)
  {
  }

  lemma PauseDecided(s: State, inv: Invocation)
    requires inv.call.Pause? || inv.call.Unpause?
    ensures Decided(s, inv)
  {
  }

  lemma AssetDecided(s: State, inv: Invocation)
    requires inv.call.UpdateAssetMetadata? || inv.call.SetAssetStatus?
    ensures Decided(s, inv)
  {
  }

  lemma YieldDecided(s: State, inv: Invocation)
    requires inv.call.DistributeYield?
    ensures Decided(s, inv)
  {
  }

  // ── Minting and transferring, stage by stage ──────────────────────────

  function AssetOutcome(status: AssetStatus): Outcome {
    match status
    case Active => Ok
    case Paused => Err(AssetPausedRestriction)
    case Retired => Err(AssetRetiredRestriction)
    case Draft => Err(AssetBlockedRestriction)
    case Blocked => Err(AssetBlockedRestriction)
  }

  /** The lifecycle check of every movement. Draft counts as blocked. */
  lemma AssetCode(s: State)
    ensures Restrictions.RequireAssetMovable(s) == AssetOutcome(s.assetStatus)
  {
  }

  function SeparationOutcome(s: State, issuer: Address, recipient: Option<Address>): Outcome {
    if SeparatesDuties(s, issuer) then Panic(IssuanceDutyConflict)
    else if recipient.Some? && ForbidsSelf(s, issuer, recipient.value) then Panic(SelfIssuanceForbidden)
    else if recipient.Some? && DemandsAnother(s, issuer, recipient.value) then Panic(IssuanceApproverConflict)
    else Ok
  }

  /** The separation check, for whoever has passed the role check. */
  lemma SeparationCode(s: State, issuer: Address, recipient: Option<Address>)
    requires s.admin.Some? && Holds(s, issuer, AssetManager)
    ensures Issuance.RequireIssuanceAuthority(s, issuer, recipient) == SeparationOutcome(s, issuer, recipient)
  {
  }

  function LimitOutcome(s: State, call: Call): Outcome
    requires IsMovement(call)
  {
    if Overflows(s, call) then Trap(ArithmeticOverflow)
    else if call.MintAsset? && 0 < s.supplyCap.active < s.totalSupply + call.amount then Err(SupplyCapExceeded)
    else if 0 < s.holdingCap.active < Credited(s, call) then Err(HoldingCapExceeded)
    else if call.Transfer? && s.BalanceOf(call.from) < call.amount then Err(InsufficientBalance)
    else Ok
  }

  function PartiesOutcome(s: State, call: Call): Outcome
    requires IsMovement(call)
  {
    var sender := if call.Transfer? then s.StatusOf(call.from) else Approved;
    var receiver := s.StatusOf(call.to);
    if sender == ComplianceStatus.Blocked then Err(SenderBlocked)
    else if sender == Pending then Err(SenderCompliancePending)
    else if sender != Approved then Err(SenderNotWhitelisted)
    else if receiver == ComplianceStatus.Blocked then Err(ReceiverBlocked)
    else if receiver == Pending then Err(ReceiverCompliancePending)
    else if receiver != Approved then Err(ReceiverNotWhitelisted)
    else Ok
  }

  function EntryOutcome(s: State, inv: Invocation): Outcome
    requires IsMovement(inv.call)
  {
    if s.paused then Panic(Error.ContractPaused)
    else if Caller(inv.call) !in inv.signers then Trap(AuthenticationMissing)
    else if inv.call.MintAsset? && s.admin.None? then Panic(Error.NotInitialized)
    else if !Entitled(s, inv.call) then Panic(Unauthorized)
    else if inv.call.MintAsset? then SeparationOutcome(s, inv.call.admin, Some(inv.call.to))
    else Ok
  }

  function AmountOutcome(call: Call): Outcome
    requires IsMovement(call)
  {
    if call.amount <= 0 then Err(InvalidAmount) else Ok
  }

  function MovementOutcome(s: State, inv: Invocation): Outcome
    requires IsMovement(inv.call)
  {
    EntryOutcome(s, inv)
    .Then(AmountOutcome(inv.call))
    .Then(AssetOutcome(s.assetStatus))
    .Then(PartiesOutcome(s, inv.call))
    .Then(LimitOutcome(s, inv.call))
  }

  lemma TransferLimits(s: State, call: Call)
    requires Conserved(s) && call.Transfer? && call.amount > 0
    ensures LimitOutcome(s, call) ==
            Caps.EnforceHoldingCap(s, call.to, call.amount)
            .Then(if s.BalanceOf(call.from) < call.amount then Err(InsufficientBalance) else Ok)
    ensures LimitOutcome(s, call).Ok? ==>
              && FitsI128(s.BalanceOf(call.from) - call.amount)
              && FitsI128(AssetOps.Debited(s, call.from, call.amount).BalanceOf(call.to) + call.amount)
  {
    hide Conserved, AssetOps.Debited;
    ConservedBounds(s, call.to);
    if call.amount <= s.BalanceOf(call.from) {
      TransferNeverOverflows(s, call.from, call.to, call.amount);
    }
  }

  lemma TransferCode(s: State, inv: Invocation)
    requires inv.call.Transfer? && Conserved(s)
    ensures AssetOps.TransferGuard(s, inv.signers, inv.call.from, inv.call.to, inv.call.amount) ==
            MovementOutcome(s, inv)
  {
    hide Conserved, Restrictions.RequireAssetMovable, AssetOutcome, LimitOutcome, Caps.EnforceHoldingCap,
         AssetOps.Debited, State.BalanceOf;
    AssetCode(s);
    if inv.call.amount > 0 {
      TransferLimits(s, inv.call);
    }
  }

  lemma MintLimits(s: State, call: Call)
    requires Conserved(s) && CapsSound(s) && call.MintAsset? && call.amount > 0
    ensures LimitOutcome(s, call) ==
            Caps.EnforceSupplyCap(s, call.amount)
            .Then(Caps.EnforceHoldingCap(s, call.to, call.amount))
            .Then(if FitsI128(s.BalanceOf(call.to) + call.amount) && FitsI128(s.totalSupply + call.amount)
                  then Ok
                  else Trap(ArithmeticOverflow))
  {
    hide Conserved;
    ConservedBounds(s, call.to);
  }

  lemma MintCode(s: State, inv: Invocation)
    requires inv.call.MintAsset? && Conserved(s) && CapsSound(s)
    ensures AssetOps.MintGuard(s, inv.signers, inv.call.admin, inv.call.to, inv.call.amount) ==
            MovementOutcome(s, inv)
  {
    hide Conserved, CapsSound, Restrictions.RequireAssetMovable, AssetOutcome, LimitOutcome,
         Caps.EnforceSupplyCap, Caps.EnforceHoldingCap, State.BalanceOf, FitsI128,
         Issuance.RequireIssuanceAuthority, SeparationOutcome;
    AssetCode(s);
    if s.admin.Some? && Holds(s, inv.call.admin, AssetManager) {
      SeparationCode(s, inv.call.admin, Some(inv.call.to));
    }
    if inv.call.amount > 0 {
      MintLimits(s, inv.call);
    }
  }

  lemma MovementCode(s: State, inv: Invocation)
    requires IsMovement(inv.call) && Inv(s)
    ensures Guard(s, inv) == MovementOutcome(s, inv)
  {
    hide Inv, Conserved, CapsSound, AssetOps.MintGuard, AssetOps.TransferGuard, MovementOutcome;
    InvParts(s);
    if inv.call.MintAsset? {
      MintCode(s, inv);
    } else {
      TransferCode(s, inv);
    }
  }

  lemma InvParts(s: State)
    requires Inv(s)
    ensures Conserved(s) && CapsSound(s)
  {
    hide Conserved, CapsSound, ComplianceSound, AdminRoleIsAdmins;
  }

  lemma EntryObjects(s: State, inv: Invocation)
    requires IsMovement(inv.call) && !EntryOutcome(s, inv).Ok?
    ensures Objects(s, inv, Objected(EntryOutcome(s, inv)))
  {
  }

  lemma AssetObjects(s: State, inv: Invocation)
    requires IsMovement(inv.call)
    ensures !AssetOutcome(s.assetStatus).Ok? ==> Objects(s, inv, Objected(AssetOutcome(s.assetStatus)))
    ensures !AmountOutcome(inv.call).Ok? ==> Objects(s, inv, Objected(AmountOutcome(inv.call)))
  {
  }

  lemma PartiesObject(s: State, inv: Invocation)
    requires IsMovement(inv.call) && !PartiesOutcome(s, inv.call).Ok?
    ensures Objects(s, inv, Objected(PartiesOutcome(s, inv.call)))
  {
  }

  lemma LimitsObject(s: State, inv: Invocation)
    requires IsMovement(inv.call) && !LimitOutcome(s, inv.call).Ok?
    ensures Objects(s, inv, Objected(LimitOutcome(s, inv.call)))
  {
  }

  lemma MovementObjects(s: State, inv: Invocation)
    requires IsMovement(inv.call) && !MovementOutcome(s, inv).Ok?
    ensures Objects(s, inv, Objected(MovementOutcome(s, inv)))
  {
    hide Objects, Objected, EntryOutcome, AmountOutcome, AssetOutcome, PartiesOutcome, LimitOutcome;
    if !EntryOutcome(s, inv).Ok? {
      EntryObjects(s, inv);
    }
    AssetObjects(s, inv);
    if !PartiesOutcome(s, inv.call).Ok? {
      PartiesObject(s, inv);
    }
    if !LimitOutcome(s, inv.call).Ok? {
      LimitsObject(s, inv);
    }
  }

  /** The movement fails no later than with p. */
  predicate NoLater(s: State, inv: Invocation, p: Objection)
    requires IsMovement(inv.call)
  {
    !MovementOutcome(s, inv).Ok? && Rank(Objected(MovementOutcome(s, inv))) <= Rank(p)
  }

  lemma EntryRank(s: State, inv: Invocation)
    requires IsMovement(inv.call) && !EntryOutcome(s, inv).Ok?
    ensures Rank(Objected(EntryOutcome(s, inv))) < 14
  {
  }

  lemma AssetRank(status: AssetStatus)
    requires !AssetOutcome(status).Ok?
    ensures 14 < Rank(Objected(AssetOutcome(status))) < 18
  {
  }

  lemma PartiesRank(s: State, call: Call)
    requires IsMovement(call) && !PartiesOutcome(s, call).Ok?
    ensures 18 <= Rank(Objected(PartiesOutcome(s, call))) < 24
  {
  }

  lemma StageRanks(s: State, inv: Invocation)
    requires IsMovement(inv.call)
    ensures !EntryOutcome(s, inv).Ok? ==> Rank(Objected(EntryOutcome(s, inv))) < 14
    ensures !AssetOutcome(s.assetStatus).Ok? ==> 14 < Rank(Objected(AssetOutcome(s.assetStatus))) < 18
    ensures !PartiesOutcome(s, inv.call).Ok? ==> 18 <= Rank(Objected(PartiesOutcome(s, inv.call))) < 24
  {
    hide Rank, Objected, EntryOutcome, AssetOutcome, PartiesOutcome;
    if !EntryOutcome(s, inv).Ok? {
      EntryRank(s, inv);
    }
    if !AssetOutcome(s.assetStatus).Ok? {
      AssetRank(s.assetStatus);
    }
    if !PartiesOutcome(s, inv.call).Ok? {
      PartiesRank(s, inv.call);
    }
  }

  lemma AccessPrecedes(s: State, inv: Invocation, code: int)
    requires IsMovement(inv.call) && (ObjectsToAccess(s, inv, code) || ObjectsToSeparation(s, inv, code))
    ensures NoLater(s, inv, Coded(code))
  {
  }

  lemma PartiesPrecede(s: State, inv: Invocation, code: int)
    requires IsMovement(inv.call) && ObjectsToParties(s, inv, code)
    ensures NoLater(s, inv, Coded(code))
  {
    hide EntryOutcome, AssetOutcome, LimitOutcome;
    StageRanks(s, inv);
  }

  lemma AssetPrecedes(s: State, inv: Invocation, code: int)
    requires IsMovement(inv.call) && ObjectsToMovement(s, inv, code) && code !in {5001, 5002, 5003}
    ensures NoLater(s, inv, Coded(code))
  {
    hide EntryOutcome, PartiesOutcome, LimitOutcome;
    StageRanks(s, inv);
  }

  lemma LimitsPrecede(s: State, inv: Invocation, code: int)
    requires IsMovement(inv.call) && ObjectsToMovement(s, inv, code) && code in {5001, 5002, 5003}
    ensures NoLater(s, inv, Coded(code))
  {
    hide EntryOutcome, AssetOutcome, PartiesOutcome;
    StageRanks(s, inv);
  }

  lemma TrapPrecedes(s: State, inv: Invocation, cause: TrapCause)
    requires IsMovement(inv.call) && Aborts(s, inv, cause)
    ensures NoLater(s, inv, Trapped(cause))
  {
  }

  lemma StagesSurface(s: State, inv: Invocation)
    requires IsMovement(inv.call)
    ensures Surfaces(inv.call, EntryOutcome(s, inv)) && Surfaces(inv.call, AmountOutcome(inv.call))
    ensures Surfaces(inv.call, AssetOutcome(s.assetStatus))
    ensures Surfaces(inv.call, PartiesOutcome(s, inv.call)) && Surfaces(inv.call, LimitOutcome(s, inv.call))
  {
  }

  lemma MovementSurfaces(s: State, inv: Invocation)
    requires IsMovement(inv.call)
    ensures Surfaces(inv.call, MovementOutcome(s, inv))
  {
    hide Surfaces, EntryOutcome, AmountOutcome, AssetOutcome, PartiesOutcome, LimitOutcome;
    StagesSurface(s, inv);
  }

  lemma MovementDecided(s: State, inv: Invocation)
    requires IsMovement(inv.call) && Inv(s)
    ensures Decided(s, inv)
  {
    hide Guard, Inv, Rank, MovementOutcome, Aborts, ObjectsToAccess, ObjectsToSeparation, ObjectsToParties,
         ObjectsToMovement, ObjectsToRequest, Objected, Surfaces;
    MovementCode(s, inv);
    MovementSurfaces(s, inv);
    if !Guard(s, inv).Ok? {
      MovementObjects(s, inv);
    }
    forall p | Objects(s, inv, p)
      ensures NoLater(s, inv, p)
    {
      match p {
        case Trapped(cause) => TrapPrecedes(s, inv, cause);
        case Coded(code) =>
          if ObjectsToParties(s, inv, code) {
            PartiesPrecede(s, inv, code);
          } else if ObjectsToMovement(s, inv, code) {
            if code in {5001, 5002, 5003} {
              LimitsPrecede(s, inv, code);
            } else {
              AssetPrecedes(s, inv, code);
            }
          } else {
            AccessPrecedes(s, inv, code);
          }
      }
    }
  }

  lemma StatusDecided(s: State, inv: Invocation)
    requires inv.call.SetComplianceStatus?
    ensures Decided(s, inv)
  {
  }

  lemma LegacyDecided(s: State, inv: Invocation)
    requires inv.call.WhitelistUser? || inv.call.RevokeWhitelist?
    ensures Decided(s, inv)
  {
  }

  lemma PolicyDecided(s: State, inv: Invocation)
    requires inv.call.SetIssuerSeparationPolicy?
    ensures Decided(s, inv)
  {
  }

  lemma CapDecided(s: State, inv: Invocation)
    requires inv.call.ProposeCap? || inv.call.AcceptCap? || inv.call.CancelCap?
    ensures Decided(s, inv)
  {
  }

  lemma ConfigDecided(s: State, inv: Invocation)
    requires inv.call.ProposeConfig? || inv.call.AcceptConfig? || inv.call.CancelConfig?
    ensures Decided(s, inv)
  {
  }

  lemma CallDecided(s: State, inv: Invocation)
    requires Inv(s) && !inv.call.BatchSetComplianceStatus?
    ensures Decided(s, inv)
  {
    hide Inv, Decided;
    match inv.call {
      case Initialize(_) | SetRole(_, _, _) | RemoveRole(_, _) => RoleDecided(s, inv);
      case TransferAdmin(_, _) | AcceptAdmin(_) | RenounceAdmin(_) => SeatDecided(s, inv);
      case Pause(_) | Unpause(_) => PauseDecided(s, inv);
      case UpdateAssetMetadata(_, _) | SetAssetStatus(_, _) => AssetDecided(s, inv);
      case DistributeYield(_, _) => YieldDecided(s, inv);
      case MintAsset(_, _, _) | Transfer(_, _, _) => MovementDecided(s, inv);
      case SetComplianceStatus(_, _, _) => StatusDecided(s, inv);
      case WhitelistUser(_, _) | RevokeWhitelist(_, _) => LegacyDecided(s, inv);
      case SetIssuerSeparationPolicy(_, _) => PolicyDecided(s, inv);
      case ProposeCap(_, _, _) | AcceptCap(_, _) | CancelCap(_, _) => CapDecided(s, inv);
      case ProposeConfig(_, _) | AcceptConfig(_) | CancelConfig(_) => ConfigDecided(s, inv);
    }
  }

  /** A call succeeds iff nothing objects to it, and otherwise fails with the objection that no
      other precedes. (A batch is decided by its rows: see Batch.BatchAgreement.) */
  lemma FirstObjectionDecides(s: State, inv: Invocation)
    requires Reachable(s) && !inv.call.BatchSetComplianceStatus?
    ensures Guard(s, inv).Ok? <==> forall o: Objection :: !Objects(s, inv, o)
    ensures !Guard(s, inv).Ok? ==> IsFirst(s, inv, Objected(Guard(s, inv)))
    ensures !Guard(s, inv).Ok? ==> Surfaces(inv.call, Guard(s, inv))
    ensures forall o, p: Objection | Objects(s, inv, o) && Objects(s, inv, p) && Rank(o) == Rank(p) :: o == p
  {
    hide Inv, Guard, Step, Objects, Rank, Surfaces;
    ReachableInv(s);
    CallDecided(s, inv);
    forall o, p: Objection | Objects(s, inv, o) && Objects(s, inv, p) && Rank(o) == Rank(p)
      ensures o == p
    {
      Ranked(s, inv, o);
      Ranked(s, inv, p);
      RanksDistinct(o, p);
    }
  }

  lemma Ranked(s: State, inv: Invocation, o: Objection)
    requires Objects(s, inv, o)
    ensures Rank(o) < Rank(Coded(0))
  {
  }

  lemma RanksDistinct(o: Objection, p: Objection)
    requires Rank(o) == Rank(p) < Rank(Coded(0))
    ensures o == p
  {
  }
}
