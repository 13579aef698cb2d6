/** The pre-flight evaluators and the entry points are two copies of the same rules. These
    lemmas say exactly how far the two agree. */
module Agreement {
  import opened Types
  import opened Storage
  import opened Contract
  import opened Invariants
  import opened Restrictions
  import opened TransitionGuards
  import AccessControl
  import AssetOps
  import AuditTrail
  import Caps
  import Compliance
  import Eligibility
  import Issuance

  // ── Transfers ─────────────────────────────────────────────────────────

  /** Enforcement tells Pending and Blocked apart from a plain lack of clearance. */
  function SenderError(status: ComplianceStatus): Error {
    if status.Blocked? then SenderBlocked
    else if status.Pending? then SenderCompliancePending
    else SenderNotWhitelisted
  }

  function ReceiverError(status: ComplianceStatus): Error {
    if status.Blocked? then ReceiverBlocked
    else if status.Pending? then ReceiverCompliancePending
    else ReceiverNotWhitelisted
  }

  /** The outcome an evaluation announces for a signed submission. */
  function Predicted(e: Evaluation, sender: ComplianceStatus, receiver: ComplianceStatus): Outcome {
    match e
    case Traps => Trap(ArithmeticOverflow)
    case Verdict(Unrestricted) => Ok
    case Verdict(ContractIsPaused) => Panic(Error.ContractPaused)
    case Verdict(UnauthorizedOperation) => Panic(Unauthorized)
    case Verdict(SenderNotCompliant) => Err(SenderError(sender))
    case Verdict(RecipientNotCompliant) => Err(ReceiverError(receiver))
    case Verdict(AssetPaused) => Err(AssetPausedRestriction)
    case Verdict(AssetRetired) => Err(AssetRetiredRestriction)
    case Verdict(AssetBlocked) => Err(AssetBlockedRestriction)
    case Verdict(AmountNotPositive) => Err(InvalidAmount)
    case Verdict(BalanceTooLow) => Err(InsufficientBalance)
    case Verdict(HoldingCapBreached) => Err(HoldingCapExceeded)
    case Verdict(SupplyCapBreached) => Err(SupplyCapExceeded)
  }

  /** What the lifecycle check of a movement announces and raises, read off the asset status. */
  predicate LifecycleDecides(s: State, e: Evaluation, r: Outcome) {
    && (e == Verdict(AssetPaused) <==> r == Err(AssetPausedRestriction))
    && (e == Verdict(AssetRetired) <==> r == Err(AssetRetiredRestriction))
    && (e == Verdict(AssetBlocked) <==> r == Err(AssetBlockedRestriction))
    && (e == Verdict(AssetPaused) ==> s.assetStatus == Paused)
    && (e == Verdict(AssetRetired) ==> s.assetStatus == Retired)
    && (e == Verdict(AssetBlocked) ==> s.assetStatus in {Draft, AssetStatus.Blocked})
  }

  /** A signed transfer ends exactly as the evaluator says, traps included. */
  lemma TransferAgreement(s: State, signers: set<Address>, from: Address, to: Address, amount: i128)
    requires Reachable(s) && from in signers
    ensures Guard(s, Invocation(Transfer(from, to, amount), signers)) ==
            Predicted(EvaluateTransfer(s, from, to, amount), s.StatusOf(from), s.StatusOf(to))
    ensures LifecycleDecides(
              s, EvaluateTransfer(s, from, to, amount), Guard(s, Invocation(Transfer(from, to, amount), signers)))
  {
    ReachableInv(s);
    TransferGuardAgreement(s, signers, from, to, amount);
  }

  lemma TransferGuardAgreement(s: State, signers: set<Address>, from: Address, to: Address, amount: i128)
    requires Conserved(s) && from in signers
    ensures AssetOps.TransferGuard(s, signers, from, to, amount) ==
            Predicted(EvaluateTransfer(s, from, to, amount), s.StatusOf(from), s.StatusOf(to))
  {
    hide Conserved;
    if 0 < amount <= s.BalanceOf(from) {
      TransferNeverOverflows(s, from, to, amount);
    }
  }

  /** The evaluator is documented never to panic. It does exactly when an active holding cap
      makes it add an amount that overflows. */
  lemma TransferEvaluatorTrapsIff(s: State, from: Address, to: Address, amount: i128)
    ensures EvaluateTransfer(s, from, to, amount).Traps? <==>
            && !s.paused
            && amount > 0
            && s.assetStatus == Active
            && s.StatusOf(from) == Approved
            && s.StatusOf(to) == Approved
            && s.holdingCap.active > 0
            && !FitsI128(s.BalanceOf(to) + amount)
  {
  }

  /** The code announced for a refused transfer is the code of the failure, except when the
      first non-compliant party is Pending or Blocked. */
  lemma TransferCodeExact(s: State, signers: set<Address>, from: Address, to: Address, amount: i128, r: Reason)
    requires Reachable(s) && from in signers
    requires EvaluateTransfer(s, from, to, amount) == Verdict(r) && r != Unrestricted
    ensures Guard(s, Invocation(Transfer(from, to, amount), signers)).FailsWith(ErrorForReason(r).value) <==>
            && (r == SenderNotCompliant ==> s.StatusOf(from) in {Unknown, Revoked})
            && (r == RecipientNotCompliant ==> s.StatusOf(to) in {Unknown, Revoked})
  {
    hide Guard;
    TransferAgreement(s, signers, from, to, amount);
  }

  // ── Mints ─────────────────────────────────────────────────────────────

  /** The outcome of a signed mint, read off the two evaluators: the mint evaluator does not
      look at the separation policy, and neither looks at the supply's range. */
  function PredictedMint(s: State, caller: Address, to: Address, amount: i128): Outcome {
    var e := EvaluateMint(s, caller, to, amount);
    var separation := Issuance.EvaluateIssuance(s, caller, Some(to));
    if e == Verdict(ContractIsPaused) then Panic(Error.ContractPaused)
    else if s.admin.None? then Panic(Error.NotInitialized)
    else if e == Verdict(UnauthorizedOperation) then Panic(Unauthorized)
    else if separation == Issuance.DualDutyConflict then Panic(IssuanceDutyConflict)
    else if separation == Issuance.SelfIssuanceConflict then Panic(SelfIssuanceForbidden)
    else if separation == Issuance.ApproverConflict then Panic(IssuanceApproverConflict)
    else if e == Verdict(Unrestricted) && s.totalSupply + amount > I128_MAX then Trap(ArithmeticOverflow)
    else Predicted(e, Unknown, s.StatusOf(to))
  }

  /** Which rule of the policy a separation failure stands for. */
  predicate SeparationDecides(s: State, caller: Address, to: Address, r: Outcome) {
    && (r == Panic(IssuanceDutyConflict) ==>
          s.policy.enforced && !s.policy.allowDualDutyIssuance && s.admin == Some(caller))
    && (r == Panic(SelfIssuanceForbidden) ==>
          s.policy.enforced && !s.policy.allowSelfIssuance && caller == to)
    && (r == Panic(IssuanceApproverConflict) ==>
          && s.policy.enforced && s.policy.requireIndependentApprover
          && to in s.approvers && s.approvers[to] == caller)
  }

  lemma MintAgreement(s: State, signers: set<Address>, caller: Address, to: Address, amount: i128)
    requires Reachable(s) && caller in signers
    ensures Guard(s, Invocation(MintAsset(caller, to, amount), signers)) == PredictedMint(s, caller, to, amount)
    ensures SeparationDecides(s, caller, to, Guard(s, Invocation(MintAsset(caller, to, amount), signers)))
    ensures var r := Guard(s, Invocation(MintAsset(caller, to, amount), signers));
            r.Err? ==> LifecycleDecides(s, EvaluateMint(s, caller, to, amount), r)
  {
    ReachableInv(s);
    MintGuardAgreement(s, signers, caller, to, amount);
  }

  lemma MintGuardAgreement(s: State, signers: set<Address>, caller: Address, to: Address, amount: i128)
    requires Conserved(s) && caller in signers
    ensures AssetOps.MintGuard(s, signers, caller, to, amount) == PredictedMint(s, caller, to, amount)
  {
    hide Conserved;
    ConservedBounds(s, to);
  }

  /** While the new supply fits i128 a mint succeeds iff both evaluators allow it. */
  lemma MintSucceedsIff(s: State, signers: set<Address>, caller: Address, to: Address, amount: i128)
    requires Reachable(s) && caller in signers && s.totalSupply + amount <= I128_MAX
    ensures Guard(s, Invocation(MintAsset(caller, to, amount), signers)).Ok? <==>
            && EvaluateMint(s, caller, to, amount) == Verdict(Unrestricted)
            && Issuance.EvaluateIssuance(s, caller, Some(to)) == Issuance.Allowed
    ensures !EvaluateMint(s, caller, to, amount).Traps?
  {
    hide Guard;
    MintAgreement(s, signers, caller, to, amount);
    ReachableInv(s);
    ConservedBounds(s, to);
  }

  /** The mint evaluator, also documented never to panic, traps exactly when an active cap makes
      it add an amount that overflows: the supply, or else the balance. */
  lemma MintEvaluatorTrapsIff(s: State, caller: Address, to: Address, amount: i128)
    requires Reachable(s)
    ensures EvaluateMint(s, caller, to, amount).Traps? <==>
            && !s.paused
            && CanMint(s, caller)
            && amount > 0
            && s.assetStatus == Active
            && s.StatusOf(to) == Approved
            && s.totalSupply + amount > I128_MAX
            && (s.supplyCap.active > 0 || (s.holdingCap.active > 0 && s.BalanceOf(to) + amount > I128_MAX))
  {
    ReachableInv(s);
    ConservedBounds(s, to);
  }

  /** A mint traps on arithmetic iff it passes every check before the caps and the new supply
      does not fit, unless the holding cap alone refuses it first. */
  lemma MintTrapsIff(s: State, signers: set<Address>, caller: Address, to: Address, amount: i128)
    requires Reachable(s) && caller in signers
    ensures Guard(s, Invocation(MintAsset(caller, to, amount), signers)) == Trap(ArithmeticOverflow) <==>
            && !s.paused
            && CanMint(s, caller)
            && Issuance.EvaluateIssuance(s, caller, Some(to)) == Issuance.Allowed
            && amount > 0
            && s.assetStatus == Active
            && s.StatusOf(to) == Approved
            && s.totalSupply + amount > I128_MAX
            && (s.supplyCap.active == 0 && FitsI128(s.BalanceOf(to) + amount) ==>
                  s.holdingCap.active > 0 ==> s.BalanceOf(to) + amount <= s.holdingCap.active)
  {
    hide Guard;
    MintAgreement(s, signers, caller, to, amount);
    ReachableInv(s);
    ConservedBounds(s, to);
  }

  /** The code announced for a refused mint is the code of the failure iff the contract is
      initialised, the separation policy does not refuse first, and the recipient is not
      Pending or Blocked. */
  lemma MintCodeExact(s: State, signers: set<Address>, caller: Address, to: Address, amount: i128, r: Reason)
    requires Reachable(s) && caller in signers
    requires EvaluateMint(s, caller, to, amount) == Verdict(r) && r != Unrestricted
    ensures Guard(s, Invocation(MintAsset(caller, to, amount), signers)).FailsWith(ErrorForReason(r).value) <==>
            || r == ContractIsPaused
            || (s.admin.Some? && r == UnauthorizedOperation)
            || (&& Issuance.EvaluateIssuance(s, caller, Some(to)) == Issuance.Allowed
                && (r == RecipientNotCompliant ==> s.StatusOf(to) in {Unknown, Revoked}))
  {
    hide Guard;
    MintAgreement(s, signers, caller, to, amount);
  }

  /** A refusal by the separation check is documented to guarantee that a mint reverts with its
      code. It does iff the contract is not paused: the pause is checked first. */
  lemma IssuanceCodeExact(s: State, signers: set<Address>, caller: Address, to: Address, amount: i128)
    requires Reachable(s) && caller in signers
    requires Issuance.EvaluateIssuance(s, caller, Some(to)) != Issuance.Allowed
    ensures var code := Issuance.ErrorForIssuance(Issuance.EvaluateIssuance(s, caller, Some(to))).value;
            Guard(s, Invocation(MintAsset(caller, to, amount), signers)).FailsWith(code) <==> !s.paused
  {
    hide Guard, Inv, Conserved;
    MintAgreement(s, signers, caller, to, amount);
    ReachableInv(s);
    InvAuthority(s);
    DutiesFollowRoles(s, caller);
  }

  // ── Duties ────────────────────────────────────────────────────────────

  predicate HasDuty(s: State, caller: Address, duty: Issuance.Duty) {
    Issuance.RoleHasDuty(Issuance.EffectiveRole(s, caller), duty)
  }

  /** The duty table describes the privileges that are actually enforced. */
  lemma DutiesAreEnforced(s: State, caller: Address)
    requires Reachable(s)
    ensures HasDuty(s, caller, Issuance.Duty.Issuance) <==> CanMint(s, caller)
    ensures HasDuty(s, caller, Issuance.Duty.Issuance) <==> AccessControl.RequireRole(s, caller, AssetManager).Ok?
    ensures HasDuty(s, caller, Issuance.Emergency) <==> AccessControl.RequireRole(s, caller, EmergencyOfficer).Ok?
    ensures HasDuty(s, caller, Issuance.Governance) <==> AccessControl.CheckAdmin(s, caller).Ok?
    ensures forall from: ComplianceStatus ::
              AuthorityGuard(s, caller, from) == Allowed <==>
              HasDuty(s, caller, if from.Blocked? then Issuance.Governance else Issuance.Duty.Compliance)
    ensures HasDuty(s, caller, Issuance.Duty.Compliance) && HasDuty(s, caller, Issuance.Duty.Issuance) <==>
            s.admin == Some(caller)
  {
    ReachableInv(s);
    DutiesFollowRoles(s, caller);
  }

  lemma DutiesFollowRoles(s: State, caller: Address)
    requires AdminRoleIsAdmins(s)
    ensures HasDuty(s, caller, Issuance.Duty.Issuance) <==> CanMint(s, caller)
    ensures HasDuty(s, caller, Issuance.Duty.Issuance) <==> AccessControl.RequireRole(s, caller, AssetManager).Ok?
    ensures HasDuty(s, caller, Issuance.Emergency) <==> AccessControl.RequireRole(s, caller, EmergencyOfficer).Ok?
    ensures HasDuty(s, caller, Issuance.Governance) <==> AccessControl.CheckAdmin(s, caller).Ok?
    ensures forall from: ComplianceStatus ::
              AuthorityGuard(s, caller, from) == Allowed <==>
              HasDuty(s, caller, if from.Blocked? then Issuance.Governance else Issuance.Duty.Compliance)
  {
  }

  /** Each duty decides a success: pausing, unpausing, rule changes, the yield event. */
  lemma DutiesDecideSuccess(s: State, c: Address, amount: i128)
    requires Reachable(s)
    ensures AccessControl.PauseGuard(s, {c}, c).Ok? <==> HasDuty(s, c, Issuance.Emergency) && !s.paused
    ensures AccessControl.UnpauseGuard(s, {c}, c).Ok? <==> HasDuty(s, c, Issuance.Governance) && s.paused
    ensures Issuance.SetPolicyGuard(s, {c}, c).Ok? <==> HasDuty(s, c, Issuance.Governance) && !s.paused
    ensures AssetOps.YieldGuard(s, {c}, c, amount).Ok? <==>
            && HasDuty(s, c, Issuance.Duty.Issuance)
            && !s.paused
            && amount > 0
            && (s.policy.enforced && !s.policy.allowDualDutyIssuance ==> !HasDuty(s, c, Issuance.Duty.Compliance))
  {
    hide Inv, Conserved;
    ReachableInv(s);
    assert AdminRoleIsAdmins(s) by { InvAuthority(s); }
    DutiesFollowRoles(s, c);
  }

  /** Clearance is decided by the compliance duty, and out of Blocked by governance. */
  lemma ClearanceDecided(s: State, c: Address, u: Address, next: ComplianceStatus)
    requires Reachable(s)
    ensures Compliance.SetComplianceStatusGuard(s, {c}, c, u, next).Ok? <==>
            && HasDuty(s, c, if s.StatusOf(u).Blocked? then Issuance.Governance else Issuance.Duty.Compliance)
            && !s.paused
            && TransitionIsAllowed(s.StatusOf(u), next)
  {
    hide Inv, HasDuty;
    ReachableInv(s);
    assert AdminRoleIsAdmins(s) by { InvAuthority(s); }
    DutiesFollowRoles(s, c);
  }

  lemma InvAuthority(s: State)
    requires Inv(s)
    ensures AdminRoleIsAdmins(s)
  {
  }

  // ── Compliance guard ──────────────────────────────────────────────────

  /** The pre-flight check predicts the outcome of a signed submission: success, the error
      code, and whether it surfaces as a panic or as a typed error. Both are read off the ledger:
      authority first, then a change of nothing, then the matrix. */
  lemma GuardAgreement(s: State, signers: set<Address>, caller: Address, user: Address, next: ComplianceStatus)
    requires caller in signers
    ensures var check := CheckTransition(s, caller, user, next);
            var outcome := Guard(s, Invocation(SetComplianceStatus(caller, user, next), signers));
            && (outcome.Ok? <==> check.allowed)
            && (outcome.Ok? <==> check.errorCode == None)
            && (!outcome.Ok? ==> outcome.Err? || outcome.Panic?)
            && (!outcome.Ok? ==> check.errorCode == Some(outcome.error.Code()))
            && (outcome.Panic? <==> GuardPanics(check.reason))
    ensures var outcome := Guard(s, Invocation(SetComplianceStatus(caller, user, next), signers));
            var current := s.StatusOf(user);
            && (outcome == Panic(Error.ContractPaused) <==> s.paused)
            && (outcome == Panic(Error.NotInitialized) <==> !s.paused && s.admin.None?)
            && (outcome == Panic(Unauthorized) <==>
                !s.paused && s.admin.Some? && !AuditTrail.Clears(s, caller, current))
            && (outcome == Err(ComplianceStatusUnchanged) <==>
                AuditTrail.Clears(s, caller, current) && current == next)
            && (outcome == Err(InvalidComplianceTransition) <==>
                AuditTrail.Clears(s, caller, current) && current != next && !TransitionIsAllowed(current, next))
  {
    var outcome := Compliance.SetComplianceStatusGuard(s, signers, caller, user, next);
    assert outcome == Enforced(CheckTransition(s, caller, user, next).reason);
  }

  /** The order the guard is documented in: initialisation before the pause. */
  function EvaluateDocumented(s: State, caller: Address, current: ComplianceStatus, next: ComplianceStatus)
    : TransitionGuard
  {
    if s.admin.None? then TransitionGuard.NotInitialized
    else if s.paused then TransitionGuard.ContractPaused
    else
      var authority := AuthorityGuard(s, caller, current);
      if authority != Allowed then authority
      else if current == next then StatusUnchanged
      else if next == Unknown then TargetUnknownForbidden
      else if !TransitionIsAllowed(current, next) then TransitionForbidden
      else Allowed
  }

  /** The coded order checks the pause first. The verdicts differ only on a paused contract
      without an admin, a state no run reaches. */
  lemma DocumentedOrderAgrees(s: State, caller: Address, current: ComplianceStatus, next: ComplianceStatus)
    ensures EvaluateFromStatus(s, caller, current, next) == EvaluateDocumented(s, caller, current, next) <==>
            !(s.paused && s.admin.None?)
    ensures Reachable(s) ==> !(s.paused && s.admin.None?)
  {
    if Reachable(s) {
      ReachableInv(s);
    }
  }

  /** The legacy wrappers follow the same verdict, and tolerate exactly the no-ops. */
  lemma LegacyAgreement(s: State, signers: set<Address>, caller: Address, user: Address)
    requires caller in signers
    ensures var reason := CheckTransition(s, caller, user, Approved).reason;
            Compliance.WhitelistUserGuard(s, signers, caller, user) ==
            if reason == StatusUnchanged then Ok else Enforced(reason)
    ensures var reason := CheckTransition(s, caller, user, Revoked).reason;
            Compliance.RevokeWhitelistGuard(s, signers, caller, user) ==
            if reason in {StatusUnchanged, TransitionForbidden} then Ok else Enforced(reason)
    ensures !TransitionIsAllowed(s.StatusOf(user), Revoked) ==>
              var t := Compliance.RevokeWhitelist(s, caller, user);
              t == s.(log := t.log)
  {
  }

  // ── Eligibility ───────────────────────────────────────────────────────

  /** Both eligibility flags hold iff a transfer of one unit is unrestricted, also to oneself. */
  lemma EligibilityAgreement(s: State, from: Address, to: Address)
    requires Reachable(s)
    ensures Eligibility.InvestorSnapshot(s, from).canSend && Eligibility.InvestorSnapshot(s, to).canReceive <==>
            EvaluateTransfer(s, from, to, 1) == Verdict(Unrestricted)
  {
    ReachableInv(s);
    ConservedBounds(s, to);
  }

  /** `canReceive` is documented for mints too. It is what the recipient's side contributes: some
      mint to the address succeeds iff it holds, the issuer may issue to it, and the supply has
      room for one more unit under its cap and within i128. */
  lemma MintEligibility(s: State, signers: set<Address>, caller: Address, to: Address)
    requires Reachable(s) && caller in signers
    ensures (exists amount: i128 :: Guard(s, Invocation(MintAsset(caller, to, amount), signers)).Ok?) <==>
            && Eligibility.InvestorSnapshot(s, to).canReceive
            && CanMint(s, caller)
            && Issuance.EvaluateIssuance(s, caller, Some(to)) == Issuance.Allowed
            && s.totalSupply < I128_MAX
            && (s.supplyCap.active > 0 ==> s.totalSupply < s.supplyCap.active)
  {
    hide AssetOps.MintGuard, Issuance.EvaluateIssuance, CanMint, Conserved;
    ReachableInv(s);
    ConservedBounds(s, to);
    forall amount: i128
      ensures Guard(s, Invocation(MintAsset(caller, to, amount), signers)) ==
              AssetOps.MintGuard(s, signers, caller, to, amount)
    {
    }
    forall amount: i128 | AssetOps.MintGuard(s, signers, caller, to, amount).Ok?
      ensures AssetOps.MintGuard(s, signers, caller, to, 1).Ok?
    {
      AssetOps.MintGuardIff(s, signers, caller, to, amount);
      AssetOps.MintGuardIff(s, signers, caller, to, 1);
    }
    AssetOps.MintGuardIff(s, signers, caller, to, 1);
    var one := Invocation(MintAsset(caller, to, 1), signers);
    assert Guard(s, one).Ok? <==> AssetOps.MintGuard(s, signers, caller, to, 1).Ok?;
  }

  /** The boolean verdict is that of a signed transfer. It is documented never to panic, and is
      missing exactly when that transfer traps. */
  lemma TransferEligibilityAgreement(s: State, signers: set<Address>, from: Address, to: Address, amount: i128)
    requires Reachable(s) && from in signers
    ensures var verdict := Eligibility.CheckTransferEligibility(s, from, to, amount);
            var outcome := Guard(s, Invocation(Transfer(from, to, amount), signers));
            && (verdict == Some(true) <==> outcome.Ok?)
            && (verdict == Some(false) <==> outcome.Err? || outcome.Panic?)
            && (verdict == None <==> outcome == Trap(ArithmeticOverflow))
  {
    hide Guard;
    TransferAgreement(s, signers, from, to, amount);
  }

  /** Under an active cap, remaining capacity is the largest amount the holding check passes. */
  lemma RemainingCapacityIsExact(s: State, a: Address, amount: i128)
    requires Reachable(s) && s.holdingCap.active > 0 && amount >= 1
    ensures var capacity := Eligibility.InvestorSnapshot(s, a).remainingCapacity;
            && capacity.Some?
            && 0 <= capacity.value <= I128_MAX
            && (Caps.EnforceHoldingCap(s, a, amount).Ok? <==> amount <= capacity.value)
  {
    ReachableInv(s);
    ConservedBounds(s, a);
  }
}
