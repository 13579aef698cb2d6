/** What the read-only reports say, in terms of the ledger alone. */
module Reports {
  import opened Types
  import opened Storage
  import opened Contract
  import opened Invariants
  import opened Restrictions
  import opened TransitionGuards
  import AssetOps
  import AuditTrail
  import Eligibility
  import Governance
  import History
  import Issuance

  // ── Movements ─────────────────────────────────────────────────────────

  /** Every reason a transfer can be announced as refused for, and exactly when. */
  lemma TransferReasons(s: State, from: Address, to: Address, amount: i128)
    ensures var e := EvaluateTransfer(s, from, to, amount);
            var asked := !s.paused && amount > 0;
            var live := asked && s.assetStatus == Active;
            var cleared := live && s.StatusOf(from) == Approved && s.StatusOf(to) == Approved;
            var credited, cap := s.BalanceOf(to) + amount, s.holdingCap.active;
            var capped := cap > 0 && (credited > cap || credited < I128_MIN);
            && (e == Verdict(ContractIsPaused) <==> s.paused)
            && (e == Verdict(AmountNotPositive) <==> !s.paused && amount <= 0)
            && (e == Verdict(AssetPaused) <==> asked && s.assetStatus == Paused)
            && (e == Verdict(AssetRetired) <==> asked && s.assetStatus == Retired)
            && (e == Verdict(AssetBlocked) <==> asked && s.assetStatus in {Draft, AssetStatus.Blocked})
            && (e == Verdict(SenderNotCompliant) <==> live && s.StatusOf(from) != Approved)
            && (e == Verdict(RecipientNotCompliant) <==>
                live && s.StatusOf(from) == Approved && s.StatusOf(to) != Approved)
            && (e == Verdict(HoldingCapBreached) <==> cleared && 0 < cap < credited <= I128_MAX)
            && (e == Verdict(BalanceTooLow) <==> cleared && !capped && s.BalanceOf(from) < amount)
            && (e == Verdict(Unrestricted) <==> cleared && !capped && amount <= s.BalanceOf(from))
            && e != Verdict(UnauthorizedOperation) && e != Verdict(SupplyCapBreached)
  {
  }

  /** Every reason a mint can be announced as refused for, and exactly when. */
  lemma MintReasons(s: State, caller: Address, to: Address, amount: i128)
    requires Reachable(s)
    ensures var e := EvaluateMint(s, caller, to, amount);
            var role := s.admin.Some? && (s.admin == Some(caller) || s.RoleOf(caller) == AssetManager);
            var asked := !s.paused && role && amount > 0;
            var cleared := asked && s.assetStatus == Active && s.StatusOf(to) == Approved;
            var supply, credited := s.totalSupply + amount, s.BalanceOf(to) + amount;
            var overSupply := 0 < s.supplyCap.active < supply;
            var overHolding := 0 < s.holdingCap.active < credited;
            && (e == Verdict(ContractIsPaused) <==> s.paused)
            && (e == Verdict(UnauthorizedOperation) <==> !s.paused && !role)
            && (e == Verdict(AmountNotPositive) <==> !s.paused && role && amount <= 0)
            && (e == Verdict(AssetPaused) <==> asked && s.assetStatus == Paused)
            && (e == Verdict(AssetRetired) <==> asked && s.assetStatus == Retired)
            && (e == Verdict(AssetBlocked) <==> asked && s.assetStatus in {Draft, AssetStatus.Blocked})
            && (e == Verdict(RecipientNotCompliant) <==>
                asked && s.assetStatus == Active && s.StatusOf(to) != Approved)
            && (e == Verdict(SupplyCapBreached) <==> cleared && overSupply && supply <= I128_MAX)
            && (e == Verdict(HoldingCapBreached) <==> cleared && !overSupply && overHolding && credited <= I128_MAX)
            && (e == Verdict(Unrestricted) <==> cleared && !overSupply && !overHolding)
            && e != Verdict(SenderNotCompliant) && e != Verdict(BalanceTooLow)
  {
    ReachableInv(s);
    ConservedBounds(s, to);
  }

  /** The number a refusal is announced under. */
  lemma ReasonCodes(r: Reason)
    requires r != Unrestricted
    ensures ErrorForReason(r).Some?
    ensures var code := ErrorForReason(r).value.Code();
            && (code == 3000 <==> r == UnauthorizedOperation)
            && (code == 3004 <==> r == ContractIsPaused)
            && (code == 4000 <==> r == SenderNotCompliant)
            && (code == 4001 <==> r == RecipientNotCompliant)
            && (code == 5000 <==> r == AmountNotPositive)
            && (code == 5001 <==> r == BalanceTooLow)
            && (code == 5002 <==> r == SupplyCapBreached)
            && (code == 5003 <==> r == HoldingCapBreached)
            && (code == 7000 <==> r == AssetPaused)
            && (code == 7001 <==> r == AssetRetired)
            && (code == 7002 <==> r == AssetBlocked)
  {
  }

  // ── Separation of duties ──────────────────────────────────────────────

  /** The verdict of the separation check and the number it is announced under. Without a
      recipient only the first rule applies. */
  lemma SeparationReasons(s: State, caller: Address, recipient: Option<Address>)
    requires Reachable(s)
    ensures var g := Issuance.EvaluateIssuance(s, caller, recipient);
            var issuer := s.admin.Some? && (s.admin == Some(caller) || s.RoleOf(caller) == AssetManager);
            var bound := issuer && s.policy.enforced;
            var dual := bound && !s.policy.allowDualDutyIssuance && s.admin == Some(caller);
            var self := bound && !s.policy.allowSelfIssuance && recipient == Some(caller);
            var approved := bound && s.policy.requireIndependentApprover &&
                            recipient.Some? && recipient.value in s.approvers && s.approvers[recipient.value] == caller;
            && (g == Issuance.NotInitialized <==> s.admin.None?)
            && (g == Issuance.MissingIssuanceDuty <==> s.admin.Some? && !issuer)
            && (g == Issuance.DualDutyConflict <==> dual)
            && (g == Issuance.SelfIssuanceConflict <==> !dual && self)
            && (g == Issuance.ApproverConflict <==> !dual && !self && approved)
            && (g == Issuance.Allowed <==> issuer && !dual && !self && !approved)
  {
    ReachableAuthority(s);
  }

  lemma SeparationCodes(g: Issuance.IssuanceGuard)
    ensures (Issuance.ErrorForIssuance(g) == None) <==> g == Issuance.Allowed
    ensures g != Issuance.Allowed ==>
              var code := Issuance.ErrorForIssuance(g).value.Code();
              && (code == 2000 <==> g == Issuance.NotInitialized)
              && (code == 3000 <==> g == Issuance.MissingIssuanceDuty)
              && (code == 3007 <==> g == Issuance.DualDutyConflict)
              && (code == 3008 <==> g == Issuance.SelfIssuanceConflict)
              && (code == 3009 <==> g == Issuance.ApproverConflict)
  {
  }

  lemma ReachableAuthority(s: State)
    requires Reachable(s)
    ensures AdminRoleIsAdmins(s)
  {
    hide Conserved, Step;
    ReachableInv(s);
  }

  // ── Status changes ────────────────────────────────────────────────────

  /** The pre-flight report of a status change: what it is about, the verdict, and its number. */
  lemma TransitionReport(s: State, caller: Address, user: Address, next: ComplianceStatus)
    ensures var check := CheckTransition(s, caller, user, next);
            var current := s.StatusOf(user);
            var clears := AuditTrail.Clears(s, caller, current);
            && check.user == user && check.caller == caller
            && check.currentStatus == current && check.requestedStatus == next
            && (check.reason == TransitionGuard.ContractPaused <==> s.paused)
            && (check.reason == TransitionGuard.NotInitialized <==> !s.paused && s.admin.None?)
            && (check.reason == BlockedRequiresAdmin <==>
                !s.paused && s.admin.Some? && !clears && current == ComplianceStatus.Blocked)
            && (check.reason == CallerUnauthorized <==>
                !s.paused && s.admin.Some? && !clears && current != ComplianceStatus.Blocked)
            && (check.reason == StatusUnchanged <==> clears && current == next)
            && (check.reason == TargetUnknownForbidden <==> clears && current != next && next == Unknown)
            && (check.reason == TransitionForbidden <==>
                clears && current != next && next != Unknown && !TransitionIsAllowed(current, next))
            && (check.reason == Allowed <==> clears && TransitionIsAllowed(current, next))
            && (check.allowed <==> check.reason == Allowed)
            && check.errorCode == ReportedCode(check.reason)
  {
  }

  function ReportedCode(g: TransitionGuard): Option<u32> {
    match g
    case Allowed => None
    case NotInitialized => Some(2000)
    case ContractPaused => Some(3004)
    case CallerUnauthorized | BlockedRequiresAdmin => Some(3000)
    case StatusUnchanged => Some(4007)
    case TargetUnknownForbidden | TransitionForbidden | DuplicateUserInBatch => Some(4006)
  }

  /** A batch row reports what the same change reports alone, unless its user came up before. */
  lemma RowReport(s: State, caller: Address, updates: seq<BatchUpdate>, i: nat)
    requires i < |updates|
    ensures var row := CheckRow(s, caller, updates, i);
            var alone := CheckTransition(s, caller, updates[i].user, updates[i].newStatus);
            if forall k | 0 <= k < i :: updates[k].user != updates[i].user then row == alone
            else
              && row == alone.(allowed := row.allowed, reason := row.reason, errorCode := row.errorCode)
              && !row.allowed && row.reason == DuplicateUserInBatch && row.errorCode == Some(4006)
  {
  }

  // ── Eligibility ───────────────────────────────────────────────────────

  /** The snapshot agrees with what the log tells about the investor and the caps, and its flags
      mean that nothing can move. */
  lemma SnapshotReport(s: State, u: Address)
    requires Reachable(s)
    ensures var e := Eligibility.InvestorSnapshot(s, u);
            && e.complianceStatus == s.StatusOf(u)
            && (e.whitelisted <==> u in s.whitelist)
            && (e.contractPaused <==> s.paused)
            && e.balance == History.NetFlow(s.log, u)
            && e.holdingCap == Governance.LatestAmendment(s.log, HoldingCap)
            && (e.remainingCapacity == None <==> e.holdingCap == 0)
            && (e.remainingCapacity.Some? ==>
                  && e.remainingCapacity.value >= 0
                  && (e.balance <= e.holdingCap ==> e.balance + e.remainingCapacity.value == e.holdingCap)
                  && (e.balance > e.holdingCap ==> e.remainingCapacity.value == 0))
            && e.assetStatus == s.assetStatus
            && (e.canSend <==> e.whitelisted && !e.contractPaused && e.assetStatus == Active && e.balance > 0)
            && (e.canReceive <==>
                && e.whitelisted && !e.contractPaused && e.assetStatus == Active
                && (e.remainingCapacity == None || e.remainingCapacity.value > 0))
    ensures var e := Eligibility.InvestorSnapshot(s, u);
            e.contractPaused || e.assetStatus != Active ==>
              forall inv: Invocation | inv.call.MintAsset? || inv.call.Transfer? :: Step(s, inv) == s
  {
    hide Step, Inv, Guard, History.NetFlow, Governance.LatestAmendment;
    ReachableInv(s);
    History.BalancesFromEvents(s, u);
    Governance.ActiveCapIsLatestAmendment(s, HoldingCap);
    SnapshotFlags(s, u);
    if s.paused || s.assetStatus != Active {
      forall inv: Invocation | inv.call.MintAsset? || inv.call.Transfer?
        ensures Step(s, inv) == s
      {
        NothingMoves(s, inv);
      }
    }
  }

  lemma SnapshotFlags(s: State, u: Address)
    requires Inv(s)
    ensures u in s.whitelist <==> s.StatusOf(u) == Approved
    ensures s.holdingCap.active >= 0
  {
    hide Conserved;
  }

  lemma NothingMoves(s: State, inv: Invocation)
    requires s.paused || s.assetStatus != Active
    requires inv.call.MintAsset? || inv.call.Transfer?
    ensures Step(s, inv) == s
  {
    hide Effect, AssetOps.MintGuard, AssetOps.TransferGuard;
    if inv.call.MintAsset? {
      AssetOps.MintGuardIff(s, inv.signers, inv.call.admin, inv.call.to, inv.call.amount);
    } else {
      AssetOps.TransferGuardIff(s, inv.signers, inv.call.from, inv.call.to, inv.call.amount);
    }
  }
}
