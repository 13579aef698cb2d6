/** Reachable ledgers on which a documented promise fails. The exact conditions are in Agreement
    and History. */
module Witnesses {
  import opened Types
  import opened Storage
  import opened Contract
  import opened Restrictions
  import opened Recovery
  import AssetOps
  import Caps
  import Frames
  import Invariants
  import Eligibility
  import Issuance
  import Liquidity
  import AuditExact
  import AuditTrail
  import History

  const ISSUER := Address(1)
  const INVESTOR := Address(2)

  predicate Stocked(s: State) {
    && Ready(s, ISSUER)
    && s.policy == DEFAULT_POLICY
    && s.assetStatus == Active
    && s.StatusOf(INVESTOR) == Approved
    && s.supplyCap.active == 0 && s.holdingCap.active == 0
    && s.totalSupply == 1 && s.BalanceOf(INVESTOR) == 1
  }

  /** One unit issued to one approved investor, with no caps. */
  lemma OneUnitIssued() returns (s: State)
    ensures Reachable(s) && Stocked(s)
  {
    hide Step, Run, AssetOps.MintGuard, Invariants.Conserved;
    var start := Initial();
    var invs := Prepare(start, ISSUER, INVESTOR);
    var t := Run(start, invs);
    Invariants.InitialInv();
    Invariants.RunKeepsInv(start, invs);
    PreparedMint(t, ISSUER, INVESTOR, 1);
    var mint := By(ISSUER, MintAsset(ISSUER, INVESTOR, 1));
    Frames.MintStep(t, mint);
    RunSnoc(start, invs, mint);
    s := Run(start, invs + [mint]);
  }

  /** Both evaluators allow a mint that traps: neither checks that the supply fits. */
  lemma AllowedMintCanTrap() returns (s: State)
    ensures Reachable(s)
    ensures EvaluateMint(s, ISSUER, INVESTOR, I128_MAX) == Verdict(Unrestricted)
    ensures Issuance.EvaluateIssuance(s, ISSUER, Some(INVESTOR)) == Issuance.Allowed
    ensures Guard(s, By(ISSUER, MintAsset(ISSUER, INVESTOR, I128_MAX))) == Trap(ArithmeticOverflow)
  {
    hide Step;
    s := OneUnitIssued();
  }

  lemma CappedAt(s: State) returns (t: State)
    requires Reachable(s) && Ready(s, ISSUER) && s.holdingCap.active == 0
    ensures Reachable(t)
    ensures t == s.(holdingCap := CapSlot(10, None), log := t.log)
  {
    hide Run;
    var propose, accept := By(ISSUER, ProposeCap(HoldingCap, ISSUER, 10)), By(ISSUER, AcceptCap(HoldingCap, ISSUER));
    ReachableStep(s, propose);
    var mid := Step(s, propose);
    assert mid == Caps.Propose(s, HoldingCap, ISSUER, 10);
    AcceptStep(mid, HoldingCap, ISSUER);
    ReachableStep(mid, accept);
    t := Step(mid, accept);
  }

  /** The transfer evaluator, documented never to panic, traps. */
  lemma TransferEvaluatorCanTrap() returns (s: State)
    ensures Reachable(s)
    ensures EvaluateTransfer(s, INVESTOR, INVESTOR, I128_MAX) == Traps
    ensures Eligibility.CheckTransferEligibility(s, INVESTOR, INVESTOR, I128_MAX) == None
  {
    hide Step;
    var stocked := OneUnitIssued();
    s := CappedAt(stocked);
  }

  /** So does the mint evaluator, on the same ledger. */
  lemma MintEvaluatorCanTrap() returns (s: State)
    ensures Reachable(s)
    ensures EvaluateMint(s, ISSUER, INVESTOR, I128_MAX) == Traps
  {
    hide Step;
    var stocked := OneUnitIssued();
    s := CappedAt(stocked);
  }

  // ── The announced reason is not the code of the failure ───────────────

  lemma Reclassified(s: State, next: ComplianceStatus) returns (t: State)
    requires Reachable(s) && Stocked(s) && next in {Pending, ComplianceStatus.Blocked}
    ensures Reachable(t)
    ensures t == s.(compliance := s.compliance[INVESTOR := next], whitelist := t.whitelist, log := t.log)
  {
    var e := ComplianceStatusChanged(ISSUER, INVESTOR, Approved, next);
    assert AuditTrail.Legal(s, e);
    t := AuditTrail.Apply(s, e);
    hide AuditTrail.Legal, AuditTrail.Apply;
    AuditExact.LegalEventReachable(s, e);
  }

  /** A pending sender is announced as 4000 and fails with 4004. */
  lemma PendingSenderMisannounced() returns (s: State)
    ensures Reachable(s)
    ensures EvaluateTransfer(s, INVESTOR, INVESTOR, 1) == Verdict(SenderNotCompliant)
    ensures ErrorForReason(SenderNotCompliant) == Some(SenderNotWhitelisted) && SenderNotWhitelisted.Code() == 4000
    ensures var outcome := Guard(s, By(INVESTOR, Transfer(INVESTOR, INVESTOR, 1)));
            outcome.Err? && outcome.error.Code() == 4004
  {
    hide Step;
    var stocked := OneUnitIssued();
    s := Reclassified(stocked, Pending);
  }

  /** A blocked recipient is announced as 4001 and fails with 4003. */
  lemma BlockedRecipientMisannounced() returns (s: State)
    ensures Reachable(s)
    ensures EvaluateMint(s, ISSUER, INVESTOR, 1) == Verdict(RecipientNotCompliant)
    ensures ErrorForReason(RecipientNotCompliant) == Some(ReceiverNotWhitelisted) && ReceiverNotWhitelisted.Code() == 4001
    ensures var outcome := Guard(s, By(ISSUER, MintAsset(ISSUER, INVESTOR, 1)));
            outcome.Err? && outcome.error.Code() == 4003
  {
    hide Step;
    var stocked := OneUnitIssued();
    s := Reclassified(stocked, ComplianceStatus.Blocked);
  }

  /** A mint of nothing by an issuer who also clears investors is announced as 5000; under a
      policy that separates the duties it fails with 3007 first. */
  lemma SeparationPreemptsAmount() returns (s: State)
    ensures Reachable(s)
    ensures EvaluateMint(s, ISSUER, INVESTOR, 0) == Verdict(AmountNotPositive)
    ensures ErrorForReason(AmountNotPositive) == Some(InvalidAmount) && InvalidAmount.Code() == 5000
    ensures var outcome := Guard(s, By(ISSUER, MintAsset(ISSUER, INVESTOR, 0)));
            outcome.Panic? && outcome.error.Code() == 3007
  {
    hide Step;
    var stocked := OneUnitIssued();
    var e := PolicyUpdated(ISSUER, DEFAULT_POLICY, SeparationPolicy(true, false, true, false));
    AuditExact.LegalEventReachable(stocked, e);
    s := AuditTrail.Apply(stocked, e);
  }

  /** The snapshot says the investor can receive a mint of one unit; with the supply at its cap no
      issuer can make one. */
  lemma ReceiverWithoutMint() returns (s: State)
    ensures Reachable(s)
    ensures Eligibility.InvestorSnapshot(s, INVESTOR).canReceive
    ensures forall issuer: Address, amount: i128 ::
              !Guard(s, By(issuer, MintAsset(issuer, INVESTOR, amount))).Ok?
  {
    hide Step;
    var stocked := OneUnitIssued();
    s := TwoMore(stocked, CapProposed(SupplyCap, ISSUER, 0, 1), CapAmended(SupplyCap, ISSUER, 0, 1));
  }

  /** A key without the issuance duty is announced as 3000 and, while paused, fails with 3004. */
  lemma PausePreemptsSeparation() returns (s: State)
    ensures Reachable(s)
    ensures Issuance.EvaluateIssuance(s, INVESTOR, Some(INVESTOR)) == Issuance.MissingIssuanceDuty
    ensures Issuance.ErrorForIssuance(Issuance.MissingIssuanceDuty) == Some(Unauthorized) && Unauthorized.Code() == 3000
    ensures var outcome := Guard(s, By(INVESTOR, MintAsset(INVESTOR, INVESTOR, 1)));
            outcome.Panic? && outcome.error.Code() == 3004
  {
    InitialReachable();
    s := TwoMore(Initial(), ContractInitialized(ISSUER), ContractPausedBy(ISSUER));
  }

  /** Retired while paused: the change itself ignores the pause, and the announced reason is the
      recoverable pause although nothing can ever be transferred again. */
  lemma RetirementHiddenByPause() returns (s: State)
    ensures Reachable(s)
    ensures s.log == [
              ContractInitialized(ISSUER), AssetStatusChanged(ISSUER, Draft, Active),
              ContractPausedBy(ISSUER), AssetStatusChanged(ISSUER, Active, Retired)]
    ensures EvaluateTransfer(s, INVESTOR, INVESTOR, 1) == Verdict(ContractIsPaused) && !IsTerminal(ContractIsPaused)
    ensures Liquidity.NeverTransfers(s, INVESTOR, INVESTOR, 1)
  {
    hide Step, Liquidity.NeverTransfers;
    InitialReachable();
    var live := TwoMore(Initial(), ContractInitialized(ISSUER), AssetStatusChanged(ISSUER, Draft, Active));
    s := TwoMore(live, ContractPausedBy(ISSUER), AssetStatusChanged(ISSUER, Active, Retired));
    Liquidity.TransferTerminalExact(s, INVESTOR, INVESTOR, 1, ContractIsPaused);
  }

  /** An amount of zero is announced as recoverable and never is, from deployment on. */
  lemma ZeroNeverRecovers()
    ensures Reachable(Initial())
    ensures EvaluateTransfer(Initial(), INVESTOR, INVESTOR, 0) == Verdict(AmountNotPositive)
    ensures !IsTerminal(AmountNotPositive) && Liquidity.NeverTransfers(Initial(), INVESTOR, INVESTOR, 0)
  {
    hide Liquidity.NeverTransfers;
    InitialReachable();
    Liquidity.TransferTerminalExact(Initial(), INVESTOR, INVESTOR, 0, AmountNotPositive);
  }

  // ── Authority ─────────────────────────────────────────────────────────

  const SUCCESSOR := Address(3)

  /** A handoff that answers the offer of an earlier admin: ISSUER offers the seat to INVESTOR and
      renounces, SUCCESSOR takes the empty seat, and INVESTOR still accepts. */
  lemma StaleOfferAccepted() returns (s: State)
    ensures Reachable(s)
    ensures s.log == [
              ContractInitialized(ISSUER), AdminTransferInitiated(ISSUER, INVESTOR), AdminRenounced(ISSUER, ISSUER),
              ContractInitialized(SUCCESSOR), AdminTransferred(SUCCESSOR, INVESTOR)]
    ensures s.admin == Some(INVESTOR)
    ensures History.StandingOffer(s.log, 4, 1) && s.log[1].admin != s.log[4].previousAdmin
  {
    InitialReachable();
    var offered := TwoMore(Initial(), ContractInitialized(ISSUER), AdminTransferInitiated(ISSUER, INVESTOR));
    var retaken := TwoMore(offered, AdminRenounced(ISSUER, ISSUER), ContractInitialized(SUCCESSOR));
    var e := AdminTransferred(SUCCESSOR, INVESTOR);
    AuditExact.LegalEventReachable(retaken, e);
    s := AuditTrail.Apply(retaken, e);
  }

  lemma TwoMore(s: State, first: Event, second: Event) returns (t: State)
    requires Reachable(s) && AuditTrail.Legal(s, first) && AuditTrail.Legal(AuditTrail.Apply(s, first), second)
    ensures t == AuditTrail.Apply(AuditTrail.Apply(s, first), second)
    ensures Reachable(t)
  {
    hide AuditTrail.Legal, AuditTrail.Apply;
    AuditExact.LegalEventReachable(s, first);
    t := AuditTrail.Apply(s, first);
    AuditExact.LegalEventReachable(t, second);
    t := AuditTrail.Apply(t, second);
  }

  /** The active admin without the Admin role in the table: it gave itself another one. */
  lemma AdminEntryOverwritten() returns (s: State)
    ensures Reachable(s)
    ensures s.log == [ContractInitialized(ISSUER), RoleAssigned(ISSUER, ISSUER, ComplianceOfficer)]
    ensures s.admin == Some(ISSUER) && s.RoleOf(ISSUER) == ComplianceOfficer
  {
    InitialReachable();
    s := TwoMore(Initial(), ContractInitialized(ISSUER), RoleAssigned(ISSUER, ISSUER, ComplianceOfficer));
  }

  /** Accepting the seat before initialisation fails for want of an offer, with 2001. */
  lemma AcceptanceBeforeInitialisation()
    ensures Reachable(Initial()) && Initial().admin.None?
    ensures Guard(Initial(), By(INVESTOR, AcceptAdmin(INVESTOR))) == Err(NoPendingAdminTransfer)
  {
    InitialReachable();
  }

  lemma InitialReachable()
    ensures Reachable(Initial())
  {
    assert Run(Initial(), []) == Initial();
  }
}
