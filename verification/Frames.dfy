/** What a single step leaves alone. */
module Frames {
  import opened Types
  import opened Storage
  import opened Contract
  import opened AuditTrail
  import AssetOps
  import Compliance
  import Invariants

  predicate IsComplianceCall(call: Call) {
    call.SetComplianceStatus? || call.BatchSetComplianceStatus? || call.WhitelistUser? || call.RevokeWhitelist?
  }

  lemma LegacyFrame(s: State, admin: Address, user: Address)
    ensures SameButCompliance(s, Compliance.WhitelistUser(s, admin, user))
    ensures SameButCompliance(s, Compliance.RevokeWhitelist(s, admin, user))
  {
  }

  lemma ComplianceEffect(s: State, inv: Invocation)
    requires Guard(s, inv).Ok? && IsComplianceCall(inv.call)
    ensures Effect(s, inv) ==
            if inv.call.SetComplianceStatus? then
              Compliance.ApplyTransition(s, inv.call.caller, inv.call.user, s.StatusOf(inv.call.user), inv.call.status)
            else if inv.call.BatchSetComplianceStatus? then
              Compliance.ApplyBatch(s, inv.call.caller, inv.call.updates)
            else if inv.call.WhitelistUser? then Compliance.WhitelistUser(s, inv.call.admin, inv.call.user)
            else Compliance.RevokeWhitelist(s, inv.call.admin, inv.call.user)
  {
  }

  /** A compliance call, committed or not, changes compliance entries and the log only. */
  lemma ComplianceStepFrame(s: State, inv: Invocation)
    requires IsComplianceCall(inv.call)
    ensures SameButCompliance(s, Step(s, inv))
  {
    hide Guard, Effect;
    if Guard(s, inv).Ok? {
      ComplianceEffect(s, inv);
      var call := inv.call;
      if call.SetComplianceStatus? {
        TransitionFrame(s, call.caller, call.user, s.StatusOf(call.user), call.status);
      } else if call.BatchSetComplianceStatus? {
        BatchFrame(s, call.caller, call.updates);
      } else {
        LegacyFrame(s, call.admin, call.user);
      }
    }
  }

  lemma CancelStepFrame(s: State, inv: Invocation)
    requires IsCancel(inv.call)
    ensures var t := Step(s, inv);
            t == s.(supplyCap := t.supplyCap, holdingCap := t.holdingCap, configCandidate := t.configCandidate)
    ensures var t := Step(s, inv);
            t.supplyCap.active == s.supplyCap.active && t.holdingCap.active == s.holdingCap.active
  {
    hide Guard, Effect;
    if Guard(s, inv).Ok? {
      CancelEffect(s, inv);
    }
  }

  /** Only a mint or a transfer touches balances and supply. */
  lemma BalancesFrame(s: State, inv: Invocation)
    requires !inv.call.MintAsset? && !inv.call.Transfer?
    ensures Step(s, inv).balances == s.balances && Step(s, inv).totalSupply == s.totalSupply
  {
    hide Guard, Effect, SingleEvent, Apply, Legal;
    if Guard(s, inv).Ok? {
      if IsCancel(inv.call) {
        CancelStepFrame(s, inv);
      } else if IsComplianceCall(inv.call) {
        ComplianceStepFrame(s, inv);
      } else {
        SingleEventIsLegal(s, inv);
        SingleEventKind(s, inv);
        Invariants.EventLeavesBalances(s, SingleEvent(s, inv));
      }
    }
  }

  lemma SingleEventKind(s: State, inv: Invocation)
    requires Guard(s, inv).Ok? && EmitsOne(inv.call)
    ensures var e := SingleEvent(s, inv);
            && (e.AssetMinted? <==> inv.call.MintAsset?)
            && (e.Transferred? <==> inv.call.Transfer?)
            && (e.AssetStatusChanged? <==> inv.call.SetAssetStatus?)
            && (e.CapProposed? <==> inv.call.ProposeCap?)
            && (e.CapAmended? <==> inv.call.AcceptCap?)
            && (e.ConfigProposed? <==> inv.call.ProposeConfig?)
            && (e.ConfigAmended? <==> inv.call.AcceptConfig?)
            && (e.CapProposed? || e.CapAmended? ==> e.kind == inv.call.kind)
  {
  }

  lemma EventLeavesAssetStatus(s: State, e: Event)
    requires !e.AssetStatusChanged?
    ensures Apply(s, e).assetStatus == s.assetStatus
  {
  }

  lemma AssetStatusFrame(s: State, inv: Invocation)
    requires !inv.call.SetAssetStatus?
    ensures Step(s, inv).assetStatus == s.assetStatus
  {
    hide Guard, Effect, SingleEvent, Apply, Legal;
    if Guard(s, inv).Ok? {
      if IsCancel(inv.call) {
        CancelStepFrame(s, inv);
      } else if IsComplianceCall(inv.call) {
        ComplianceStepFrame(s, inv);
      } else {
        SingleEventIsLegal(s, inv);
        SingleEventKind(s, inv);
        EventLeavesAssetStatus(s, SingleEvent(s, inv));
      }
    }
  }

  lemma SlotFrame(s: State, inv: Invocation, kind: CapKind)
    requires (inv.call.ProposeCap? || inv.call.AcceptCap? || inv.call.CancelCap?) ==> inv.call.kind != kind
    ensures Step(s, inv).Slot(kind) == s.Slot(kind)
  {
    hide Guard, Effect, SingleEvent, Apply, Legal;
    if Guard(s, inv).Ok? {
      if IsCancel(inv.call) {
        CancelEffect(s, inv);
      } else if IsComplianceCall(inv.call) {
        ComplianceStepFrame(s, inv);
      } else {
        SingleEventIsLegal(s, inv);
        SingleEventKind(s, inv);
        Invariants.EventLeavesSlot(s, SingleEvent(s, inv), kind);
      }
    }
  }

  lemma EventLeavesConfig(s: State, e: Event)
    requires !e.ConfigProposed? && !e.ConfigAmended?
    ensures Apply(s, e).config == s.config && Apply(s, e).configCandidate == s.configCandidate
  {
  }

  lemma ConfigFrame(s: State, inv: Invocation)
    requires !inv.call.ProposeConfig? && !inv.call.AcceptConfig? && !inv.call.CancelConfig?
    ensures Step(s, inv).config == s.config && Step(s, inv).configCandidate == s.configCandidate
  {
    hide Guard, Effect, SingleEvent, Apply, Legal;
    if Guard(s, inv).Ok? {
      if IsCancel(inv.call) {
        CancelEffect(s, inv);
      } else if IsComplianceCall(inv.call) {
        ComplianceStepFrame(s, inv);
      } else {
        SingleEventIsLegal(s, inv);
        SingleEventKind(s, inv);
        EventLeavesConfig(s, SingleEvent(s, inv));
      }
    }
  }

  lemma MintStep(s: State, inv: Invocation)
    requires inv.call.MintAsset?
    ensures Step(s, inv) ==
            if AssetOps.MintGuard(s, inv.signers, inv.call.admin, inv.call.to, inv.call.amount).Ok?
            then AssetOps.Mint(s, inv.call.admin, inv.call.to, inv.call.amount) else s
  {
    hide AssetOps.MintGuard;
  }

  lemma TransferStep(s: State, inv: Invocation)
    requires inv.call.Transfer?
    ensures Step(s, inv) ==
            if AssetOps.TransferGuard(s, inv.signers, inv.call.from, inv.call.to, inv.call.amount).Ok?
            then AssetOps.Transfer(s, inv.call.from, inv.call.to, inv.call.amount) else s
  {
    hide AssetOps.TransferGuard;
  }
}
