/** The auditor is exact: a log passes the audit if and only if some sequence of invocations
    produces it. Replaying it rebuilds the whole ledger except for pending proposals that were
    cancelled, because cancelling leaves no event. */
module AuditExact {
  import opened Types
  import opened Storage
  import opened Contract
  import opened AuditTrail
  import opened Invariants
  import AssetOps
  import Caps
  import Config

  // ── Soundness: every run leaves a log that passes ─────────────────────

  predicate SlotMatches(slot: CapSlot, replayed: CapSlot) {
    slot.active == replayed.active && (slot.candidate.None? || slot.candidate == replayed.candidate)
  }

  /** The ledger and its replay agree on everything, up to cancelled proposals. */
  predicate Matches(s: State, r: State) {
    && s == r.(supplyCap := s.supplyCap, holdingCap := s.holdingCap, configCandidate := s.configCandidate)
    && SlotMatches(s.supplyCap, r.supplyCap)
    && SlotMatches(s.holdingCap, r.holdingCap)
    && (s.configCandidate.None? || s.configCandidate == r.configCandidate)
  }

  lemma LegalInReplay(s: State, r: State, e: Event)
    requires Matches(s, r) && Legal(s, e)
    ensures Legal(r, e)
  {
  }

  lemma ApplyInReplay(s: State, r: State, e: Event)
    requires Matches(s, r)
    ensures Matches(Apply(s, e), Apply(r, e))
  {
    hide Apply, Matches;
    if e.CapProposed? || e.CapAmended? {
      ApplyCapInReplay(s, r, e);
    } else if e.ConfigProposed? || e.ConfigAmended? {
      ApplyConfigInReplay(s, r, e);
    } else if TouchesAccess(e) {
      ApplyAccessInReplay(s, r, e);
    } else {
      ApplyOtherInReplay(s, r, e);
    }
  }

  predicate TouchesCandidates(e: Event) {
    e.CapProposed? || e.CapAmended? || e.ConfigProposed? || e.ConfigAmended?
  }

  predicate TouchesAccess(e: Event) {
    || e.ContractInitialized? || e.RoleAssigned? || e.RoleRevoked? || e.AdminTransferInitiated?
    || e.AdminTransferred? || e.AdminRenounced? || e.ContractPausedBy? || e.ContractUnpausedBy?
  }

  lemma ApplyCapInReplay(s: State, r: State, e: Event)
    requires Matches(s, r) && (e.CapProposed? || e.CapAmended?)
    ensures Matches(Apply(s, e), Apply(r, e))
  {
  }

  lemma ApplyConfigInReplay(s: State, r: State, e: Event)
    requires Matches(s, r) && (e.ConfigProposed? || e.ConfigAmended?)
    ensures Matches(Apply(s, e), Apply(r, e))
  {
  }

  lemma ApplyAccessInReplay(s: State, r: State, e: Event)
    requires Matches(s, r) && TouchesAccess(e)
    ensures Matches(Apply(s, e), Apply(r, e))
  {
  }

  lemma ApplyOtherInReplay(s: State, r: State, e: Event)
    requires Matches(s, r) && !TouchesCandidates(e) && !TouchesAccess(e)
    ensures Matches(Apply(s, e), Apply(r, e))
  {
  }

  lemma {:induction false} PlayInReplay(s: State, r: State, es: seq<Event>)
    requires Matches(s, r) && Play(s, es).Some?
    ensures Play(r, es).Some? && Matches(Play(s, es).value, Play(r, es).value)
  {
    hide Legal, Apply, Matches;
    if |es| != 0 {
      var front, last := es[..|es| - 1], es[|es| - 1];
      PlayInReplay(s, r, front);
      var s', r' := Play(s, front).value, Play(r, front).value;
      LegalInReplay(s', r', last);
      ApplyInReplay(s', r', last);
    }
  }

  lemma CapCancelMatches(s: State, r: State, kind: CapKind)
    requires Matches(s, r)
    ensures Matches(Caps.Cancel(s, kind), r) && Caps.Cancel(s, kind).log == s.log
  {
  }

  lemma ConfigCancelMatches(s: State, r: State)
    requires Matches(s, r)
    ensures Matches(Config.Cancel(s), r) && Config.Cancel(s).log == s.log
  {
  }

  predicate Replayable(s: State) {
    Replay(s.log).Some? && Matches(s, Replay(s.log).value)
  }

  lemma StepReplayable(s: State, inv: Invocation)
    requires Replayable(s)
    ensures Replayable(Step(s, inv))
  {
    hide Legal, Apply, Matches, Guard, Effect;
    if Guard(s, inv).Ok? {
      var r := Replay(s.log).value;
      if IsCancel(inv.call) {
        CancelEffect(s, inv);
        if inv.call.CancelCap? {
          CapCancelMatches(s, r, inv.call.kind);
        } else {
          ConfigCancelMatches(s, r);
        }
      } else {
        var es := Announced(s, inv);
        StepEvents(s, inv);
        PlayLog(s, es);
        PlayConcat(Initial(), s.log, es);
        PlayInReplay(s, r, es);
      }
    }
  }

  lemma {:induction false} RunReplayable(s: State, invs: seq<Invocation>)
    requires Replayable(s)
    ensures Replayable(Run(s, invs))
  {
    hide Replayable, Step;
    if |invs| != 0 {
      RunReplayable(s, invs[..|invs| - 1]);
      StepReplayable(Run(s, invs[..|invs| - 1]), invs[|invs| - 1]);
    }
  }

  lemma InitialReplayable()
    ensures Replayable(Initial())
  {
  }

  /** The committed log rebuilds the ledger. */
  lemma LogRebuildsLedger(s: State)
    requires Reachable(s)
    ensures Replay(s.log).Some? && Matches(s, Replay(s.log).value)
  {
    hide Step, Matches, Legal, Apply;
    var invs: seq<Invocation> :| Run(Initial(), invs) == s;
    InitialReplayable();
    RunReplayable(Initial(), invs);
  }

  // ── Completeness: every log that passes is the log of a run ───────────

  /** An invocation that produces the event. */
  function Cause(e: Event): Invocation {
    match e
    case ContractInitialized(a) => Invocation(Initialize(a), {a})
    case RoleAssigned(a, t, role) => Invocation(SetRole(a, t, role), {a})
    case RoleRevoked(a, t, _) => Invocation(RemoveRole(a, t), {a})
    case AdminTransferInitiated(a, c) => Invocation(TransferAdmin(a, c), {a})
    case AdminTransferred(_, n) => Invocation(AcceptAdmin(n), {n})
    case AdminRenounced(p, _) => Invocation(RenounceAdmin(p), {p})
    case ContractPausedBy(c) => Invocation(Pause(c), {c})
    case ContractUnpausedBy(c) => Invocation(Unpause(c), {c})
    case MetadataUpdated(c, m) => Invocation(UpdateAssetMetadata(c, m), {c})
    case AssetMinted(c, to, amount, _) => Invocation(MintAsset(c, to, amount), {c})
    case Transferred(from, to, amount) => Invocation(Transfer(from, to, amount), {from})
    case YieldDistributed(c, amount) => Invocation(DistributeYield(c, amount), {c})
    case AssetStatusChanged(a, _, next) => Invocation(SetAssetStatus(a, next), {a})
    case ComplianceStatusChanged(c, u, _, next) => Invocation(SetComplianceStatus(c, u, next), {c})
    case UserWhitelisted(c, u) => Invocation(WhitelistUser(c, u), {c})
    case WhitelistRevoked(c, u) => Invocation(RevokeWhitelist(c, u), {c})
    case PolicyUpdated(a, _, p) => Invocation(SetIssuerSeparationPolicy(a, p), {a})
    case CapProposed(kind, a, _, cap) => Invocation(ProposeCap(kind, a, cap), {a})
    case CapAmended(kind, a, _, _) => Invocation(AcceptCap(kind, a), {a})
    case ConfigProposed(a, c) => Invocation(ProposeConfig(a, c), {a})
    case ConfigAmended(a, _) => Invocation(AcceptConfig(a), {a})
  }

  predicate Caused(s: State, e: Event) {
    Guard(s, Cause(e)).Ok? && Effect(s, Cause(e)) == Apply(s, e)
  }

  lemma RoleEventCaused(s: State, e: Event)
    requires Legal(s, e) && (e.ContractInitialized? || e.RoleAssigned? || e.RoleRevoked?)
    ensures Caused(s, e)
  {
  }

  lemma AdminEventCaused(s: State, e: Event)
    requires Legal(s, e) && (e.AdminTransferInitiated? || e.AdminTransferred? || e.AdminRenounced?)
    ensures Caused(s, e)
  {
  }

  lemma PauseEventCaused(s: State, e: Event)
    requires Legal(s, e) && (e.ContractPausedBy? || e.ContractUnpausedBy?)
    ensures Caused(s, e)
  {
  }

  lemma MintEventCaused(s: State, e: Event)
    requires Legal(s, e) && e.AssetMinted? && Conserved(s) && AdminRoleIsAdmins(s)
    ensures Caused(s, e)
  {
    hide AssetOps.MintGuard, Conserved;
    ConservedBounds(s, e.to);
    AssetOps.MintGuardIff(s, {e.caller}, e.caller, e.to, e.amount);
  }

  lemma TransferEventCaused(s: State, e: Event)
    requires Legal(s, e) && e.Transferred? && Conserved(s) && CapsSound(s)
    ensures Caused(s, e)
  {
    hide AssetOps.TransferGuard, AssetOps.Transfer, AssetOps.Debited, Conserved, Apply;
    TransferNeverOverflows(s, e.from, e.to, e.amount);
    AssetOps.TransferGuardIff(s, {e.from}, e.from, e.to, e.amount);
    TransferEffect(s, e.from, e.to, e.amount);
  }

  lemma OperationEventCaused(s: State, e: Event)
    requires Legal(s, e) && (e.MetadataUpdated? || e.YieldDistributed? || e.AssetStatusChanged?)
    ensures Caused(s, e)
  {
  }

  lemma ComplianceEventCaused(s: State, e: Event)
    requires Legal(s, e) && (e.ComplianceStatusChanged? || e.UserWhitelisted? || e.WhitelistRevoked?)
    ensures Caused(s, e)
  {
  }

  lemma CapEventCaused(s: State, e: Event)
    requires Legal(s, e) && (e.CapProposed? || e.CapAmended?)
    ensures Caused(s, e)
  {
  }

  lemma PolicyEventCaused(s: State, e: Event)
    requires Legal(s, e) && (e.PolicyUpdated? || e.ConfigProposed? || e.ConfigAmended?)
    ensures Caused(s, e)
  {
  }

  lemma EventCaused(s: State, e: Event)
    requires Inv(s) && Legal(s, e)
    ensures Step(s, Cause(e)) == Apply(s, e)
  {
    hide Legal, Apply, Guard, Effect, Cause, Conserved;
    if e.ContractInitialized? || e.RoleAssigned? || e.RoleRevoked? {
      RoleEventCaused(s, e);
    } else if e.AdminTransferInitiated? || e.AdminTransferred? || e.AdminRenounced? {
      AdminEventCaused(s, e);
    } else if e.ContractPausedBy? || e.ContractUnpausedBy? {
      PauseEventCaused(s, e);
    } else if e.AssetMinted? {
      MintEventCaused(s, e);
    } else if e.Transferred? {
      TransferEventCaused(s, e);
    } else if e.MetadataUpdated? || e.YieldDistributed? || e.AssetStatusChanged? {
      OperationEventCaused(s, e);
    } else if e.ComplianceStatusChanged? || e.UserWhitelisted? || e.WhitelistRevoked? {
      ComplianceEventCaused(s, e);
    } else if e.CapProposed? || e.CapAmended? {
      CapEventCaused(s, e);
    } else {
      PolicyEventCaused(s, e);
    }
  }

  /** One invocation per event reproduces the log and ends in exactly the replayed state. */
  lemma {:induction false} LogHasRun(log: seq<Event>) returns (invs: seq<Invocation>)
    requires Replay(log).Some?
    ensures |invs| == |log|
    ensures Run(Initial(), invs) == Replay(log).value
    ensures Inv(Replay(log).value)
  {
    hide Legal, Apply, Step, Inv;
    InitialInv();
    PlayKeepsInv(Initial(), log);
    if |log| == 0 {
      invs := [];
    } else {
      var front, last := log[..|log| - 1], log[|log| - 1];
      invs := LogHasRun(front);
      EventCaused(Replay(front).value, last);
      RunSnoc(Initial(), invs, Cause(last));
      invs := invs + [Cause(last)];
    }
  }

  lemma LegalEventReachable(s: State, e: Event)
    requires Reachable(s) && Legal(s, e)
    ensures Reachable(Apply(s, e))
  {
    hide Legal, Apply, Step, Inv, Cause;
    ReachableInv(s);
    EventCaused(s, e);
    ReachableStep(s, Cause(e));
  }

  /** The audit accepts exactly the logs the contract can produce. */
  lemma AuditIsExact(log: seq<Event>)
    ensures Replay(log).Some? <==> exists s: State :: Reachable(s) && s.log == log
  {
    hide Legal, Apply, Step, Inv, Matches;
    if Replay(log).Some? {
      var invs := LogHasRun(log);
      var s := Replay(log).value;
      assert Reachable(s);
      PlayLog(Initial(), log);
      assert s.log == log;
    }
    forall s: State | Reachable(s) && s.log == log
      ensures Replay(log).Some?
    {
      LogRebuildsLedger(s);
    }
  }
}
