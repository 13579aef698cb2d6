/** The two-step governance of the caps, told by the successful calls of a run and by its log. */
module Governance {
  import opened Types
  import opened Storage
  import opened Contract
  import opened AuditTrail
  import opened AuditExact
  import opened Frames
  import opened History
  import opened Invariants

  // ── By calls ──────────────────────────────────────────────────────────

  datatype Action<T> = Proposed(value: T) | Accepted | Cancelled

  /** An acceptance or cancellation always directly follows a proposal. */
  predicate Disciplined<T>(acts: seq<Action<T>>) {
    forall k | 0 <= k < |acts| && !acts[k].Proposed? :: k > 0 && acts[k - 1].Proposed?
  }

  /** The proposal still standing. */
  function PendingAfter<T>(acts: seq<Action<T>>): Option<T> {
    if |acts| > 0 && acts[|acts| - 1].Proposed? then Some(acts[|acts| - 1].value) else None
  }

  /** The proposal that the latest acceptance directly follows; `start` before any acceptance. */
  function ActiveAfter<T>(start: T, acts: seq<Action<T>>): T
    requires Disciplined(acts)
  {
    if |acts| == 0 then start
    else
      var last := |acts| - 1;
      assert forall k | 0 <= k < last :: acts[..last][k] == acts[k];
      if acts[last].Accepted? then acts[last - 1].value else ActiveAfter(start, acts[..last])
  }

  lemma Extend<T>(start: T, acts: seq<Action<T>>, a: Action<T>)
    requires Disciplined(acts)
    requires !a.Proposed? ==> PendingAfter(acts).Some?
    ensures var all := acts + [a];
            && Disciplined(all)
            && ActiveAfter(start, all) == (if a.Accepted? then PendingAfter(acts).value else ActiveAfter(start, acts))
            && PendingAfter(all) == (if a.Proposed? then Some(a.value) else None)
  {
    var all := acts + [a];
    assert all[..|acts|] == acts;
    assert Disciplined(all);
  }

  // ── Caps ──────────────────────────────────────────────────────────────

  /** What a successful call did to the cap, if anything. */
  function ActionOf(s: State, inv: Invocation, kind: CapKind): Option<Action<i128>> {
    if !Guard(s, inv).Ok? then None
    else
      match inv.call
      case ProposeCap(k, _, cap) => if k == kind then Some(Proposed(cap)) else None
      case AcceptCap(k, _) => if k == kind then Some(Accepted) else None
      case CancelCap(k, _) => if k == kind then Some(Cancelled) else None
      case _ => None
  }

  function Actions(s: State, invs: seq<Invocation>, kind: CapKind): seq<Action<i128>> {
    if |invs| == 0 then []
    else
      var front := invs[..|invs| - 1];
      var acts := Actions(s, front, kind);
      match ActionOf(Run(s, front), invs[|invs| - 1], kind)
      case None => acts
      case Some(action) => acts + [action]
  }

  lemma ActionStep(s: State, inv: Invocation, kind: CapKind)
    ensures var slot, slot' := s.Slot(kind), Step(s, inv).Slot(kind);
            match ActionOf(s, inv, kind)
            case None => slot' == slot
            case Some(Proposed(cap)) => slot' == CapSlot(slot.active, Some(cap)) && 0 <= cap != slot.active
            case Some(Accepted) => slot.candidate.Some? && slot' == CapSlot(slot.candidate.value, None)
            case Some(Cancelled) => slot.candidate.Some? && slot' == CapSlot(slot.active, None)
  {
    var call := inv.call;
    if !((call.ProposeCap? || call.AcceptCap? || call.CancelCap?) && call.kind == kind) {
      hide Guard, Effect;
      SlotFrame(s, inv, kind);
    }
  }

  /** Over every run: acceptances and cancellations follow proposals, each proposal differs
      from the cap then active, and the active cap is the latest uncancelled proposal before
      the latest acceptance. */
  lemma {:induction false} CapFollowsGovernance(invs: seq<Invocation>, kind: CapKind)
    ensures var acts := Actions(Initial(), invs, kind);
            var slot := Run(Initial(), invs).Slot(kind);
            && Disciplined(acts)
            && slot.active == ActiveAfter(0, acts)
            && slot.candidate == PendingAfter(acts)
            && ProposalsDiffer(acts)
  {
    hide Step, ActionOf;
    if |invs| != 0 {
      var front, last := invs[..|invs| - 1], invs[|invs| - 1];
      CapFollowsGovernance(front, kind);
      var s := Run(Initial(), front);
      ActionStep(s, last, kind);
      var action := ActionOf(s, last, kind);
      if action.Some? {
        Extend(0, Actions(Initial(), front, kind), action.value);
        ExtendDiffer(Actions(Initial(), front, kind), action.value);
      }
    }
  }

  predicate ProposalsDiffer(acts: seq<Action<i128>>)
    requires Disciplined(acts)
  {
    forall k | 0 <= k < |acts| && acts[k].Proposed? ::
      DisciplinedPrefix(acts, k) && 0 <= acts[k].value != ActiveAfter(0, acts[..k])
  }

  predicate DisciplinedPrefix(acts: seq<Action<i128>>, k: nat)
    requires k <= |acts|
  {
    Disciplined(acts[..k])
  }

  lemma ExtendDiffer(acts: seq<Action<i128>>, a: Action<i128>)
    requires Disciplined(acts) && ProposalsDiffer(acts) && Disciplined(acts + [a])
    requires a.Proposed? ==> 0 <= a.value != ActiveAfter(0, acts)
    ensures ProposalsDiffer(acts + [a])
  {
    var all := acts + [a];
    assert all[..|acts|] == acts;
    forall k | 0 <= k < |all| && all[k].Proposed?
      ensures DisciplinedPrefix(all, k) && 0 <= all[k].value != ActiveAfter(0, all[..k])
    {
      if k < |acts| {
        assert all[..k] == acts[..k];
        assert DisciplinedPrefix(acts, k);
      }
    }
  }

  // ── The protocol configuration ────────────────────────────────────────

  function ConfigActionOf(s: State, inv: Invocation): Option<Action<ProtocolConfig>> {
    if !Guard(s, inv).Ok? then None
    else
      match inv.call
      case ProposeConfig(_, config) => Some(Proposed(config))
      case AcceptConfig(_) => Some(Accepted)
      case CancelConfig(_) => Some(Cancelled)
      case _ => None
  }

  function ConfigActions(s: State, invs: seq<Invocation>): seq<Action<ProtocolConfig>> {
    if |invs| == 0 then []
    else
      var front := invs[..|invs| - 1];
      var acts := ConfigActions(s, front);
      match ConfigActionOf(Run(s, front), invs[|invs| - 1])
      case None => acts
      case Some(action) => acts + [action]
  }

  lemma ConfigActionStep(s: State, inv: Invocation)
    ensures var t := Step(s, inv);
            match ConfigActionOf(s, inv)
            case None => t.config == s.config && t.configCandidate == s.configCandidate
            case Some(Proposed(config)) =>
              && t.config == s.config && t.configCandidate == Some(config)
              && config.minTransferAmount >= 0 && config.maxBatchSize > 0
            case Some(Accepted) => s.configCandidate == Some(t.config) && t.configCandidate == None
            case Some(Cancelled) => s.configCandidate.Some? && t.config == s.config && t.configCandidate == None
  {
    if !inv.call.ProposeConfig? && !inv.call.AcceptConfig? && !inv.call.CancelConfig? {
      hide Guard, Effect;
      ConfigFrame(s, inv);
    }
  }

  predicate ProposalsValid(acts: seq<Action<ProtocolConfig>>) {
    forall a | a in acts && a.Proposed? :: a.value.minTransferAmount >= 0 && a.value.maxBatchSize > 0
  }

  /** Over every run: the same for the configuration. A cancelled proposal is never accepted, and
      before any acceptance the configuration is the default of no minimum and 100 rows. */
  lemma {:induction false} ConfigFollowsGovernance(invs: seq<Invocation>)
    ensures var acts := ConfigActions(Initial(), invs);
            var t := Run(Initial(), invs);
            && Disciplined(acts)
            && t.config == ActiveAfter(ProtocolConfig(0, 100), acts)
            && t.configCandidate == PendingAfter(acts)
            && ProposalsValid(acts)
  {
    hide Step, ConfigActionOf;
    if |invs| != 0 {
      var front, last := invs[..|invs| - 1], invs[|invs| - 1];
      ConfigFollowsGovernance(front);
      var s := Run(Initial(), front);
      ConfigActionStep(s, last);
      var action := ConfigActionOf(s, last);
      if action.Some? {
        Extend(ProtocolConfig(0, 100), ConfigActions(Initial(), front), action.value);
      }
    }
  }

  // ── By events ─────────────────────────────────────────────────────────

  predicate IsCapEvent(e: Event, kind: CapKind) {
    (e.CapProposed? || e.CapAmended?) && e.kind == kind
  }

  /** The latest cap event among the first n, or none. */
  predicate LatestCapEvent(log: seq<Event>, n: nat, kind: CapKind, k: nat)
    requires n <= |log|
  {
    k < n && IsCapEvent(log[k], kind) && forall m | k < m < n :: !IsCapEvent(log[m], kind)
  }

  /** The value of the latest amendment, 0 before any. */
  function LatestAmendment(log: seq<Event>, kind: CapKind): i128 {
    if |log| == 0 then 0
    else
      var last := log[|log| - 1];
      if last.CapAmended? && last.kind == kind then last.newCap else LatestAmendment(log[..|log| - 1], kind)
  }

  lemma ApplyActive(s: State, e: Event, kind: CapKind)
    requires Legal(s, e)
    ensures Apply(s, e).Slot(kind).active ==
            if e.CapAmended? && e.kind == kind then e.newCap else s.Slot(kind).active
    ensures !IsCapEvent(e, kind) ==> Apply(s, e).Slot(kind) == s.Slot(kind)
    ensures IsCapEvent(e, kind) ==>
              Apply(s, e).Slot(kind).candidate == if e.CapProposed? then Some(e.proposedCap) else None
  {
    if !IsCapEvent(e, kind) {
      hide Legal, Apply;
      EventLeavesSlot(s, e, kind);
    }
  }

  lemma {:induction false} ReplayedCap(log: seq<Event>, kind: CapKind) returns (k: nat)
    requires Replay(log).Some?
    ensures Replay(log).value.Slot(kind).active == LatestAmendment(log, kind)
    ensures Replay(log).value.Slot(kind).candidate.Some? ==>
              && LatestCapEvent(log, |log|, kind, k)
              && log[k].CapProposed?
              && Some(log[k].proposedCap) == Replay(log).value.Slot(kind).candidate
  {
    hide Legal, Apply;
    k := 0;
    if |log| != 0 {
      var front, last := log[..|log| - 1], log[|log| - 1];
      k := ReplayedCap(front, kind);
      ApplyActive(Replay(front).value, last, kind);
      if IsCapEvent(last, kind) {
        k := |log| - 1;
      } else {
        assert forall m | 0 <= m < |front| :: log[m] == front[m];
      }
    }
  }

  lemma AmendmentIsLegal(s: State, e: Event)
    requires Legal(s, e) && e.CapAmended?
    ensures s.Slot(e.kind) == CapSlot(e.previousCap, Some(e.newCap))
  {
  }

  /** Amendments chain: each starts from the value of the one before, changes it, and takes
      the value of the latest proposal, which is also the cap event directly before it. */
  lemma AmendmentsChain(s: State, j: nat) returns (k: nat)
    requires Reachable(s) && j < |s.log| && s.log[j].CapAmended?
    ensures s.log[j].previousCap == LatestAmendment(s.log[..j], s.log[j].kind)
    ensures s.log[j].newCap != s.log[j].previousCap
    ensures LatestCapEvent(s.log, j, s.log[j].kind, k)
    ensures s.log[k].CapProposed? && s.log[k].proposedCap == s.log[j].newCap
  {
    hide Legal, Apply, Step, Matches, Conserved, AdminRoleIsAdmins, ComplianceSound;
    LogRebuildsLedger(s);
    PrefixAudited(s.log, j);
    AmendmentIsLegal(Replay(s.log[..j]).value, s.log[j]);
    ReplayInv(s.log[..j]);
    k := ReplayedCap(s.log[..j], s.log[j].kind);
    assert forall m | 0 <= m < j :: s.log[..j][m] == s.log[m];
  }

  /** The active cap is the latest amendment. */
  lemma ActiveCapIsLatestAmendment(s: State, kind: CapKind)
    requires Reachable(s)
    ensures s.Slot(kind).active == LatestAmendment(s.log, kind)
  {
    hide Legal, Apply, Step;
    LogRebuildsLedger(s);
    var _ := ReplayedCap(s.log, kind);
  }

  /** Why the log cannot tell pending proposals: cancelling one leaves the log as it was, so
      two reachable ledgers with the same log differ. */
  lemma CancellationIsSilent(s: State, kind: CapKind, admin: Address)
    requires Reachable(s) && !s.paused && s.admin == Some(admin) && s.Slot(kind).candidate.Some?
    ensures var t := Step(s, Invocation(CancelCap(kind, admin), {admin}));
            Reachable(t) && t.log == s.log && t.Slot(kind) == CapSlot(s.Slot(kind).active, None)
  {
    ReachableStep(s, Invocation(CancelCap(kind, admin), {admin}));
  }
}
