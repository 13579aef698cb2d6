/** What the event log alone proves about the past of a reachable state. The state at an
    earlier point is what replaying that prefix of the log gives. */
module History {
  import opened Types
  import opened Storage
  import opened Contract
  import opened TransitionGuards
  import opened AuditTrail
  import opened AuditExact
  import opened Invariants

  /** Every prefix of an audited log is audited, and its next event was legal there. */
  lemma {:induction false} PrefixAudited(log: seq<Event>, k: nat)
    requires Replay(log).Some? && k <= |log|
    ensures Replay(log[..k]).Some?
    ensures k < |log| ==>
              && Legal(Replay(log[..k]).value, log[k])
              && Replay(log[..k + 1]) == Some(Apply(Replay(log[..k]).value, log[k]))
  {
    hide Legal, Apply;
    if k == |log| {
      assert log[..k] == log;
    } else {
      var front := log[..|log| - 1];
      if k == |log| - 1 {
        assert log[..k + 1] == log;
      } else {
        PrefixAudited(front, k);
        assert front[..k] == log[..k] && front[..k + 1] == log[..k + 1];
      }
    }
  }

  // ── Approvals and four eyes ───────────────────────────────────────────

  predicate IsApproval(e: Event, u: Address) {
    e.ComplianceStatusChanged? && e.user == u && e.newStatus == Approved
  }

  /** Event k is the latest approval of u among the first n events. */
  predicate LatestApproval(log: seq<Event>, n: nat, u: Address, k: nat)
    requires n <= |log|
  {
    k < n && IsApproval(log[k], u) && forall m | k < m < n :: !IsApproval(log[m], u)
  }

  lemma ApplyApprover(s: State, e: Event, u: Address)
    ensures var t := Apply(s, e);
            if IsApproval(e, u) then u in t.approvers && t.approvers[u] == e.caller
            else (u in t.approvers <==> u in s.approvers) && (u in s.approvers ==> t.approvers[u] == s.approvers[u])
  {
    if !e.ComplianceStatusChanged? {
      hide Apply;
      EventLeavesCompliance(s, e);
    }
  }

  /** The approver record is the caller of the latest approval. */
  lemma {:induction false} ApproverIsLatest(log: seq<Event>, u: Address) returns (k: nat)
    requires Replay(log).Some? && u in Replay(log).value.approvers
    ensures LatestApproval(log, |log|, u, k)
    ensures log[k].caller == Replay(log).value.approvers[u]
  {
    hide Legal, Apply;
    if |log| == 0 {
      assert false;
    } else {
      var front, last := log[..|log| - 1], log[|log| - 1];
      ApplyApprover(Replay(front).value, last, u);
      if IsApproval(last, u) {
        k := |log| - 1;
      } else {
        k := ApproverIsLatest(front, u);
        assert log[k] == front[k];
        assert forall m | k < m < |front| :: log[m] == front[m];
      }
    }
  }

  lemma MintIsIndependent(s: State, e: Event)
    requires Legal(s, e) && e.AssetMinted?
    ensures s.StatusOf(e.to) == Approved
    ensures s.policy.enforced && s.policy.requireIndependentApprover && e.to in s.approvers ==>
              s.approvers[e.to] != e.caller
  {
  }

  /** Every committed mint was preceded by an approval of its recipient; and if the policy
      then demanded an independent approver, the latest one was by somebody else. */
  lemma FourEyes(s: State, j: nat) returns (k: nat)
    requires Reachable(s) && j < |s.log| && s.log[j].AssetMinted?
    ensures LatestApproval(s.log, j, s.log[j].to, k)
    ensures Replay(s.log[..j]).Some?
    ensures var policy := Replay(s.log[..j]).value.policy;
            policy.enforced && policy.requireIndependentApprover ==> s.log[k].caller != s.log[j].caller
  {
    hide Legal, Apply, Step, Inv, Matches;
    LogRebuildsLedger(s);
    PrefixAudited(s.log, j);
    var p := Replay(s.log[..j]).value;
    var u := s.log[j].to;
    MintIsIndependent(p, s.log[j]);
    ReplayInv(s.log[..j]);
    ApprovedHasApprover(p, u);
    k := ApproverIsLatest(s.log[..j], u);
    assert forall m | 0 <= m < j :: s.log[..j][m] == s.log[m];
  }

  predicate MintFollowsRules(p: State, e: Event)
    requires e.AssetMinted?
  {
    && !p.paused && p.assetStatus == Active && p.StatusOf(e.to) == Approved && e.amount > 0
    && (p.admin == Some(e.caller) || p.RoleOf(e.caller) == AssetManager)
    && (p.policy.enforced && !p.policy.allowDualDutyIssuance ==> p.admin != Some(e.caller))
    && (p.policy.enforced && !p.policy.allowSelfIssuance ==> e.caller != e.to)
    && e.totalSupply == p.totalSupply + e.amount <= I128_MAX
    && (p.supplyCap.active > 0 ==> e.totalSupply <= p.supplyCap.active)
    && (p.holdingCap.active > 0 ==> p.BalanceOf(e.to) + e.amount <= p.holdingCap.active)
  }

  lemma LegalMint(p: State, e: Event)
    requires Legal(p, e) && e.AssetMinted?
    ensures MintFollowsRules(p, e)
  {
  }

  /** Every mint in the log obeyed every control in force at its point of the log. */
  lemma MintsFollowRules(s: State, j: nat)
    requires Reachable(s) && j < |s.log| && s.log[j].AssetMinted?
    ensures Replay(s.log[..j]).Some? && MintFollowsRules(Replay(s.log[..j]).value, s.log[j])
  {
    hide Legal, Apply, Step, Matches, MintFollowsRules;
    LogRebuildsLedger(s);
    PrefixAudited(s.log, j);
    LegalMint(Replay(s.log[..j]).value, s.log[j]);
  }

  lemma LegalLegacy(p: State, e: Event)
    requires Legal(p, e)
    ensures e.UserWhitelisted? ==> p.StatusOf(e.user) == Approved
    ensures e.WhitelistRevoked? ==> p.StatusOf(e.user) != Approved
  {
  }

  /** The legacy events tell the truth when they are emitted: the address then is, or is not,
      Approved, whether or not the call moved it. */
  lemma LegacyEventsAreTruthful(s: State, j: nat)
    requires Reachable(s) && j < |s.log|
    ensures Replay(s.log[..j]).Some?
    ensures s.log[j].UserWhitelisted? ==> Replay(s.log[..j]).value.StatusOf(s.log[j].user) == Approved
    ensures s.log[j].WhitelistRevoked? ==> Replay(s.log[..j]).value.StatusOf(s.log[j].user) != Approved
  {
    hide Legal, Apply, Step, Matches;
    LogRebuildsLedger(s);
    PrefixAudited(s.log, j);
    LegalLegacy(Replay(s.log[..j]).value, s.log[j]);
  }

  lemma ReplayInv(log: seq<Event>)
    requires Replay(log).Some?
    ensures Inv(Replay(log).value)
  {
    hide Legal, Apply, Inv;
    InitialInv();
    PlayKeepsInv(Initial(), log);
  }

  lemma ApprovedHasApprover(s: State, u: Address)
    requires Inv(s) && s.StatusOf(u) == Approved
    ensures u in s.approvers
  {
    hide Conserved, AdminRoleIsAdmins;
  }

  // ── Quarantine ────────────────────────────────────────────────────────

  predicate Moves(e: Event, u: Address) {
    e.ComplianceStatusChanged? && e.user == u
  }

  /** A release from quarantine: Blocked to Pending by whoever was admin at that point. */
  predicate Release(log: seq<Event>, k: nat, u: Address)
    requires k < |log|
  {
    && Moves(log[k], u)
    && log[k].previousStatus == ComplianceStatus.Blocked
    && log[k].newStatus == ComplianceStatus.Pending
    && Replay(log[..k]).Some?
    && Replay(log[..k]).value.admin == Some(log[k].caller)
  }

  lemma ApplyStatus(s: State, e: Event, u: Address)
    ensures Apply(s, e).StatusOf(u) == if Moves(e, u) then e.newStatus else s.StatusOf(u)
  {
    if !e.ComplianceStatusChanged? {
      hide Apply;
      EventLeavesCompliance(s, e);
    }
  }

  lemma MoveIsOnMatrix(s: State, e: Event, u: Address)
    requires Legal(s, e) && Moves(e, u)
    ensures e.previousStatus == s.StatusOf(u)
    ensures TransitionIsAllowed(e.previousStatus, e.newStatus)
    ensures e.previousStatus == ComplianceStatus.Blocked ==>
              e.newStatus == ComplianceStatus.Pending && s.admin == Some(e.caller)
  {
  }

  /** Whoever was Blocked after event i and is not Blocked after n events was released. */
  lemma {:induction false} ReleasedBetween(log: seq<Event>, i: nat, n: nat, u: Address) returns (k: nat)
    requires Replay(log).Some? && i < n <= |log|
    requires Moves(log[i], u) && log[i].newStatus == ComplianceStatus.Blocked
    requires Replay(log[..n]).Some? && Replay(log[..n]).value.StatusOf(u) != ComplianceStatus.Blocked
    ensures i < k < n && Release(log, k, u)
    decreases n
  {
    hide Legal, Apply;
    PrefixAudited(log, n - 1);
    var p := Replay(log[..n - 1]).value;
    ApplyStatus(p, log[n - 1], u);
    if n - 1 == i {
      assert false;
    } else if Moves(log[n - 1], u) && p.StatusOf(u) == ComplianceStatus.Blocked {
      MoveIsOnMatrix(p, log[n - 1], u);
      k := n - 1;
    } else {
      k := ReleasedBetween(log, i, n - 1, u);
    }
  }

  /** Between entering Blocked and any later approval, through whichever entry point, the
      admin of the time moved the address back into review. */
  lemma Quarantine(s: State, i: nat, j: nat, u: Address) returns (k: nat)
    requires Reachable(s) && i < j < |s.log|
    requires Moves(s.log[i], u) && s.log[i].newStatus == ComplianceStatus.Blocked
    requires IsApproval(s.log[j], u)
    ensures i < k < j && Release(s.log, k, u)
  {
    hide Legal, Apply, Step, Matches;
    LogRebuildsLedger(s);
    PrefixAudited(s.log, j);
    MoveIsOnMatrix(Replay(s.log[..j]).value, s.log[j], u);
    k := ReleasedBetween(s.log, i, j, u);
  }

  /** Compliance history forms a chain from Unknown along the matrix: each change starts where
      the previous change of the same address ended, and Unknown is never returned to. */
  lemma StatusChain(s: State, j: nat, u: Address)
    requires Reachable(s) && j < |s.log| && Moves(s.log[j], u)
    ensures TransitionIsAllowed(s.log[j].previousStatus, s.log[j].newStatus)
    ensures s.log[j].newStatus != Unknown
    ensures (forall m | 0 <= m < j :: !Moves(s.log[m], u)) ==> s.log[j].previousStatus == Unknown
    ensures forall i | 0 <= i < j && Moves(s.log[i], u) && (forall m | i < m < j :: !Moves(s.log[m], u)) ::
              s.log[j].previousStatus == s.log[i].newStatus
  {
    hide Legal, Apply, Step, Matches;
    LogRebuildsLedger(s);
    PrefixAudited(s.log, j);
    MoveIsOnMatrix(Replay(s.log[..j]).value, s.log[j], u);
    if forall m | 0 <= m < j :: !Moves(s.log[m], u) {
      StatusUnmoved(s.log, 0, j, u);
      assert s.log[..0] == [];
    }
    forall i | 0 <= i < j && Moves(s.log[i], u) && (forall m | i < m < j :: !Moves(s.log[m], u))
      ensures s.log[j].previousStatus == s.log[i].newStatus
    {
      PrefixAudited(s.log, i);
      ApplyStatus(Replay(s.log[..i]).value, s.log[i], u);
      StatusUnmoved(s.log, i + 1, j, u);
    }
  }

  lemma {:induction false} StatusUnmoved(log: seq<Event>, i: nat, j: nat, u: Address)
    requires Replay(log).Some? && i <= j <= |log|
    requires forall m | i <= m < j :: !Moves(log[m], u)
    ensures Replay(log[..i]).Some? && Replay(log[..j]).Some?
    ensures Replay(log[..j]).value.StatusOf(u) == Replay(log[..i]).value.StatusOf(u)
    decreases j
  {
    hide Legal, Apply;
    PrefixAudited(log, i);
    if i < j {
      StatusUnmoved(log, i, j - 1, u);
      PrefixAudited(log, j - 1);
      ApplyStatus(Replay(log[..j - 1]).value, log[j - 1], u);
    }
  }

  // ── Conservation told by the events ───────────────────────────────────

  function Flow(e: Event, u: Address): int {
    match e
    case AssetMinted(_, to, amount, _) => if to == u then amount else 0
    case Transferred(from, to, amount) => (if to == u then amount else 0) - (if from == u then amount else 0)
    case _ => 0
  }

  /** Minted to u plus received by u minus sent by u. */
  function NetFlow(log: seq<Event>, u: Address): int {
    if |log| == 0 then 0 else NetFlow(log[..|log| - 1], u) + Flow(log[|log| - 1], u)
  }

  function Issued(log: seq<Event>): int {
    if |log| == 0 then 0
    else Issued(log[..|log| - 1]) + (if log[|log| - 1].AssetMinted? then log[|log| - 1].amount else 0)
  }

  lemma ApplyFlow(s: State, e: Event, u: Address)
    requires Legal(s, e)
    ensures Apply(s, e).BalanceOf(u) == s.BalanceOf(u) + Flow(e, u)
    ensures Apply(s, e).totalSupply == s.totalSupply + (if e.AssetMinted? then e.amount else 0)
  {
    if !e.AssetMinted? && !e.Transferred? {
      hide Legal, Apply;
      EventLeavesBalances(s, e);
    }
  }

  lemma {:induction false} ReplayFlows(log: seq<Event>, u: Address)
    requires Replay(log).Some?
    ensures Replay(log).value.BalanceOf(u) == NetFlow(log, u)
    ensures Replay(log).value.totalSupply == Issued(log)
  {
    hide Legal, Apply, Flow;
    if |log| != 0 {
      var front, last := log[..|log| - 1], log[|log| - 1];
      ReplayFlows(front, u);
      ApplyFlow(Replay(front).value, last, u);
    }
  }

  /** A balance is the net flow of its committed events, the supply is what was minted. */
  lemma BalancesFromEvents(s: State, u: Address)
    requires Reachable(s)
    ensures s.BalanceOf(u) == NetFlow(s.log, u)
    ensures s.totalSupply == Issued(s.log)
  {
    hide Legal, Apply, Step, NetFlow;
    LogRebuildsLedger(s);
    ReplayFlows(s.log, u);
  }

  // ── Initialisation ────────────────────────────────────────────────────

  function Initialisations(log: seq<Event>): nat {
    if |log| == 0 then 0
    else Initialisations(log[..|log| - 1]) + (if log[|log| - 1].ContractInitialized? then 1 else 0)
  }

  function Renunciations(log: seq<Event>): nat {
    if |log| == 0 then 0
    else Renunciations(log[..|log| - 1]) + (if log[|log| - 1].AdminRenounced? then 1 else 0)
  }

  function Tenure(s: State): nat {
    if s.admin.Some? then 1 else 0
  }

  lemma ApplyTenure(s: State, e: Event)
    requires Legal(s, e)
    ensures Tenure(Apply(s, e)) ==
            Tenure(s) + (if e.ContractInitialized? then 1 else 0) - (if e.AdminRenounced? then 1 else 0)
  {
  }

  lemma {:induction false} ReplayTenure(log: seq<Event>)
    requires Replay(log).Some?
    ensures Initialisations(log) == Renunciations(log) + Tenure(Replay(log).value)
  {
    hide Legal, Apply;
    if |log| != 0 {
      var front, last := log[..|log| - 1], log[|log| - 1];
      ReplayTenure(front);
      ApplyTenure(Replay(front).value, last);
    }
  }

  /** Initialisation is documented to happen exactly once. Every renunciation makes room for
      one more: the contract has been initialised once for each renunciation, and once more
      if it has an admin now. */
  lemma InitialisedOncePerRenunciation(s: State)
    requires Reachable(s)
    ensures Initialisations(s.log) == Renunciations(s.log) + Tenure(s)
  {
    hide Legal, Apply, Step, Initialisations, Renunciations;
    LogRebuildsLedger(s);
    ReplayTenure(s.log);
  }

  // ── Succession of admins ──────────────────────────────────────────────

  predicate Seats(e: Event) {
    e.ContractInitialized? || e.AdminTransferred? || e.AdminRenounced?
  }

  /** The admin as the three seat-changing events alone tell it. */
  function AdminAfter(log: seq<Event>): Option<Address> {
    if |log| == 0 then None
    else
      match log[|log| - 1]
      case ContractInitialized(a) => Some(a)
      case AdminTransferred(_, n) => Some(n)
      case AdminRenounced(_, _) => None
      case _ => AdminAfter(log[..|log| - 1])
  }

  predicate TouchesOffer(e: Event) {
    e.AdminTransferInitiated? || e.AdminTransferred?
  }

  /** Event k is the offer standing after the first n events. */
  predicate StandingOffer(log: seq<Event>, n: nat, k: nat)
    requires n <= |log|
  {
    k < n && log[k].AdminTransferInitiated? && forall m | k < m < n :: !TouchesOffer(log[m])
  }

  lemma ApplySeat(s: State, e: Event)
    ensures !Seats(e) ==> Apply(s, e).admin == s.admin
    ensures Seats(e) ==>
              Apply(s, e).admin ==
              if e.AdminRenounced? then None else if e.AdminTransferred? then Some(e.newAdmin) else Some(e.admin)
    ensures Apply(s, e).adminCandidate ==
            if e.AdminTransferInitiated? then Some(e.candidate)
            else if e.AdminTransferred? then None
            else s.adminCandidate
  {
  }

  lemma {:induction false} ReplayedSeat(log: seq<Event>) returns (k: nat)
    requires Replay(log).Some?
    ensures Replay(log).value.admin == AdminAfter(log)
    ensures Replay(log).value.adminCandidate.Some? ==>
              && StandingOffer(log, |log|, k)
              && Some(log[k].candidate) == Replay(log).value.adminCandidate
  {
    hide Legal, Apply;
    k := 0;
    if |log| != 0 {
      var front, last := log[..|log| - 1], log[|log| - 1];
      k := ReplayedSeat(front);
      ApplySeat(Replay(front).value, last);
      if last.AdminTransferInitiated? {
        k := |log| - 1;
      } else {
        assert forall m | 0 <= m < |front| :: log[m] == front[m];
      }
    }
  }

  /** The admin lifecycle events are a complete trail: they alone determine the admin. */
  lemma AdminFromEvents(s: State)
    requires Reachable(s)
    ensures s.admin == AdminAfter(s.log)
  {
    hide Legal, Apply, Step, AdminAfter;
    LogRebuildsLedger(s);
    var _ := ReplayedSeat(s.log);
  }

  /** An admin seated at j who was not seated since i was seated at i already: a renunciation in
      between would have left the seat empty. */
  lemma {:induction false} SeatedSince(log: seq<Event>, i: nat, j: nat)
    requires i <= j <= |log| && AdminAfter(log[..j]).Some?
    requires forall m | i <= m < j :: !log[m].ContractInitialized? && !log[m].AdminTransferred?
    ensures AdminAfter(log[..i]) == AdminAfter(log[..j])
    decreases j
  {
    if i < j {
      assert log[..j][..j - 1] == log[..j - 1];
      SeatedSince(log, i, j - 1);
    }
  }

  predicate LastInitialisation(log: seq<Event>, k: nat, j: nat, m: int)
    requires j <= |log|
  {
    k < m < j && log[m].ContractInitialized? && forall n | m < n < j :: !log[n].ContractInitialized?
  }

  lemma {:induction false} FindLastInitialisation(log: seq<Event>, k: nat, j: nat) returns (m: Option<nat>)
    requires k < j <= |log|
    ensures m.Some? ==> LastInitialisation(log, k, j, m.value)
    ensures m.None? ==> forall n | k < n < j :: !log[n].ContractInitialized?
    decreases j
  {
    m := None;
    if k < j - 1 {
      if log[j - 1].ContractInitialized? {
        m := Some(j - 1);
      } else {
        m := FindLastInitialisation(log, k, j - 1);
      }
    }
  }

  /** Whose offer a handoff answers: the outgoing admin's own, unless somebody else took an
      emptied seat after the offer was made. */
  lemma OfferOwner(log: seq<Event>, k: nat, j: nat)
    requires j < |log| && StandingOffer(log, j, k) && log[j].AdminTransferred?
    requires AdminAfter(log[..k]) == Some(log[k].admin)
    requires AdminAfter(log[..j]) == Some(log[j].previousAdmin)
    ensures log[k].admin == log[j].previousAdmin <==>
            forall m | LastInitialisation(log, k, j, m) :: log[m].admin == log[k].admin
  {
    hide AdminAfter;
    var last := FindLastInitialisation(log, k, j);
    match last {
      case Some(m) =>
        SeatedSince(log, m + 1, j);
        assert AdminAfter(log[..m + 1]) == Some(log[m].admin) by {
          InitialisationSeats(log, m);
        }
      case None =>
        SeatedSince(log, k, j);
    }
  }

  lemma InitialisationSeats(log: seq<Event>, m: nat)
    requires m < |log| && log[m].ContractInitialized?
    ensures AdminAfter(log[..m + 1]) == Some(log[m].admin)
  {
  }

  lemma OfferIsLegal(s: State, e: Event)
    requires Legal(s, e)
    ensures e.AdminTransferInitiated? ==> s.admin == Some(e.admin)
    ensures e.AdminTransferred? ==> s.admin == Some(e.previousAdmin) && s.adminCandidate == Some(e.newAdmin)
  {
  }

  /** Every handoff answers the standing offer, which the admin of that time made to exactly
      the new admin. Renouncing does not withdraw it: the offer is the outgoing admin's own iff
      nobody else was the last to take an emptied seat after it was made. */
  lemma HandoffWasOffered(s: State, j: nat) returns (k: nat)
    requires Reachable(s) && j < |s.log| && s.log[j].AdminTransferred?
    ensures StandingOffer(s.log, j, k) && s.log[k].candidate == s.log[j].newAdmin
    ensures AdminAfter(s.log[..k]) == Some(s.log[k].admin)
    ensures AdminAfter(s.log[..j]) == Some(s.log[j].previousAdmin)
    ensures s.log[k].admin == s.log[j].previousAdmin <==>
            forall m | LastInitialisation(s.log, k, j, m) :: s.log[m].admin == s.log[k].admin
    ensures (forall m | k < m < j :: !s.log[m].AdminRenounced?) ==> s.log[k].admin == s.log[j].previousAdmin
  {
    hide Legal, Apply, Step, Matches, AdminAfter;
    LogRebuildsLedger(s);
    PrefixAudited(s.log, j);
    k := ReplayedSeat(s.log[..j]);
    OfferIsLegal(Replay(s.log[..j]).value, s.log[j]);
    assert forall m | 0 <= m < j :: s.log[..j][m] == s.log[m];
    PrefixAudited(s.log, k);
    var _ := ReplayedSeat(s.log[..k]);
    OfferIsLegal(Replay(s.log[..k]).value, s.log[k]);
    OfferOwner(s.log, k, j);
    if forall m | k < m < j :: !s.log[m].AdminRenounced? {
      NoNewInitialisation(s.log, k, j);
    }
  }

  /** With an admin seated at i, only a renunciation makes room for an initialisation. */
  lemma {:induction false} NoNewInitialisation(log: seq<Event>, i: nat, j: nat)
    requires Replay(log).Some? && i < j <= |log|
    requires AdminAfter(log[..i]).Some?
    requires forall m | i <= m < j :: !log[m].AdminRenounced?
    ensures AdminAfter(log[..j]).Some?
    ensures forall m | i <= m < j :: !log[m].ContractInitialized?
    decreases j
  {
    hide Legal, Apply;
    if i < j - 1 {
      NoNewInitialisation(log, i, j - 1);
    }
    PrefixAudited(log, j - 1);
    var _ := ReplayedSeat(log[..j - 1]);
    assert log[..j][..j - 1] == log[..j - 1];
    if log[j - 1].ContractInitialized? {
      InitialisationNeedsNoAdmin(Replay(log[..j - 1]).value, log[j - 1]);
      assert false;
    }
  }

  lemma InitialisationNeedsNoAdmin(s: State, e: Event)
    requires Legal(s, e) && e.ContractInitialized?
    ensures s.admin.None?
  {
  }

  // ── The admin's own table entry ───────────────────────────────────────

  predicate LatestSeat(log: seq<Event>, m: nat) {
    m < |log| && Seats(log[m]) && forall n | m < n < |log| :: !Seats(log[n])
  }

  /** A role call aimed at the address. */
  predicate Retables(e: Event, a: Address) {
    (e.RoleAssigned? || e.RoleRevoked?) && e.target == a
  }

  lemma EventLeavesRoles(s: State, e: Event)
    requires !Seats(e) && !e.RoleAssigned? && !e.RoleRevoked?
    ensures Apply(s, e).roles == s.roles && Apply(s, e).admin == s.admin
  {
  }

  lemma ApplyEntry(s: State, e: Event, a: Address)
    requires Legal(s, e) && Apply(s, e).admin == Some(a)
    ensures Seats(e) ==> Apply(s, e).RoleOf(a) == Role.Admin
    ensures !Seats(e) ==> s.admin == Some(a)
    ensures Retables(e, a) ==> Apply(s, e).RoleOf(a) != Role.Admin
    ensures !Seats(e) && !Retables(e, a) ==> Apply(s, e).RoleOf(a) == s.RoleOf(a)
  {
    if !Seats(e) && !e.RoleAssigned? && !e.RoleRevoked? {
      hide Legal, Apply;
      EventLeavesRoles(s, e);
    }
  }

  lemma {:induction false} ReplayedEntry(log: seq<Event>, a: Address) returns (m: nat)
    requires Replay(log).Some? && Replay(log).value.admin == Some(a)
    ensures LatestSeat(log, m)
    ensures Replay(log).value.RoleOf(a) == Role.Admin <==> forall n | m < n < |log| :: !Retables(log[n], a)
  {
    hide Legal, Apply, State.RoleOf;
    if |log| == 0 {
      assert false;
    } else {
      var front, last := log[..|log| - 1], log[|log| - 1];
      ApplyEntry(Replay(front).value, last, a);
      if Seats(last) {
        m := |log| - 1;
      } else {
        m := ReplayedEntry(front, a);
        assert forall n | 0 <= n < |front| :: log[n] == front[n];
        assert Retables(last, a) ==> m < |log| - 1 < |log| && Retables(log[|log| - 1], a);
      }
    }
  }

  /** The active admin's table entry is documented always to be Admin. It is iff no role call has
      been aimed at that admin since the seat was last taken. */
  lemma AdminEntryIntactIff(s: State, a: Address) returns (m: nat)
    requires Reachable(s) && s.admin == Some(a)
    ensures LatestSeat(s.log, m)
    ensures s.RoleOf(a) == Role.Admin <==> forall n | m < n < |s.log| :: !Retables(s.log[n], a)
  {
    hide Legal, Apply, Step;
    LogRebuildsLedger(s);
    m := ReplayedEntry(s.log, a);
  }
}
