/** What every reachable state satisfies. Each conjunct is kept by every legal event, hence
    by every step, whatever the call, its arguments and its signers. */
module Invariants {
  import opened Types
  import opened Storage
  import opened Contract
  import opened AuditTrail
  import opened Sums
  import AssetOps
  import Config
  import Caps

  /** Balances are non-negative and add up exactly to the supply, which fits i128. */
  ghost predicate Conserved(s: State) {
    && (forall a | a in s.balances :: s.balances[a] >= 0)
    && Sum(s.balances) == s.totalSupply
    && s.totalSupply <= I128_MAX
  }

  /** Only the current admin can hold the Admin role. (It may also hold another one.) */
  predicate AdminRoleIsAdmins(s: State) {
    forall a | a in s.roles :: s.roles[a] == Role.Admin ==> s.admin == Some(a)
  }

  predicate PausedHasAdmin(s: State) {
    s.paused ==> s.admin.Some?
  }

  predicate SlotSound(slot: CapSlot) {
    && slot.active >= 0
    && (slot.candidate.Some? ==> slot.candidate.value >= 0 && slot.candidate.value != slot.active)
  }

  predicate CapsSound(s: State) {
    SlotSound(s.supplyCap) && SlotSound(s.holdingCap)
  }

  predicate ConfigSound(s: State) {
    && Config.IsValid(s.config)
    && (s.configCandidate.Some? ==> Config.IsValid(s.configCandidate.value))
  }

  /** The legacy flag mirrors Approved, Approved has a recorded approver, and no stored
      status is Unknown. */
  predicate ComplianceSound(s: State) {
    && (forall u | u in s.whitelist :: s.StatusOf(u) == Approved)
    && (forall u | u in s.compliance :: s.compliance[u] != Unknown)
    && (forall u | u in s.compliance && s.compliance[u] == Approved :: u in s.whitelist && u in s.approvers)
  }

  ghost predicate Inv(s: State) {
    && Conserved(s)
    && AdminRoleIsAdmins(s)
    && PausedHasAdmin(s)
    && CapsSound(s)
    && ConfigSound(s)
    && ComplianceSound(s)
  }

  lemma InvConserved(s: State)
    requires Inv(s)
    ensures Conserved(s)
  {
    hide Conserved;
  }

  lemma ConservedBounds(s: State, a: Address)
    requires Conserved(s)
    ensures 0 <= s.BalanceOf(a) <= s.totalSupply <= I128_MAX
  {
    SumBounds(s.balances);
  }

  lemma ConservedPair(s: State, a: Address, b: Address)
    requires Conserved(s) && a != b
    ensures s.BalanceOf(a) + s.BalanceOf(b) <= s.totalSupply
  {
    ConservedBounds(s, a);
    ConservedBounds(s, b);
    if a in s.balances && b in s.balances {
      SumBoundsPair(s.balances, a, b);
    }
  }

  /** Conservation rules out overflow on both sides of a covered transfer, also to oneself. */
  lemma TransferNeverOverflows(s: State, from: Address, to: Address, amount: i128)
    requires Conserved(s) && 0 < amount <= s.BalanceOf(from)
    ensures FitsI128(s.BalanceOf(from) - amount)
    ensures FitsI128(s.BalanceOf(to) + amount) || from == to
    ensures FitsI128(AssetOps.Debited(s, from, amount).BalanceOf(to) + amount)
  {
    ConservedBounds(s, from);
    ConservedBounds(s, to);
    if from != to {
      ConservedPair(s, from, to);
    }
  }

  // ── Each legal event keeps each conjunct ──────────────────────────────

  lemma EventLeavesBalances(s: State, e: Event)
    requires !e.AssetMinted? && !e.Transferred?
    ensures Apply(s, e).balances == s.balances && Apply(s, e).totalSupply == s.totalSupply
  {
  }

  lemma CreditSum(balances: map<Address, int>, a: Address, amount: int)
    ensures Sum(Credit(balances, a, amount)) == Sum(balances) + amount
  {
    SumUpdate(balances, a, (if a in balances then balances[a] else 0) + amount);
  }

  lemma EventKeepsConserved(s: State, e: Event)
    requires Conserved(s) && Legal(s, e)
    ensures Conserved(Apply(s, e))
  {
    if e.AssetMinted? {
      CreditSum(s.balances, e.to, e.amount);
    } else if e.Transferred? {
      CreditSum(s.balances, e.from, 0 - e.amount);
      CreditSum(Credit(s.balances, e.from, 0 - e.amount), e.to, e.amount);
    } else {
      EventLeavesBalances(s, e);
    }
  }

  lemma EventKeepsAuthority(s: State, e: Event)
    requires Legal(s, e) && AdminRoleIsAdmins(s) && PausedHasAdmin(s)
    ensures AdminRoleIsAdmins(Apply(s, e)) && PausedHasAdmin(Apply(s, e))
  {
  }

  lemma EventLeavesSlot(s: State, e: Event, kind: CapKind)
    requires (e.CapProposed? || e.CapAmended?) ==> e.kind != kind
    ensures Apply(s, e).Slot(kind) == s.Slot(kind)
  {
  }

  lemma EventKeepsCaps(s: State, e: Event)
    requires Legal(s, e) && CapsSound(s)
    ensures CapsSound(Apply(s, e))
  {
    if !e.CapProposed? && !e.CapAmended? {
      hide Legal, Apply;
      EventLeavesSlot(s, e, SupplyCap);
      EventLeavesSlot(s, e, HoldingCap);
    }
  }

  lemma EventKeepsConfig(s: State, e: Event)
    requires Legal(s, e) && ConfigSound(s)
    ensures ConfigSound(Apply(s, e))
  {
  }

  lemma EventLeavesCompliance(s: State, e: Event)
    requires !e.ComplianceStatusChanged?
    ensures var t := Apply(s, e);
            t.compliance == s.compliance && t.whitelist == s.whitelist && t.approvers == s.approvers
  {
  }

  lemma EventKeepsCompliance(s: State, e: Event)
    requires Legal(s, e) && ComplianceSound(s)
    ensures ComplianceSound(Apply(s, e))
  {
    if !e.ComplianceStatusChanged? {
      hide Legal, Apply;
      EventLeavesCompliance(s, e);
    }
  }

  lemma EventKeepsInv(s: State, e: Event)
    requires Inv(s) && Legal(s, e)
    ensures Inv(Apply(s, e))
  {
    hide Legal, Apply, Conserved, AdminRoleIsAdmins, PausedHasAdmin, CapsSound, ConfigSound, ComplianceSound;
    EventKeepsConserved(s, e);
    EventKeepsAuthority(s, e);
    EventKeepsCaps(s, e);
    EventKeepsConfig(s, e);
    EventKeepsCompliance(s, e);
  }

  lemma {:induction false} PlayKeepsInv(s: State, events: seq<Event>)
    requires Inv(s) && Play(s, events).Some?
    ensures Inv(Play(s, events).value)
  {
    hide Legal, Apply, Inv;
    if |events| != 0 {
      var front, last := events[..|events| - 1], events[|events| - 1];
      PlayKeepsInv(s, front);
      EventKeepsInv(Play(s, front).value, last);
    }
  }

  // ── Hence each step, hence every reachable state ──────────────────────

  lemma CapCancelKeepsInv(s: State, kind: CapKind)
    requires Inv(s)
    ensures Inv(Caps.Cancel(s, kind))
  {
  }

  lemma ConfigCancelKeepsInv(s: State)
    requires Inv(s)
    ensures Inv(Config.Cancel(s))
  {
  }

  lemma StepKeepsInv(s: State, inv: Invocation)
    requires Inv(s)
    ensures Inv(Step(s, inv))
  {
    hide Inv, Guard, Effect, Legal, Apply;
    if Guard(s, inv).Ok? {
      if IsCancel(inv.call) {
        CancelEffect(s, inv);
        if inv.call.CancelCap? {
          CapCancelKeepsInv(s, inv.call.kind);
        } else {
          ConfigCancelKeepsInv(s);
        }
      } else {
        var es := Announced(s, inv);
        StepEvents(s, inv);
        PlayKeepsInv(s, es);
      }
    }
  }

  lemma {:induction false} RunKeepsInv(s: State, invs: seq<Invocation>)
    requires Inv(s)
    ensures Inv(Run(s, invs))
  {
    hide Inv, Step;
    if |invs| != 0 {
      RunKeepsInv(s, invs[..|invs| - 1]);
      StepKeepsInv(Run(s, invs[..|invs| - 1]), invs[|invs| - 1]);
    }
  }

  lemma InitialInv()
    ensures Inv(Initial())
  {
  }

  lemma ReachableInv(s: State)
    requires Reachable(s)
    ensures Inv(s)
  {
    hide Inv, Step;
    var invs: seq<Invocation> :| Run(Initial(), invs) == s;
    InitialInv();
    RunKeepsInv(Initial(), invs);
  }
}
