/** The global supply cap and the per-investor holding cap, with two-step governance. */
module Caps {
  import opened Types
  import opened Storage
  import opened AccessControl

  /** Whether `current + incoming` stays under the cap; the addition itself can overflow. */
  function Enforce(cap: int, current: int, incoming: int, exceeded: Error): Outcome {
    if cap <= 0 then Ok
    else
      match CheckedAdd(current, incoming)
      case None => Trap(ArithmeticOverflow)
      case Some(total) => if total > cap then Err(exceeded) else Ok
  }

  function EnforceSupplyCap(s: State, amount: int): Outcome {
    Enforce(s.supplyCap.active, s.totalSupply, amount, SupplyCapExceeded)
  }

  function EnforceHoldingCap(s: State, a: Address, incoming: int): Outcome {
    Enforce(s.holdingCap.active, s.BalanceOf(a), incoming, HoldingCapExceeded)
  }

  function RequireAssertedAdmin(s: State, signers: set<Address>, admin: Address): Outcome {
    RequireNotPaused(s)
    .Then(RequireAuth(signers, admin))
    .Then(AssertAdmin(s, admin))
  }

  function ProposeGuard(s: State, signers: set<Address>, kind: CapKind, admin: Address, cap: i128): Outcome {
    RequireAssertedAdmin(s, signers, admin)
    .Then(if cap < 0 || cap == s.Slot(kind).active then Trap(AssertionFailed) else Ok)
  }

  /** Accepting and cancelling both need a pending proposal. */
  function PendingGuard(s: State, signers: set<Address>, kind: CapKind, admin: Address): Outcome {
    RequireAssertedAdmin(s, signers, admin)
    .Then(if s.Slot(kind).candidate.None? then Trap(AssertionFailed) else Ok)
  }

  function Propose(s: State, kind: CapKind, admin: Address, cap: i128): State {
    var slot := s.Slot(kind);
    s.WithSlot(kind, slot.(candidate := Some(cap))).Emit(CapProposed(kind, admin, slot.active, cap))
  }

  function Accept(s: State, kind: CapKind, admin: Address): State
    requires s.Slot(kind).candidate.Some?
  {
    var slot := s.Slot(kind);
    s.WithSlot(kind, CapSlot(slot.candidate.value, None))
    .Emit(CapAmended(kind, admin, slot.active, slot.candidate.value))
  }

  /** Cancelling emits no event. */
  function Cancel(s: State, kind: CapKind): State {
    s.WithSlot(kind, s.Slot(kind).(candidate := None))
  }
}
