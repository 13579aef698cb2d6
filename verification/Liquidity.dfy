/** What stays possible for transfers: from every reachable ledger whose asset is not retired, any
    positive amount can still come to move between any two addresses. Hence which of the
    announced reasons for a refusal are final. */
module Liquidity {
  import opened Types
  import opened Storage
  import opened Contract
  import opened Custody
  import opened Invariants
  import opened Recovery
  import AssetOps
  import Frames
  import Restrictions
  import Sums

  /** Nothing but clearance and balance stands in the way of a transfer. */
  predicate Open(s: State, a: Address) {
    Ready(s, a) && s.assetStatus == Active && s.holdingCap.active == 0
  }

  lemma OpenTransfer(s: State, from: Address, to: Address, amount: i128)
    requires Conserved(s) && !s.paused && s.assetStatus == Active && s.holdingCap.active == 0
    requires s.StatusOf(from) == Approved && s.StatusOf(to) == Approved
    requires 0 < amount <= s.BalanceOf(from)
    ensures Guard(s, By(from, Transfer(from, to, amount))).Ok?
    ensures Step(s, By(from, Transfer(from, to, amount))) == AssetOps.Transfer(s, from, to, amount)
  {
    hide Conserved, AssetOps.TransferGuard, AssetOps.Transfer, AssetOps.Debited;
    TransferNeverOverflows(s, from, to, amount);
    AssetOps.TransferGuardIff(s, {from}, from, to, amount);
  }

  lemma RichHolder(s: State, u: Address) returns (h: Address)
    requires Conserved(s) && s.BalanceOf(u) < s.totalSupply
    ensures h != u && s.BalanceOf(h) > 0
  {
    h := Sums.AnotherPositive(s.balances, u);
  }

  /** Clears a holder and moves everything it has to u. */
  lemma Collect(s: State, a: Address, h: Address, u: Address) returns (invs: seq<Invocation>)
    requires Inv(s) && Open(s, a) && s.StatusOf(u) == Approved
    requires h != u && s.BalanceOf(h) > 0
    ensures var t := Run(s, invs);
            && Open(t, a)
            && t.totalSupply == s.totalSupply
            && t.BalanceOf(u) == s.BalanceOf(u) + s.BalanceOf(h)
            && forall w | s.StatusOf(w) == Approved :: t.StatusOf(w) == Approved
  {
    hide Step, Run, Inv, Conserved;
    invs := Clear(s, a, h);
    var t := Run(s, invs);
    RunKeepsInv(s, invs);
    InvConserved(t);
    ConservedBounds(t, h);
    var move := By(h, Transfer(h, u, s.BalanceOf(h)));
    OpenTransfer(t, h, u, s.BalanceOf(h));
    RunSnoc(s, invs, move);
    invs := invs + [move];
  }

  /** Collects from other holders until u has enough. */
  lemma {:induction false} Gather(s: State, a: Address, u: Address, amount: int) returns (invs: seq<Invocation>)
    requires Inv(s) && Open(s, a) && s.StatusOf(u) == Approved
    requires amount <= s.totalSupply
    ensures var t := Run(s, invs);
            && Open(t, a)
            && t.BalanceOf(u) >= amount
            && forall w | s.StatusOf(w) == Approved :: t.StatusOf(w) == Approved
    decreases amount - s.BalanceOf(u)
  {
    hide Step, Run, Inv, Conserved;
    if s.BalanceOf(u) >= amount {
      invs := [];
      RunNone(s);
    } else {
      InvConserved(s);
      var h := RichHolder(s, u);
      invs := Collect(s, a, h, u);
      RunKeepsInv(s, invs);
      var more := Gather(Run(s, invs), a, u, amount);
      RunConcat(s, invs, more);
      invs := invs + more;
    }
  }

  lemma RunNone(s: State)
    ensures Run(s, []) == s
  {
  }

  /** Issues to u whatever the supply lacks. */
  lemma Issue(s: State, a: Address, u: Address, amount: i128) returns (invs: seq<Invocation>)
    requires Inv(s) && Ready(s, a) && s.policy == DEFAULT_POLICY && s.assetStatus == Active
    requires s.supplyCap.active == 0 && s.holdingCap.active == 0 && s.StatusOf(u) == Approved
    ensures var t := Run(s, invs);
            && t == s.(balances := t.balances, totalSupply := t.totalSupply, log := t.log)
            && t.totalSupply >= amount
  {
    hide Step, Run, Inv, Conserved, AssetOps.MintGuard;
    InvConserved(s);
    if s.totalSupply >= amount {
      invs := [];
      RunNone(s);
    } else {
      ConservedBounds(s, u);
      assert FitsI128(amount);
      var lacking := amount - s.totalSupply;
      PreparedMint(s, a, u, lacking);
      var mint := By(a, MintAsset(a, u, lacking));
      Frames.MintStep(s, mint);
      RunOne(s, mint);
      invs := [mint];
    }
  }

  /** Clears both parties, lifts everything in the way, issues up to `amount` if there is less,
      and gathers it at u. */
  lemma Fund(s: State, u: Address, v: Address, amount: i128) returns (invs: seq<Invocation>)
    requires Inv(s) && s.assetStatus != Retired
    ensures var t := Run(s, invs);
            && !t.paused && t.assetStatus == Active && t.holdingCap.active == 0
            && t.StatusOf(u) == Approved && t.StatusOf(v) == Approved
            && t.BalanceOf(u) >= amount
  {
    hide Step, Run, Inv, Conserved;
    assert s.paused ==> s.admin.Some? by { InvSeat(s); }
    var a := if s.admin.Some? then s.admin.value else u;
    invs := Prepare(s, a, u);
    var more := Clear(Run(s, invs), a, v);
    invs := Then(s, invs, more);
    RunKeepsInv(s, invs);
    more := Issue(Run(s, invs), a, u, amount);
    invs := Then(s, invs, more);
    RunKeepsInv(s, invs);
    more := Gather(Run(s, invs), a, u, amount);
    invs := Then(s, invs, more);
  }

  lemma Then(s: State, done: seq<Invocation>, more: seq<Invocation>) returns (invs: seq<Invocation>)
    ensures invs == done + more && Run(s, invs) == Run(Run(s, done), more)
  {
    hide Step;
    invs := done + more;
    RunConcat(s, done, more);
  }

  lemma InvSeat(s: State)
    requires Inv(s)
    ensures s.paused ==> s.admin.Some?
  {
    hide Conserved;
  }

  /** Invocation `inv` transfers `amount` from u to v after the run. */
  predicate TransfersAfter(
    s: State, invs: seq<Invocation>, inv: Invocation, u: Address, v: Address, amount: i128)
  {
    && inv.call == Transfer(u, v, amount)
    && Guard(Run(s, invs), inv).Ok?
  }

  /** A transfer of `amount` from u to v can still happen iff the amount is positive and the asset
      is not retired, whatever the balances, caps, statuses, pause and supply are now. */
  lemma TransferStillPossibleIff(s: State, u: Address, v: Address, amount: i128)
    requires Reachable(s)
    ensures (exists invs: seq<Invocation>, inv: Invocation :: TransfersAfter(s, invs, inv, u, v, amount)) <==>
            amount >= 1 && s.assetStatus != Retired
  {
    hide Step, Run, Inv, Conserved, AssetOps.TransferGuard;
    if amount >= 1 && s.assetStatus != Retired {
      ReachableInv(s);
      var invs := Fund(s, u, v, amount);
      RunKeepsInv(s, invs);
      InvConserved(Run(s, invs));
      OpenTransfer(Run(s, invs), u, v, amount);
      assert TransfersAfter(s, invs, By(u, Transfer(u, v, amount)), u, v, amount);
    }
    forall invs: seq<Invocation>, inv: Invocation | TransfersAfter(s, invs, inv, u, v, amount)
      ensures amount >= 1 && s.assetStatus != Retired
    {
      TransferNeedsLife(s, invs, inv, u, v, amount);
    }
  }

  lemma TransferNeedsLife(
    s: State, invs: seq<Invocation>, inv: Invocation, u: Address, v: Address, amount: i128)
    requires TransfersAfter(s, invs, inv, u, v, amount)
    ensures amount >= 1 && s.assetStatus != Retired
  {
    hide Step, Run, AssetOps.TransferGuard;
    AssetOps.TransferGuardIff(Run(s, invs), inv.signers, u, v, amount);
    if s.assetStatus == Retired {
      RetiredForever(s, invs);
    }
  }

  // ── Which refusals are final ──────────────────────────────────────────

  ghost predicate NeverTransfers(s: State, u: Address, v: Address, amount: i128) {
    !exists invs: seq<Invocation>, inv: Invocation :: TransfersAfter(s, invs, inv, u, v, amount)
  }

  ghost predicate NeverMints(s: State, r: Address, amount: i128) {
    !exists invs: seq<Invocation>, inv: Invocation :: MintsAfter(s, invs, inv, r, amount)
  }

  /** Only retirement is documented to be final, every other reason to be recoverable. For a
      transfer this is so iff the amount is positive and a pause does not hide the retirement. */
  lemma TransferTerminalExact(s: State, u: Address, v: Address, amount: i128, r: Restrictions.Reason)
    requires Reachable(s) && Restrictions.EvaluateTransfer(s, u, v, amount) == Restrictions.Verdict(r)
    ensures (Restrictions.IsTerminal(r) <==> NeverTransfers(s, u, v, amount)) <==>
            amount >= 1 && !(s.paused && s.assetStatus == Retired)
  {
    hide TransfersAfter;
    TransferStillPossibleIff(s, u, v, amount);
  }

  /** For a mint the supply must also have room, for good, as there is no burn; and retirement
      can be hidden by the pause and by the caller's lack of authority. */
  lemma MintTerminalExact(s: State, caller: Address, to: Address, amount: i128, r: Restrictions.Reason)
    requires Reachable(s) && Restrictions.EvaluateMint(s, caller, to, amount) == Restrictions.Verdict(r)
    ensures (Restrictions.IsTerminal(r) <==> NeverMints(s, to, amount)) <==>
            && amount >= 1
            && if s.assetStatus == Retired then !s.paused && Restrictions.CanMint(s, caller)
               else s.totalSupply + amount <= I128_MAX
  {
    hide MintsAfter;
    MintStillPossibleIff(s, to, amount);
  }
}
