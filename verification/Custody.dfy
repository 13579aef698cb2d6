/** How value can move over whole runs: custody, freezes, retirement, and the cap envelope. */
module Custody {
  import opened Types
  import opened Storage
  import opened Contract
  import opened Frames
  import opened Invariants
  import AssetOps
  import Lifecycle
  import Refusals
  import Restrictions

  // ── One step ──────────────────────────────────────────────────────────

  /** An account is touched only while Approved, and debited only on its own signature. */
  lemma StepMovesBalance(s: State, inv: Invocation, u: Address)
    ensures var before, after := s.BalanceOf(u), Step(s, inv).BalanceOf(u);
            && (after < before ==> inv.call.Transfer? && inv.call.from == u && u in inv.signers)
            && (after > before ==> (inv.call.MintAsset? || inv.call.Transfer?) && inv.call.to == u)
            && (after != before ==> s.StatusOf(u) == Approved && s.assetStatus == Active && !s.paused)
  {
    hide Guard, Effect, AssetOps.MintGuard, AssetOps.TransferGuard;
    var call := inv.call;
    if call.MintAsset? {
      MintStep(s, inv);
      AssetOps.MintGuardIff(s, inv.signers, call.admin, call.to, call.amount);
    } else if call.Transfer? {
      TransferStep(s, inv);
      AssetOps.TransferGuardIff(s, inv.signers, call.from, call.to, call.amount);
    } else {
      BalancesFrame(s, inv);
    }
  }

  /** There is no burn: supply only grows, only by a mint, by the minted amount. */
  lemma StepMovesSupply(s: State, inv: Invocation)
    ensures var before, after := s.totalSupply, Step(s, inv).totalSupply;
            && before <= after
            && (after != before ==> inv.call.MintAsset? && after == before + inv.call.amount && s.assetStatus == Active)
  {
    hide Guard, Effect, AssetOps.MintGuard, AssetOps.TransferGuard;
    var call := inv.call;
    if call.MintAsset? {
      MintStep(s, inv);
      AssetOps.MintGuardIff(s, inv.signers, call.admin, call.to, call.amount);
    } else if call.Transfer? {
      TransferStep(s, inv);
    } else {
      BalancesFrame(s, inv);
    }
  }

  lemma SetAssetStatusStep(s: State, inv: Invocation)
    requires inv.call.SetAssetStatus?
    ensures Step(s, inv) ==
            if Lifecycle.SetAssetStatusGuard(s, inv.signers, inv.call.admin, inv.call.assetStatus).Ok?
            then Lifecycle.SetAssetStatus(s, inv.call.admin, inv.call.assetStatus) else s
  {
    hide Lifecycle.SetAssetStatusGuard;
  }

  lemma StepKeepsRetired(s: State, inv: Invocation)
    requires s.assetStatus == Retired
    ensures Step(s, inv).assetStatus == Retired
  {
    hide Guard, Effect;
    if inv.call.SetAssetStatus? {
      SetAssetStatusStep(s, inv);
    } else {
      AssetStatusFrame(s, inv);
    }
  }

  // ── Whole runs ────────────────────────────────────────────────────────

  lemma {:induction false} SupplyOnlyGrows(s: State, invs: seq<Invocation>)
    ensures s.totalSupply <= Run(s, invs).totalSupply
  {
    hide Step;
    if |invs| != 0 {
      SupplyOnlyGrows(s, invs[..|invs| - 1]);
      StepMovesSupply(Run(s, invs[..|invs| - 1]), invs[|invs| - 1]);
    }
  }

  /** Over a segment in which u is never Approved, u's balance does not change. */
  lemma {:induction false} FrozenBalance(s: State, invs: seq<Invocation>, u: Address)
    requires forall k | 0 <= k < |invs| :: Run(s, invs[..k]).StatusOf(u) != Approved
    ensures Run(s, invs).BalanceOf(u) == s.BalanceOf(u)
  {
    hide Step;
    if |invs| != 0 {
      var front, last := invs[..|invs| - 1], invs[|invs| - 1];
      forall k | 0 <= k < |front|
        ensures Run(s, front[..k]).StatusOf(u) != Approved
      {
        assert front[..k] == invs[..k];
      }
      FrozenBalance(s, front, u);
      StepMovesBalance(Run(s, front), last, u);
    }
  }

  /** No run takes value from u unless u signs: without u's signature the balance never falls. */
  lemma {:induction false} NoDebitWithoutSignature(s: State, invs: seq<Invocation>, u: Address)
    requires forall k | 0 <= k < |invs| :: u !in invs[k].signers
    ensures s.BalanceOf(u) <= Run(s, invs).BalanceOf(u)
  {
    hide Step;
    if |invs| != 0 {
      var front, last := invs[..|invs| - 1], invs[|invs| - 1];
      forall k | 0 <= k < |front|
        ensures u !in front[k].signers
      {
        assert front[k] == invs[k];
      }
      NoDebitWithoutSignature(s, front, u);
      StepMovesBalance(Run(s, front), last, u);
    }
  }

  /** Retirement is final: supply and every balance are fixed, and nothing moves again. */
  lemma {:induction false} RetiredForever(s: State, invs: seq<Invocation>)
    requires s.assetStatus == Retired
    ensures var t := Run(s, invs);
            && t.assetStatus == Retired
            && t.totalSupply == s.totalSupply
            && (forall u: Address :: t.BalanceOf(u) == s.BalanceOf(u))
            && (forall from: Address, to: Address, amount: i128 ::
                  Restrictions.EvaluateTransfer(t, from, to, amount) != Restrictions.Verdict(Restrictions.Unrestricted))
            && (forall caller: Address, to: Address, amount: i128 ::
                  Restrictions.EvaluateMint(t, caller, to, amount) != Restrictions.Verdict(Restrictions.Unrestricted))
  {
    hide Step;
    if |invs| != 0 {
      var front, last := invs[..|invs| - 1], invs[|invs| - 1];
      RetiredForever(s, front);
      var t := Run(s, front);
      StepKeepsRetired(t, last);
      StepMovesSupply(t, last);
      forall u: Address
        ensures Step(t, last).BalanceOf(u) == s.BalanceOf(u)
      {
        StepMovesBalance(t, last, u);
      }
    }
  }

  // ── Cap envelope ──────────────────────────────────────────────────────

  /** Under an active cap no step pushes a balance, or the supply, past the cap. */
  lemma StepWithinCaps(s: State, inv: Invocation, u: Address)
    ensures s.holdingCap.active > 0 ==>
              Step(s, inv).BalanceOf(u) <= s.BalanceOf(u) || Step(s, inv).BalanceOf(u) <= s.holdingCap.active
    ensures s.supplyCap.active > 0 ==>
              Step(s, inv).totalSupply <= s.totalSupply || Step(s, inv).totalSupply <= s.supplyCap.active
  {
    hide Guard, Effect, AssetOps.MintGuard, AssetOps.TransferGuard;
    var call := inv.call;
    if call.MintAsset? {
      MintStep(s, inv);
      AssetOps.MintGuardIff(s, inv.signers, call.admin, call.to, call.amount);
    } else if call.Transfer? {
      TransferStep(s, inv);
      AssetOps.TransferGuardIff(s, inv.signers, call.from, call.to, call.amount);
    } else {
      BalancesFrame(s, inv);
    }
  }

  /** While the holding cap stays c, every balance within c stays within c. */
  lemma {:induction false} HoldingEnvelope(s: State, invs: seq<Invocation>, c: int, u: Address)
    requires c > 0 && s.BalanceOf(u) <= c
    requires forall k | 0 <= k < |invs| :: Run(s, invs[..k]).holdingCap.active == c
    ensures Run(s, invs).BalanceOf(u) <= c
  {
    hide Step;
    if |invs| != 0 {
      var front, last := invs[..|invs| - 1], invs[|invs| - 1];
      forall k | 0 <= k < |front|
        ensures Run(s, front[..k]).holdingCap.active == c
      {
        assert front[..k] == invs[..k];
      }
      HoldingEnvelope(s, front, c, u);
      StepWithinCaps(Run(s, front), last, u);
    }
  }

  /** While the supply cap stays c, a supply within c stays within c. */
  lemma {:induction false} SupplyEnvelope(s: State, invs: seq<Invocation>, c: int)
    requires c > 0 && s.totalSupply <= c
    requires forall k | 0 <= k < |invs| :: Run(s, invs[..k]).supplyCap.active == c
    ensures Run(s, invs).totalSupply <= c
  {
    hide Step;
    if |invs| != 0 {
      var front, last := invs[..|invs| - 1], invs[|invs| - 1];
      forall k | 0 <= k < |front|
        ensures Run(s, front[..k]).supplyCap.active == c
      {
        assert front[..k] == invs[..k];
      }
      SupplyEnvelope(s, front, c);
      StepWithinCaps(Run(s, front), last, Address(0));
    }
  }

  // ── Contract-wide pause ───────────────────────────────────────────────

  /** What is left of the state machine while paused. */
  lemma PausedStep(s: State, inv: Invocation)
    requires s.paused && s.admin.Some? && !inv.call.Unpause?
    ensures var t := Step(s, inv);
            || t == s
            || (&& inv.call.SetAssetStatus?
                && Some(inv.call.admin) == s.admin
                && inv.call.admin in inv.signers
                && inv.call.assetStatus != Active
                && t == s.(assetStatus := inv.call.assetStatus,
                           log := s.log + [AssetStatusChanged(inv.call.admin, s.assetStatus, inv.call.assetStatus)]))
  {
    hide Guard, Effect;
    if inv.call.SetAssetStatus? {
      SetAssetStatusStep(s, inv);
    } else {
      Refusals.PausedRefusal(s, inv);
    }
  }

  predicate PauseEvent(s: State, e: Event) {
    e.AssetStatusChanged? && Some(e.admin) == s.admin && e.newAssetStatus != Active
  }

  lemma UnpauseStep(s: State, inv: Invocation)
    requires inv.call.Unpause?
    ensures Step(s, inv) == s || !Step(s, inv).paused
  {
  }

  /** Between a pause and the next unpause nothing changes but the asset status, which only
      the admin moves and never to Active. */
  lemma {:induction false} PauseFreeze(s: State, invs: seq<Invocation>)
    requires Reachable(s)
    requires forall k | 0 <= k <= |invs| :: Run(s, invs[..k]).paused
    ensures var t := Run(s, invs);
            && t == s.(assetStatus := t.assetStatus, log := t.log)
            && (t.assetStatus == Active ==> s.assetStatus == Active)
            && |s.log| <= |t.log|
            && t.log[..|s.log|] == s.log
            && forall i | |s.log| <= i < |t.log| :: PauseEvent(s, t.log[i])
  {
    hide Step, Inv;
    if |invs| != 0 {
      var front, last := invs[..|invs| - 1], invs[|invs| - 1];
      forall k | 0 <= k <= |front|
        ensures Run(s, front[..k]).paused
      {
        assert front[..k] == invs[..k];
      }
      PauseFreeze(s, front);
      var t := Run(s, front);
      assert front[..|front|] == front && invs[..|invs|] == invs;
      PausedHasAnAdmin(s);
      if last.call.Unpause? {
        UnpauseStep(t, last);
      } else {
        PausedStep(t, last);
      }
    }
  }

  lemma PausedHasAnAdmin(s: State)
    requires Reachable(s)
    ensures s.paused ==> s.admin.Some?
  {
    hide Step;
    ReachableInv(s);
  }
}
