/** Which calls are refused across the board: without the caller's signature, while the
    contract is paused, and while it has no admin. */
module Refusals {
  import opened Types
  import opened Storage
  import opened Contract
  import AccessControl
  import Batch
  import Caps
  import Compliance
  import Invariants
  import Issuance

  /** No call commits without its caller's authorisation. */
  lemma UnsignedRefusal(s: State, inv: Invocation)
    requires Caller(inv.call) !in inv.signers
    ensures !Guard(s, inv).Ok? && Step(s, inv) == s
  {
    hide Effect, Compliance.ScanBatch, AccessControl.RequireNotPaused, AccessControl.RequireRole,
         AccessControl.CheckAdmin, AccessControl.AssertAdmin, Caps.EnforceSupplyCap, Caps.EnforceHoldingCap,
         Issuance.RequireIssuanceAuthority;
  }

  /** The calls the pause does not gate. Only the last can still succeed beside Unpause. */
  predicate IgnoresPause(call: Call) {
    || call.Initialize? || call.Pause? || call.Unpause?
    || (call.SetAssetStatus? && call.assetStatus != Active)
  }

  /** Documented: while paused every state-changing call reverts with ContractPaused. It does,
      for any caller and signers, exactly for the calls that do not ignore the pause. */
  lemma PausedRefusal(s: State, inv: Invocation)
    requires s.paused && s.admin.Some?
    ensures Guard(s, inv) == Panic(Error.ContractPaused) <==> !IgnoresPause(inv.call)
    ensures inv.call.Initialize? ==> Guard(s, inv) == Err(AlreadyInitialized)
    ensures inv.call.Pause? ==> !Guard(s, inv).Ok?
  {
    hide Compliance.ScanBatch;
    if IgnoresPause(inv.call) {
      IgnoredPause(s, inv);
    }
  }

  lemma IgnoredPause(s: State, inv: Invocation)
    requires IgnoresPause(inv.call)
    ensures Guard(s, inv) != Panic(Error.ContractPaused)
  {
  }

  /** Calls that never ask for the admin: transfers, empty batches, and an acceptance by anyone
      but the pending candidate, which fails earlier. */
  predicate IgnoresAdmin(s: State, call: Call) {
    || call.Initialize?
    || call.Transfer?
    || (call.BatchSetComplianceStatus? && |call.updates| == 0)
    || (call.AcceptAdmin? && s.adminCandidate != Some(call.candidate))
  }

  /** Documented: any administrative call before initialisation reverts with NotInitialized.
      Signed, it does exactly when it asks for the admin at all. */
  lemma UninitialisedRefusal(s: State, inv: Invocation)
    requires Reachable(s) && s.admin.None? && Caller(inv.call) in inv.signers
    ensures Guard(s, inv) == Panic(Error.NotInitialized) <==> !IgnoresAdmin(s, inv.call)
  {
    hide Guard, Step;
    Invariants.ReachableInv(s);
    assert !s.paused;
    if inv.call.BatchSetComplianceStatus? {
      UninitialisedBatch(s, inv);
    } else {
      UninitialisedCall(s, inv);
    }
  }

  lemma UninitialisedCall(s: State, inv: Invocation)
    requires s.admin.None? && !s.paused && Caller(inv.call) in inv.signers && !inv.call.BatchSetComplianceStatus?
    ensures Guard(s, inv) == Panic(Error.NotInitialized) <==> !IgnoresAdmin(s, inv.call)
  {
  }

  lemma UninitialisedBatch(s: State, inv: Invocation)
    requires s.admin.None? && !s.paused && Caller(inv.call) in inv.signers && inv.call.BatchSetComplianceStatus?
    ensures Guard(s, inv) == Panic(Error.NotInitialized) <==> !IgnoresAdmin(s, inv.call)
  {
    var caller, updates := inv.call.caller, inv.call.updates;
    if |updates| != 0 {
      Batch.ScanFindsFirst(s, caller, updates);
      assert Compliance.EnforceRow(s, caller, updates, 0) == Panic(Error.NotInitialized);
      Batch.BatchOutcome(s, inv.signers, caller, updates);
    }
  }
}
