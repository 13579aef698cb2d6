/** The contract as it runs: one field per storage entry, updated in place by one method per
    entry point. Each method is proved against its guard and effect in the state machine; the
    host that rolls back failures is `Invoke`. */
module LedgerObject {
  import opened Types
  import opened Storage
  import opened TransitionGuards
  import opened AccessControl
  import opened Invariants
  import AssetOps
  import Batch
  import Caps
  import Compliance
  import Config
  import Contract
  import Frames
  import Issuance
  import Lifecycle
  import Restrictions

  // ── Read-only loops ───────────────────────────────────────────────────

  function StatusIndex(status: ComplianceStatus): nat {
    match status
    case Unknown => 0
    case Pending => 1
    case Approved => 2
    case Revoked => 3
    case Blocked => 4
  }

  /** Every status reachable from `from` in one move, each once, in declaration order. */
  method AllowedTransitions(from: ComplianceStatus) returns (out: seq<ComplianceStatus>)
    ensures forall to: ComplianceStatus :: to in out <==> TransitionIsAllowed(from, to)
    ensures forall i, j | 0 <= i < j < |out| :: StatusIndex(out[i]) < StatusIndex(out[j])
  {
    var candidates := [Unknown, Pending, Approved, Revoked, ComplianceStatus.Blocked];
    out := [];
    for k := 0 to |candidates|
      invariant forall to: ComplianceStatus :: to in out <==> TransitionIsAllowed(from, to) && StatusIndex(to) < k
      invariant forall i, j | 0 <= i < j < |out| :: StatusIndex(out[i]) < StatusIndex(out[j])
    {
      if TransitionIsAllowed(from, candidates[k]) {
        out := out + [candidates[k]];
      }
    }
  }

  function DutyIndex(duty: Issuance.Duty): nat {
    match duty
    case Compliance => 0
    case Issuance => 1
    case Emergency => 2
    case Governance => 3
  }

  /** Every duty of a role, each once, in declaration order. */
  method DutiesOfRole(role: Role) returns (out: seq<Issuance.Duty>)
    ensures forall duty: Issuance.Duty :: duty in out <==> Issuance.RoleHasDuty(role, duty)
    ensures forall i, j | 0 <= i < j < |out| :: DutyIndex(out[i]) < DutyIndex(out[j])
  {
    var all := [Issuance.Compliance, Issuance.Issuance, Issuance.Emergency, Issuance.Governance];
    out := [];
    for k := 0 to |all|
      invariant forall duty: Issuance.Duty :: duty in out <==> Issuance.RoleHasDuty(role, duty) && DutyIndex(duty) < k
      invariant forall i, j | 0 <= i < j < |out| :: DutyIndex(out[i]) < DutyIndex(out[j])
    {
      if Issuance.RoleHasDuty(role, all[k]) {
        out := out + [all[k]];
      }
    }
  }

  /** Whether an earlier row names the same user. */
  method HasDuplicateUser(updates: seq<BatchUpdate>, index: nat) returns (found: bool)
    requires index < |updates|
    ensures found <==> IsDuplicateAt(updates, index)
  {
    for earlier := 0 to index
      invariant forall k | 0 <= k < earlier :: updates[k].user != updates[index].user
    {
      if updates[earlier].user == updates[index].user {
        return true;
      }
    }
    return false;
  }

  class Ledger {
    var admin: Option<Address>
    var adminCandidate: Option<Address>
    var roles: map<Address, Role>
    var paused: bool
    var assetStatus: AssetStatus
    var compliance: map<Address, ComplianceStatus>
    var whitelist: set<Address>
    var approvers: map<Address, Address>
    var balances: map<Address, int>
    var totalSupply: int
    var supplyCap: i128
    var supplyCapCandidate: Option<i128>
    var holdingCap: i128
    var holdingCapCandidate: Option<i128>
    var policy: SeparationPolicy
    var config: ProtocolConfig
    var configCandidate: Option<ProtocolConfig>
    var metadata: Metadata
    var events: seq<Event>

    /** The storage as a value. */
    function Snapshot(): State
      reads this
    {
      State(
        admin, adminCandidate, roles, paused, assetStatus, compliance, whitelist, approvers,
        balances, totalSupply, CapSlot(supplyCap, supplyCapCandidate),
        CapSlot(holdingCap, holdingCapCandidate), policy, config, configCandidate, metadata, events)
    }

    constructor ()
      ensures Snapshot() == Initial() && Inv(Snapshot())
      ensures admin == None && adminCandidate == None && roles == map[] && !paused && assetStatus == Draft
      ensures compliance == map[] && whitelist == {} && approvers == map[] && balances == map[] && totalSupply == 0
      ensures supplyCap == 0 && supplyCapCandidate == None && holdingCap == 0 && holdingCapCandidate == None
      ensures !policy.enforced && config == ProtocolConfig(0, 100) && configCandidate == None && events == []
    {
      admin, adminCandidate, roles, paused := None, None, map[], false;
      assetStatus, compliance, whitelist, approvers := Draft, map[], {}, map[];
      balances, totalSupply := map[], 0;
      supplyCap, supplyCapCandidate, holdingCap, holdingCapCandidate := 0, None, 0, None;
      policy, config, configCandidate := DEFAULT_POLICY, DEFAULT_CONFIG, None;
      metadata, events := Metadata("", "", ""), [];
      new;
      InitialInv();
    }

    // ── Administration ──────────────────────────────────────────────────

    method Initialize(signers: set<Address>, newAdmin: Address) returns (r: Outcome)
      modifies this
      ensures r == InitializeGuard(old(Snapshot()), signers, newAdmin)
      ensures Snapshot() == if r.Ok? then AccessControl.Initialize(old(Snapshot()), newAdmin) else old(Snapshot())
    {
      if admin.Some? {
        return Err(AlreadyInitialized);
      }
      :- RequireAuth(signers, newAdmin);
      admin := Some(newAdmin);
      roles := roles[newAdmin := Role.Admin];
      events := events + [ContractInitialized(newAdmin)];
      return Ok;
    }

    method SetRole(signers: set<Address>, caller: Address, target: Address, role: Role) returns (r: Outcome)
      modifies this
      ensures r == SetRoleGuard(old(Snapshot()), signers, caller, role)
      ensures Snapshot() == if r.Ok? then AccessControl.SetRole(old(Snapshot()), caller, target, role) else old(Snapshot())
    {
      var env := Snapshot();
      :- RequireNotPaused(env);
      :- RequireAuth(signers, caller);
      :- CheckAdmin(env, caller);
      if role == Role.Admin {
        return Err(CannotAssignAdminRole);
      }
      roles := roles[target := role];
      events := events + [RoleAssigned(caller, target, role)];
      return Ok;
    }

    method RemoveRole(signers: set<Address>, caller: Address, target: Address) returns (r: Outcome)
      modifies this
      ensures r == RemoveRoleGuard(old(Snapshot()), signers, caller, target)
      ensures Snapshot() == if r.Ok? then AccessControl.RemoveRole(old(Snapshot()), caller, target) else old(Snapshot())
    {
      var env := Snapshot();
      :- RequireNotPaused(env);
      :- RequireAuth(signers, caller);
      :- CheckAdmin(env, caller);
      var previousRole := env.RoleOf(target);
      if previousRole == NoRole {
        return Err(NoRoleToRevoke);
      }
      roles := roles[target := NoRole];
      events := events + [RoleRevoked(caller, target, previousRole)];
      return Ok;
    }

    method TransferAdmin(signers: set<Address>, caller: Address, candidate: Address) returns (r: Outcome)
      modifies this
      ensures r == RequireAdminCall(old(Snapshot()), signers, caller)
      ensures Snapshot() == if r.Ok? then AccessControl.TransferAdmin(old(Snapshot()), caller, candidate) else old(Snapshot())
    {
      var env := Snapshot();
      :- RequireNotPaused(env);
      :- RequireAuth(signers, caller);
      :- CheckAdmin(env, caller);
      adminCandidate := Some(candidate);
      events := events + [AdminTransferInitiated(caller, candidate)];
      return Ok;
    }

    method AcceptAdmin(signers: set<Address>, candidate: Address) returns (r: Outcome)
      modifies this
      ensures r == AcceptAdminGuard(old(Snapshot()), signers, candidate)
      ensures r.Ok? ==> old(admin).Some? && Snapshot() == AccessControl.AcceptAdmin(old(Snapshot()), candidate)
      ensures !r.Ok? ==> Snapshot() == old(Snapshot())
    {
      var env := Snapshot();
      :- RequireNotPaused(env);
      :- RequireAuth(signers, candidate);
      if adminCandidate.None? {
        return Err(NoPendingAdminTransfer);
      }
      if candidate != adminCandidate.value {
        return Err(NotPendingCandidate);
      }
      if admin.None? {
        return Panic(Error.NotInitialized);
      }
      var previousAdmin := admin.value;
      adminCandidate := None;
      admin := Some(candidate);
      roles := roles[previousAdmin := NoRole];
      roles := roles[candidate := Role.Admin];
      events := events + [AdminTransferred(previousAdmin, candidate)];
      return Ok;
    }

    method RenounceAdmin(signers: set<Address>, caller: Address) returns (r: Outcome)
      modifies this
      ensures r == RequireAdminCall(old(Snapshot()), signers, caller)
      ensures Snapshot() == if r.Ok? then AccessControl.RenounceAdmin(old(Snapshot()), caller) else old(Snapshot())
    {
      var env := Snapshot();
      :- RequireNotPaused(env);
      :- RequireAuth(signers, caller);
      :- CheckAdmin(env, caller);
      admin := None;
      roles := roles[caller := NoRole];
      events := events + [AdminRenounced(caller, caller)];
      return Ok;
    }

    method Pause(signers: set<Address>, caller: Address) returns (r: Outcome)
      modifies this
      ensures r == PauseGuard(old(Snapshot()), signers, caller)
      ensures Snapshot() == if r.Ok? then AccessControl.Pause(old(Snapshot()), caller) else old(Snapshot())
    {
      var env := Snapshot();
      :- RequireAuth(signers, caller);
      :- RequireRole(env, caller, EmergencyOfficer);
      if paused {
        return Err(AlreadyPaused);
      }
      paused := true;
      events := events + [ContractPausedBy(caller)];
      return Ok;
    }

    method Unpause(signers: set<Address>, caller: Address) returns (r: Outcome)
      modifies this
      ensures r == UnpauseGuard(old(Snapshot()), signers, caller)
      ensures Snapshot() == if r.Ok? then AccessControl.Unpause(old(Snapshot()), caller) else old(Snapshot())
    {
      var env := Snapshot();
      :- RequireAuth(signers, caller);
      :- CheckAdmin(env, caller);
      if !paused {
        return Err(NotPaused);
      }
      paused := false;
      events := events + [ContractUnpausedBy(caller)];
      return Ok;
    }

    // ── Asset ───────────────────────────────────────────────────────────

    method UpdateAssetMetadata(signers: set<Address>, caller: Address, next: Metadata) returns (r: Outcome)
      modifies this
      ensures r == AssetOps.UpdateMetadataGuard(old(Snapshot()), signers, caller)
      ensures Snapshot() == if r.Ok? then AssetOps.UpdateMetadata(old(Snapshot()), caller, next) else old(Snapshot())
    {
      var env := Snapshot();
      :- RequireNotPaused(env);
      :- RequireAuth(signers, caller);
      :- RequireRole(env, caller, AssetManager);
      if assetStatus == AssetStatus.Retired || assetStatus == AssetStatus.Blocked {
        return Err(AssetMetadataUpdateBlocked);
      }
      metadata := metadata.(name := next.name);
      metadata := metadata.(symbol := next.symbol);
      metadata := metadata.(uri := next.uri);
      events := events + [MetadataUpdated(caller, next)];
      return Ok;
    }

    /** Every coded failure comes before the first write. Only the trap of the supply addition
        comes after one, and leaves the credited balance for the host to roll back. */
    method MintAsset(signers: set<Address>, caller: Address, to: Address, amount: i128) returns (r: Outcome)
      modifies this
      ensures r == AssetOps.MintGuard(old(Snapshot()), signers, caller, to, amount)
      ensures r.Ok? ==> Snapshot() == AssetOps.Mint(old(Snapshot()), caller, to, amount)
      ensures r.Err? || r.Panic? ==> Snapshot() == old(Snapshot())
      ensures r.Trap? ==>
                var s := old(Snapshot());
                Snapshot() ==
                if AssetOps.MintChecks(s, signers, caller, to, amount).Ok? && FitsI128(s.BalanceOf(to) + amount)
                then s.(balances := s.balances[to := s.BalanceOf(to) + amount])
                else s
    {
      hide AssetOps.Mint, RequireNotPaused, RequireAuth, RequireRole, Issuance.RequireIssuanceAuthority,
           Restrictions.RequireAssetMovable, Compliance.RequireCanReceive,
           Caps.EnforceSupplyCap, Caps.EnforceHoldingCap, State.BalanceOf, FitsI128;
      var env := Snapshot();
      :- RequireNotPaused(env);
      :- RequireAuth(signers, caller);
      :- RequireRole(env, caller, AssetManager);
      :- Issuance.RequireIssuanceAuthority(env, caller, Some(to));
      if amount <= 0 {
        return Err(InvalidAmount);
      }
      :- Restrictions.RequireAssetMovable(env);
      :- Compliance.RequireCanReceive(env, to);
      :- Caps.EnforceSupplyCap(env, amount);
      :- Caps.EnforceHoldingCap(env, to, amount);
      r := CreditMint(caller, to, amount);
    }

    /** The writes of a mint, once its checks have passed. */
    method CreditMint(caller: Address, to: Address, amount: i128) returns (r: Outcome)
      modifies this
      ensures r ==
              if FitsI128(old(Snapshot()).BalanceOf(to) + amount) && FitsI128(old(totalSupply) + amount)
              then Ok
              else Trap(ArithmeticOverflow)
      ensures r.Ok? ==> Snapshot() == AssetOps.Mint(old(Snapshot()), caller, to, amount)
      ensures !r.Ok? ==>
                Snapshot() == old(Snapshot()).(balances :=
                  if FitsI128(old(Snapshot()).BalanceOf(to) + amount)
                  then old(balances)[to := old(Snapshot()).BalanceOf(to) + amount]
                  else old(balances))
    {
      hide FitsI128, State.BalanceOf;
      var env := Snapshot();
      var balance := env.BalanceOf(to);
      if !FitsI128(balance + amount) {
        return Trap(ArithmeticOverflow);
      }
      balances := balances[to := balance + amount];
      assert Snapshot() == env.(balances := balances);
      if !FitsI128(totalSupply + amount) {
        return Trap(ArithmeticOverflow);
      }
      totalSupply := totalSupply + amount;
      events := events + [AssetMinted(caller, to, amount, totalSupply)];
      assert Snapshot() == env.(balances := balances, totalSupply := totalSupply, log := events);
      return Ok;
    }

    /** Conservation rules out a trap after the debit, so every failure leaves the ledger as
        it was. */
    method Transfer(signers: set<Address>, from: Address, to: Address, amount: i128) returns (r: Outcome)
      requires Conserved(Snapshot())
      modifies this
      ensures r == AssetOps.TransferGuard(old(Snapshot()), signers, from, to, amount)
      ensures Snapshot() == if r.Ok? then AssetOps.Transfer(old(Snapshot()), from, to, amount) else old(Snapshot())
      ensures r == AssetOps.TransferChecks(old(Snapshot()), signers, from, to, amount)
    {
      hide AssetOps.Transfer, AssetOps.Debited, Conserved, RequireNotPaused, RequireAuth,
           Restrictions.RequireAssetMovable, Compliance.RequireCanSend, Compliance.RequireCanReceive,
           Caps.EnforceHoldingCap, State.BalanceOf, FitsI128;
      var env := Snapshot();
      :- RequireNotPaused(env);
      :- RequireAuth(signers, from);
      if amount <= 0 {
        return Err(InvalidAmount);
      }
      :- Restrictions.RequireAssetMovable(env);
      :- Compliance.RequireCanSend(env, from);
      :- Compliance.RequireCanReceive(env, to);
      :- Caps.EnforceHoldingCap(env, to, amount);
      if env.BalanceOf(from) < amount {
        return Err(InsufficientBalance);
      }
      TransferNeverOverflows(env, from, to, amount);
      r := MoveBalance(from, to, amount);
    }

    /** The writes of a transfer, once its checks have passed. */
    method MoveBalance(from: Address, to: Address, amount: i128) returns (r: Outcome)
      modifies this
      ensures var s := old(Snapshot());
              r ==
              if FitsI128(s.BalanceOf(from) - amount) && FitsI128(AssetOps.Debited(s, from, amount).BalanceOf(to) + amount)
              then Ok
              else Trap(ArithmeticOverflow)
      ensures Snapshot() ==
              var s := old(Snapshot());
              if r.Ok? then AssetOps.Transfer(s, from, to, amount)
              else if FitsI128(s.BalanceOf(from) - amount) then AssetOps.Debited(s, from, amount)
              else s
    {
      hide FitsI128, State.BalanceOf;
      var env := Snapshot();
      var fromBalance := env.BalanceOf(from);
      if !FitsI128(fromBalance - amount) {
        return Trap(ArithmeticOverflow);
      }
      balances := balances[from := fromBalance - amount];
      assert Snapshot() == AssetOps.Debited(env, from, amount);
      var toBalance := Snapshot().BalanceOf(to);
      if !FitsI128(toBalance + amount) {
        return Trap(ArithmeticOverflow);
      }
      balances := balances[to := toBalance + amount];
      events := events + [Transferred(from, to, amount)];
      return Ok;
    }

    method DistributeYield(signers: set<Address>, caller: Address, amount: i128) returns (r: Outcome)
      modifies this
      ensures r == AssetOps.YieldGuard(old(Snapshot()), signers, caller, amount)
      ensures Snapshot() == if r.Ok? then AssetOps.DistributeYield(old(Snapshot()), caller, amount) else old(Snapshot())
    {
      var env := Snapshot();
      :- RequireNotPaused(env);
      :- RequireAuth(signers, caller);
      :- RequireRole(env, caller, AssetManager);
      :- Issuance.RequireIssuanceAuthority(env, caller, None);
      if amount <= 0 {
        return Err(InvalidAmount);
      }
      events := events + [YieldDistributed(caller, amount)];
      return Ok;
    }

    method SetAssetStatus(signers: set<Address>, caller: Address, next: AssetStatus) returns (r: Outcome)
      modifies this
      ensures r == Lifecycle.SetAssetStatusGuard(old(Snapshot()), signers, caller, next)
      ensures Snapshot() == if r.Ok? then Lifecycle.SetAssetStatus(old(Snapshot()), caller, next) else old(Snapshot())
    {
      var env := Snapshot();
      if next == Active {
        :- RequireNotPaused(env);
      }
      :- RequireAuth(signers, caller);
      :- CheckAdmin(env, caller);
      var current := assetStatus;
      if current == next {
        return Err(InvalidLifecycleTransition);
      }
      if !Lifecycle.IsValidTransition(current, next) {
        return Err(InvalidLifecycleTransition);
      }
      assetStatus := next;
      events := events + [AssetStatusChanged(caller, current, next)];
      return Ok;
    }

    // ── Compliance ──────────────────────────────────────────────────────

    method WriteStatus(user: Address, status: ComplianceStatus)
      modifies this
      ensures Snapshot() == Compliance.WriteStatus(old(Snapshot()), user, status)
    {
      compliance := compliance[user := status];
      if status.Approved? {
        whitelist := whitelist + {user};
      } else {
        whitelist := whitelist - {user};
      }
    }

    method ApplyTransition(caller: Address, user: Address, previous: ComplianceStatus, next: ComplianceStatus)
      modifies this
      ensures Snapshot() == Compliance.ApplyTransition(old(Snapshot()), caller, user, previous, next)
    {
      WriteStatus(user, next);
      if next.Approved? {
        approvers := approvers[user := caller];
      }
      events := events + [ComplianceStatusChanged(caller, user, previous, next)];
    }

    method SetComplianceStatus(signers: set<Address>, caller: Address, user: Address, next: ComplianceStatus)
      returns (r: Outcome)
      modifies this
      ensures r == Compliance.SetComplianceStatusGuard(old(Snapshot()), signers, caller, user, next)
      ensures Snapshot() ==
              if r.Ok?
              then Compliance.ApplyTransition(old(Snapshot()), caller, user, old(Snapshot()).StatusOf(user), next)
              else old(Snapshot())
    {
      var env := Snapshot();
      :- RequireNotPaused(env);
      :- RequireAuth(signers, caller);
      var current := env.StatusOf(user);
      :- RequireTransition(env, caller, current, next);
      ApplyTransition(caller, user, current, next);
      return Ok;
    }

    /** Validates every row before the first write; returns the number of rows applied. */
    method BatchSetComplianceStatus(signers: set<Address>, caller: Address, updates: seq<BatchUpdate>)
      returns (r: Outcome, count: nat)
      modifies this
      ensures r == Compliance.BatchGuard(old(Snapshot()), signers, caller, updates)
      ensures Snapshot() == if r.Ok? then Compliance.ApplyBatch(old(Snapshot()), caller, updates) else old(Snapshot())
      ensures count == if r.Ok? then |updates| else 0
    {
      count := 0;
      var env := Snapshot();
      :- RequireNotPaused(env);
      :- RequireAuth(signers, caller);
      var previousStatuses: seq<ComplianceStatus> := [];
      for index := 0 to |updates|
        invariant Snapshot() == env
        invariant |previousStatuses| == index
        invariant forall k | 0 <= k < index :: previousStatuses[k] == env.StatusOf(updates[k].user)
        invariant forall k | 0 <= k < index :: Compliance.EnforceRow(env, caller, updates, k).Ok?
      {
        Batch.ScanFindsFirst(env, caller, updates);
        var duplicate := HasDuplicateUser(updates, index);
        if duplicate {
          assert !Compliance.EnforceRow(env, caller, updates, index).Ok?;
          return Err(InvalidComplianceTransition), 0;
        }
        var previous := env.StatusOf(updates[index].user);
        assert Compliance.EnforceRow(env, caller, updates, index) ==
               RequireTransition(env, caller, previous, updates[index].newStatus);
        :- RequireTransition(env, caller, previous, updates[index].newStatus);
        previousStatuses := previousStatuses + [previous];
      }
      Batch.ScanFindsFirst(env, caller, updates);
      for index := 0 to |updates|
        invariant Snapshot() == Compliance.ApplyBatch(env, caller, updates[..index])
      {
        var update := updates[index];
        assert updates[..index + 1][..index] == updates[..index];
        ApplyTransition(caller, update.user, previousStatuses[index], update.newStatus);
      }
      assert updates[..|updates|] == updates;
      return Ok, |updates|;
    }

    method WhitelistUser(signers: set<Address>, caller: Address, user: Address) returns (r: Outcome)
      modifies this
      ensures r == Compliance.WhitelistUserGuard(old(Snapshot()), signers, caller, user)
      ensures Snapshot() == if r.Ok? then Compliance.WhitelistUser(old(Snapshot()), caller, user) else old(Snapshot())
      ensures r.Ok? ==> Snapshot().StatusOf(user) == Approved
      ensures r.Ok? ==> |events| > |old(events)| && events[|events| - 1] == UserWhitelisted(caller, user)
    {
      var env := Snapshot();
      :- RequireNotPaused(env);
      :- RequireAuth(signers, caller);
      var current := env.StatusOf(user);
      :- RequireTransitionAuthority(env, caller, current);
      if current != Approved {
        if !TransitionIsAllowed(current, Approved) {
          return Err(InvalidComplianceTransition);
        }
        ApplyTransition(caller, user, current, Approved);
      }
      events := events + [UserWhitelisted(caller, user)];
      return Ok;
    }

    method RevokeWhitelist(signers: set<Address>, caller: Address, user: Address) returns (r: Outcome)
      modifies this
      ensures r == Compliance.RevokeWhitelistGuard(old(Snapshot()), signers, caller, user)
      ensures Snapshot() == if r.Ok? then Compliance.RevokeWhitelist(old(Snapshot()), caller, user) else old(Snapshot())
      ensures r.Ok? ==> Snapshot().StatusOf(user) != Approved && Snapshot().StatusOf(user) != Pending
      ensures r.Ok? ==> |events| > |old(events)| && events[|events| - 1] == WhitelistRevoked(caller, user)
    {
      var env := Snapshot();
      :- RequireNotPaused(env);
      :- RequireAuth(signers, caller);
      var current := env.StatusOf(user);
      :- RequireTransitionAuthority(env, caller, current);
      if TransitionIsAllowed(current, Revoked) {
        ApplyTransition(caller, user, current, Revoked);
      }
      events := events + [WhitelistRevoked(caller, user)];
      return Ok;
    }

    /** One report per row, in input order; a duplicate row is patched after its evaluation. */
    method CheckComplianceBatch(caller: Address, updates: seq<BatchUpdate>) returns (out: seq<TransitionCheck>)
      ensures |out| == |updates|
      ensures forall i | 0 <= i < |updates| :: out[i] == CheckRow(Snapshot(), caller, updates, i)
    {
      out := [];
      for index := 0 to |updates|
        invariant |out| == index
        invariant forall i | 0 <= i < index :: out[i] == CheckRow(Snapshot(), caller, updates, i)
      {
        var check := CheckTransition(Snapshot(), caller, updates[index].user, updates[index].newStatus);
        var duplicate := HasDuplicateUser(updates, index);
        if duplicate {
          check := check.(allowed := false);
          check := check.(reason := DuplicateUserInBatch);
          check := check.(errorCode := CodeOf(ErrorForGuard(check.reason)));
        }
        out := out + [check];
      }
    }

    // ── Governance ──────────────────────────────────────────────────────

    method SetIssuerSeparationPolicy(signers: set<Address>, caller: Address, next: SeparationPolicy)
      returns (r: Outcome)
      modifies this
      ensures r == Issuance.SetPolicyGuard(old(Snapshot()), signers, caller)
      ensures Snapshot() == if r.Ok? then Issuance.SetPolicy(old(Snapshot()), caller, next) else old(Snapshot())
    {
      var env := Snapshot();
      :- RequireNotPaused(env);
      :- RequireAuth(signers, caller);
      :- CheckAdmin(env, caller);
      var previousPolicy := policy;
      policy := next;
      events := events + [PolicyUpdated(caller, previousPolicy, next)];
      return Ok;
    }

    method ProposeCap(signers: set<Address>, kind: CapKind, caller: Address, proposed: i128) returns (r: Outcome)
      modifies this
      ensures r == Caps.ProposeGuard(old(Snapshot()), signers, kind, caller, proposed)
      ensures Snapshot() == if r.Ok? then Caps.Propose(old(Snapshot()), kind, caller, proposed) else old(Snapshot())
    {
      var env := Snapshot();
      :- RequireNotPaused(env);
      :- RequireAuth(signers, caller);
      :- AssertAdmin(env, caller);
      var current := if kind.SupplyCap? then supplyCap else holdingCap;
      if proposed < 0 {
        return Trap(AssertionFailed);
      }
      if proposed == current {
        return Trap(AssertionFailed);
      }
      match kind {
        case SupplyCap => supplyCapCandidate := Some(proposed);
        case HoldingCap => holdingCapCandidate := Some(proposed);
      }
      events := events + [CapProposed(kind, caller, current, proposed)];
      return Ok;
    }

    method AcceptCap(signers: set<Address>, kind: CapKind, caller: Address) returns (r: Outcome)
      modifies this
      ensures r == Caps.PendingGuard(old(Snapshot()), signers, kind, caller)
      ensures r.Ok? ==>
                && old(Snapshot()).Slot(kind).candidate.Some?
                && Snapshot() == Caps.Accept(old(Snapshot()), kind, caller)
      ensures !r.Ok? ==> Snapshot() == old(Snapshot())
    {
      var env := Snapshot();
      :- RequireNotPaused(env);
      :- RequireAuth(signers, caller);
      :- AssertAdmin(env, caller);
      var pending := if kind.SupplyCap? then supplyCapCandidate else holdingCapCandidate;
      if pending.None? {
        return Trap(AssertionFailed);
      }
      var previous := if kind.SupplyCap? then supplyCap else holdingCap;
      match kind {
        case SupplyCap =>
          supplyCapCandidate := None;
          supplyCap := pending.value;
        case HoldingCap =>
          holdingCapCandidate := None;
          holdingCap := pending.value;
      }
      events := events + [CapAmended(kind, caller, previous, pending.value)];
      return Ok;
    }

    method CancelCap(signers: set<Address>, kind: CapKind, caller: Address) returns (r: Outcome)
      modifies this
      ensures r == Caps.PendingGuard(old(Snapshot()), signers, kind, caller)
      ensures Snapshot() == if r.Ok? then Caps.Cancel(old(Snapshot()), kind) else old(Snapshot())
      ensures r.Ok? ==> Snapshot().Slot(kind) == CapSlot(old(Snapshot()).Slot(kind).active, None) && events == old(events)
    {
      var env := Snapshot();
      :- RequireNotPaused(env);
      :- RequireAuth(signers, caller);
      :- AssertAdmin(env, caller);
      var pending := if kind.SupplyCap? then supplyCapCandidate else holdingCapCandidate;
      if pending.None? {
        return Trap(AssertionFailed);
      }
      match kind {
        case SupplyCap => supplyCapCandidate := None;
        case HoldingCap => holdingCapCandidate := None;
      }
      return Ok;
    }

    method ProposeConfig(signers: set<Address>, caller: Address, proposed: ProtocolConfig) returns (r: Outcome)
      modifies this
      ensures r == Config.ProposeGuard(old(Snapshot()), signers, caller, proposed)
      ensures Snapshot() == if r.Ok? then Config.Propose(old(Snapshot()), caller, proposed) else old(Snapshot())
    {
      var env := Snapshot();
      :- RequireNotPaused(env);
      :- RequireAuth(signers, caller);
      :- CheckAdmin(env, caller);
      if proposed.minTransferAmount < 0 {
        return Err(InvalidAmount);
      }
      if proposed.maxBatchSize == 0 {
        return Err(InvalidAmount);
      }
      configCandidate := Some(proposed);
      events := events + [ConfigProposed(caller, proposed)];
      return Ok;
    }

    method AcceptConfig(signers: set<Address>, caller: Address) returns (r: Outcome)
      modifies this
      ensures r == Config.PendingGuard(old(Snapshot()), signers, caller)
      ensures r.Ok? ==> old(configCandidate).Some? && Snapshot() == Config.Accept(old(Snapshot()), caller)
      ensures !r.Ok? ==> Snapshot() == old(Snapshot())
    {
      var env := Snapshot();
      :- RequireNotPaused(env);
      :- RequireAuth(signers, caller);
      :- CheckAdmin(env, caller);
      if configCandidate.None? {
        return Err(NoPendingAdminTransfer);
      }
      var pending := configCandidate.value;
      configCandidate := None;
      config := pending;
      events := events + [ConfigAmended(caller, pending)];
      return Ok;
    }

    method CancelConfig(signers: set<Address>, caller: Address) returns (r: Outcome)
      modifies this
      ensures r == Config.PendingGuard(old(Snapshot()), signers, caller)
      ensures Snapshot() == if r.Ok? then Config.Cancel(old(Snapshot())) else old(Snapshot())
      ensures r.Ok? ==> old(configCandidate).Some? && configCandidate == None && events == old(events)
    {
      var env := Snapshot();
      :- RequireNotPaused(env);
      :- RequireAuth(signers, caller);
      :- CheckAdmin(env, caller);
      if configCandidate.None? {
        return Err(NoPendingAdminTransfer);
      }
      configCandidate := None;
      return Ok;
    }

    // ── The host ────────────────────────────────────────────────────────

    method Administrate(inv: Contract.Invocation) returns (r: Outcome)
      requires Administrative(inv.call)
      modifies this
      ensures Refines(old(Snapshot()), inv, r, Snapshot())
    {
      match inv.call {
        case Initialize(a) => r := Initialize(inv.signers, a);
        case SetRole(a, target, role) => r := SetRole(inv.signers, a, target, role);
        case RemoveRole(a, target) => r := RemoveRole(inv.signers, a, target);
        case TransferAdmin(a, candidate) => r := TransferAdmin(inv.signers, a, candidate);
        case AcceptAdmin(candidate) => r := AcceptAdmin(inv.signers, candidate);
        case RenounceAdmin(a) => r := RenounceAdmin(inv.signers, a);
        case Pause(c) => r := Pause(inv.signers, c);
        case Unpause(c) => r := Unpause(inv.signers, c);
      }
    }

    method Operate(inv: Contract.Invocation) returns (r: Outcome)
      requires Operational(inv.call) && Conserved(Snapshot())
      modifies this
      ensures Refines(old(Snapshot()), inv, r, Snapshot())
    {
      hide Conserved;
      match inv.call {
        case UpdateAssetMetadata(c, m) => r := UpdateAssetMetadata(inv.signers, c, m);
        case MintAsset(a, to, amount) => r := MintAsset(inv.signers, a, to, amount);
        case Transfer(from, to, amount) => r := Transfer(inv.signers, from, to, amount);
        case DistributeYield(a, amount) => r := DistributeYield(inv.signers, a, amount);
        case SetAssetStatus(a, next) => r := SetAssetStatus(inv.signers, a, next);
      }
    }

    method Comply(inv: Contract.Invocation) returns (r: Outcome)
      requires Frames.IsComplianceCall(inv.call)
      modifies this
      ensures Refines(old(Snapshot()), inv, r, Snapshot())
    {
      match inv.call {
        case SetComplianceStatus(c, u, next) => r := SetComplianceStatus(inv.signers, c, u, next);
        case BatchSetComplianceStatus(c, updates) =>
          var count;
          r, count := BatchSetComplianceStatus(inv.signers, c, updates);
        case WhitelistUser(a, u) => r := WhitelistUser(inv.signers, a, u);
        case RevokeWhitelist(a, u) => r := RevokeWhitelist(inv.signers, a, u);
      }
    }

    method Govern(inv: Contract.Invocation) returns (r: Outcome)
      requires !Administrative(inv.call) && !Operational(inv.call) && !Frames.IsComplianceCall(inv.call)
      modifies this
      ensures Refines(old(Snapshot()), inv, r, Snapshot())
    {
      match inv.call {
        case SetIssuerSeparationPolicy(a, next) => r := SetIssuerSeparationPolicy(inv.signers, a, next);
        case ProposeCap(kind, a, cap) => r := ProposeCap(inv.signers, kind, a, cap);
        case AcceptCap(kind, a) => r := AcceptCap(inv.signers, kind, a);
        case CancelCap(kind, a) => r := CancelCap(inv.signers, kind, a);
        case ProposeConfig(a, proposed) => r := ProposeConfig(inv.signers, a, proposed);
        case AcceptConfig(a) => r := AcceptConfig(inv.signers, a);
        case CancelConfig(a) => r := CancelConfig(inv.signers, a);
      }
    }

    method RestoreRegistry(s: State)
      modifies `admin, `adminCandidate, `roles, `paused, `compliance, `whitelist, `approvers, `policy
      ensures admin == s.admin && adminCandidate == s.adminCandidate && roles == s.roles && paused == s.paused
      ensures compliance == s.compliance && whitelist == s.whitelist && approvers == s.approvers
      ensures policy == s.policy
    {
      admin, adminCandidate, roles, paused := s.admin, s.adminCandidate, s.roles, s.paused;
      compliance, whitelist, approvers := s.compliance, s.whitelist, s.approvers;
      policy := s.policy;
    }

    method RestoreAsset(s: State)
      modifies `assetStatus, `balances, `totalSupply, `metadata, `events
      modifies `supplyCap, `supplyCapCandidate, `holdingCap, `holdingCapCandidate, `config, `configCandidate
      ensures assetStatus == s.assetStatus && balances == s.balances && totalSupply == s.totalSupply
      ensures metadata == s.metadata && events == s.log
      ensures CapSlot(supplyCap, supplyCapCandidate) == s.supplyCap
      ensures CapSlot(holdingCap, holdingCapCandidate) == s.holdingCap
      ensures config == s.config && configCandidate == s.configCandidate
    {
      assetStatus, balances, totalSupply := s.assetStatus, s.balances, s.totalSupply;
      metadata, events := s.metadata, s.log;
      supplyCap, supplyCapCandidate := s.supplyCap.active, s.supplyCap.candidate;
      holdingCap, holdingCapCandidate := s.holdingCap.active, s.holdingCap.candidate;
      config, configCandidate := s.config, s.configCandidate;
    }

    method Restore(s: State)
      modifies this
      ensures Snapshot() == s
    {
      RestoreRegistry(s);
      RestoreAsset(s);
    }

    /** One invocation as the host runs it: the effect of a success is kept, everything else
        is rolled back. The object makes exactly the steps of the state machine. */
    method Invoke(inv: Contract.Invocation) returns (r: Outcome)
      requires Inv(Snapshot())
      modifies this
      ensures r == Contract.Guard(old(Snapshot()), inv)
      ensures Snapshot() == Contract.Step(old(Snapshot()), inv)
      ensures Inv(Snapshot())
    {
      hide Contract.Guard, Contract.Effect, Inv;
      var before := Snapshot();
      InvConserved(before);
      if Administrative(inv.call) {
        r := Administrate(inv);
      } else if Operational(inv.call) {
        r := Operate(inv);
      } else if Frames.IsComplianceCall(inv.call) {
        r := Comply(inv);
      } else {
        r := Govern(inv);
      }
      if !r.Ok? {
        Restore(before);
      }
      StepKeepsInv(before, inv);
    }
  }

  predicate Administrative(call: Contract.Call) {
    || call.Initialize? || call.SetRole? || call.RemoveRole? || call.TransferAdmin?
    || call.AcceptAdmin? || call.RenounceAdmin? || call.Pause? || call.Unpause?
  }

  predicate Operational(call: Contract.Call) {
    || call.UpdateAssetMetadata? || call.MintAsset? || call.Transfer? || call.DistributeYield?
    || call.SetAssetStatus?
  }

  /** The method ended as the state machine says; a failure with a code left no trace, even
      before any rollback. */
  predicate Refines(s: State, inv: Contract.Invocation, r: Outcome, t: State) {
    && r == Contract.Guard(s, inv)
    && (r.Ok? ==> t == Contract.Effect(s, inv))
    && (r.Err? || r.Panic? ==> t == s)
    && (!r.Ok? && !(inv.call.MintAsset? && r == Trap(ArithmeticOverflow)) ==> t == s)
  }
}
