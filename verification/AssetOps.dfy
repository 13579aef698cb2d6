/** Value movement: minting, transfers, the yield event, and asset metadata. */
module AssetOps {
  import opened Types
  import opened Storage
  import opened AccessControl
  import opened Compliance
  import opened Issuance
  import opened Restrictions
  import Caps

  function UpdateMetadataGuard(s: State, signers: set<Address>, caller: Address): Outcome {
    RequireNotPaused(s)
    .Then(RequireAuth(signers, caller))
    .Then(RequireRole(s, caller, AssetManager))
    .Then(if s.assetStatus in {AssetStatus.Retired, AssetStatus.Blocked} then Err(AssetMetadataUpdateBlocked) else Ok)
  }

  function UpdateMetadata(s: State, caller: Address, metadata: Metadata): State {
    s.(metadata := metadata).Emit(MetadataUpdated(caller, metadata))
  }

  /** Everything a mint checks before its first write. */
  function MintChecks(s: State, signers: set<Address>, admin: Address, to: Address, amount: i128): Outcome {
    RequireNotPaused(s)
    .Then(RequireAuth(signers, admin))
    .Then(RequireRole(s, admin, AssetManager))
    .Then(RequireIssuanceAuthority(s, admin, Some(to)))
    .Then(if amount <= 0 then Err(InvalidAmount) else Ok)
    .Then(RequireAssetMovable(s))
    .Then(RequireCanReceive(s, to))
    .Then(Caps.EnforceSupplyCap(s, amount))
    .Then(Caps.EnforceHoldingCap(s, to, amount))
  }

  /** The two additions can still overflow after the checks. */
  function MintGuard(s: State, signers: set<Address>, admin: Address, to: Address, amount: i128): Outcome {
    MintChecks(s, signers, admin, to, amount)
    .Then(if FitsI128(s.BalanceOf(to) + amount) && FitsI128(s.totalSupply + amount)
          then Ok
          else Trap(ArithmeticOverflow))
  }

  /** The conditions of a successful mint, free of any order. */
  lemma MintGuardIff(s: State, signers: set<Address>, admin: Address, to: Address, amount: i128)
    ensures MintGuard(s, signers, admin, to, amount).Ok? <==>
            && !s.paused
            && admin in signers
            && CanMint(s, admin)
            && EvaluateIssuance(s, admin, Some(to)) == IssuanceGuard.Allowed
            && amount > 0
            && s.assetStatus == Active
            && s.StatusOf(to) == Approved
            && FitsI128(s.totalSupply + amount)
            && FitsI128(s.BalanceOf(to) + amount)
            && (s.supplyCap.active > 0 ==> s.totalSupply + amount <= s.supplyCap.active)
            && (s.holdingCap.active > 0 ==> s.BalanceOf(to) + amount <= s.holdingCap.active)
  {
  }

  function Mint(s: State, admin: Address, to: Address, amount: i128): State {
    var supply := s.totalSupply + amount;
    s.(balances := s.balances[to := s.BalanceOf(to) + amount], totalSupply := supply)
    .Emit(AssetMinted(admin, to, amount, supply))
  }

  function TransferChecks(s: State, signers: set<Address>, from: Address, to: Address, amount: i128): Outcome {
    RequireNotPaused(s)
    .Then(RequireAuth(signers, from))
    .Then(if amount <= 0 then Err(InvalidAmount) else Ok)
    .Then(RequireAssetMovable(s))
    .Then(RequireCanSend(s, from))
    .Then(RequireCanReceive(s, to))
    .Then(Caps.EnforceHoldingCap(s, to, amount))
    .Then(if s.BalanceOf(from) < amount then Err(InsufficientBalance) else Ok)
  }

  function Debited(s: State, from: Address, amount: i128): State {
    s.(balances := s.balances[from := s.BalanceOf(from) - amount])
  }

  function TransferGuard(s: State, signers: set<Address>, from: Address, to: Address, amount: i128): Outcome {
    TransferChecks(s, signers, from, to, amount)
    .Then(if FitsI128(s.BalanceOf(from) - amount) && FitsI128(Debited(s, from, amount).BalanceOf(to) + amount)
          then Ok
          else Trap(ArithmeticOverflow))
  }

  lemma TransferGuardIff(s: State, signers: set<Address>, from: Address, to: Address, amount: i128)
    ensures TransferGuard(s, signers, from, to, amount).Ok? <==>
            && !s.paused
            && from in signers
            && amount > 0
            && s.assetStatus == Active
            && s.StatusOf(from) == Approved
            && s.StatusOf(to) == Approved
            && (s.holdingCap.active > 0 ==> s.BalanceOf(to) + amount <= s.holdingCap.active)
            && (s.holdingCap.active > 0 ==> FitsI128(s.BalanceOf(to) + amount))
            && amount <= s.BalanceOf(from)
            && FitsI128(s.BalanceOf(from) - amount)
            && FitsI128(Debited(s, from, amount).BalanceOf(to) + amount)
  {
  }

  /** The receiver's balance is read after the debit, so a self-transfer nets to zero. */
  function Transfer(s: State, from: Address, to: Address, amount: i128): State {
    var debited := Debited(s, from, amount);
    debited.(balances := debited.balances[to := debited.BalanceOf(to) + amount])
    .Emit(Transferred(from, to, amount))
  }

  function YieldGuard(s: State, signers: set<Address>, admin: Address, amount: i128): Outcome {
    RequireNotPaused(s)
    .Then(RequireAuth(signers, admin))
    .Then(RequireRole(s, admin, AssetManager))
    .Then(RequireIssuanceAuthority(s, admin, None))
    .Then(if amount <= 0 then Err(InvalidAmount) else Ok)
  }

  function DistributeYield(s: State, admin: Address, amount: i128): State {
    s.Emit(YieldDistributed(admin, amount))
  }
}
