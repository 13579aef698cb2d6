/** The read-only eligibility snapshot of one investor. */
module Eligibility {
  import opened Types
  import opened Storage
  import Restrictions

  datatype InvestorEligibility = InvestorEligibility(
    whitelisted: bool,
    complianceStatus: ComplianceStatus,
    contractPaused: bool,
    balance: int,
    holdingCap: i128,
    remainingCapacity: Option<int>,
    assetStatus: AssetStatus,
    canReceive: bool,
    canSend: bool)

  function Max(a: int, b: int): int {
    if a < b then b else a
  }

  function InvestorSnapshot(s: State, investor: Address): InvestorEligibility {
    var whitelisted := s.IsWhitelisted(investor);
    var balance := s.BalanceOf(investor);
    var cap := s.holdingCap.active;
    var operable := s.assetStatus == Active;
    InvestorEligibility(
      whitelisted, s.StatusOf(investor), s.paused, balance, cap,
      if cap <= 0 then None else Some(Max(cap - balance, 0)),
      s.assetStatus,
      whitelisted && !s.paused && operable && (cap <= 0 || balance < cap),
      whitelisted && !s.paused && operable && balance > 0)
  }

  /** Whether the transfer evaluator answers "unrestricted"; None when it traps. */
  function CheckTransferEligibility(s: State, from: Address, to: Address, amount: i128): Option<bool> {
    match Restrictions.EvaluateTransfer(s, from, to, amount)
    case Traps => None
    case Verdict(reason) => Some(reason == Restrictions.Unrestricted)
  }
}
