/** Pre-flight evaluation of transfers and mints, and its mapping to errors. */
module Restrictions {
  import opened Types
  import opened Storage

  datatype Reason =
    | Unrestricted
    | UnauthorizedOperation
    | ContractIsPaused
    | AssetPaused
    | AssetRetired
    | AssetBlocked
    | SenderNotCompliant
    | RecipientNotCompliant
    | AmountNotPositive
    | BalanceTooLow
    | HoldingCapBreached
    | SupplyCapBreached

  /** A reason, or the arithmetic trap of the addition in a cap check. */
  datatype Evaluation = Verdict(reason: Reason) | Traps

  /** Announced as blocked for good: no retry can ever succeed. */
  predicate IsTerminal(r: Reason) {
    r.AssetRetired?
  }

  function ErrorForReason(r: Reason): Option<Error> {
    match r
    case Unrestricted => None
    case UnauthorizedOperation => Some(Unauthorized)
    case ContractIsPaused => Some(Error.ContractPaused)
    case AssetPaused => Some(AssetPausedRestriction)
    case AssetRetired => Some(AssetRetiredRestriction)
    case AssetBlocked => Some(AssetBlockedRestriction)
    case SenderNotCompliant => Some(SenderNotWhitelisted)
    case RecipientNotCompliant => Some(ReceiverNotWhitelisted)
    case AmountNotPositive => Some(InvalidAmount)
    case BalanceTooLow => Some(InsufficientBalance)
    case HoldingCapBreached => Some(HoldingCapExceeded)
    case SupplyCapBreached => Some(SupplyCapExceeded)
  }

  /** Recovers the reason from an observed error; errors that are no movement restriction
      have none. */
  function ReasonForError(e: Error): Option<Reason> {
    match e
    case Unauthorized => Some(UnauthorizedOperation)
    case ContractPaused => Some(ContractIsPaused)
    case AssetPausedRestriction => Some(AssetPaused)
    case AssetRetiredRestriction => Some(AssetRetired)
    case AssetBlockedRestriction => Some(AssetBlocked)
    case SenderNotWhitelisted => Some(SenderNotCompliant)
    case ReceiverNotWhitelisted => Some(RecipientNotCompliant)
    case InvalidAmount => Some(AmountNotPositive)
    case InsufficientBalance => Some(BalanceTooLow)
    case HoldingCapExceeded => Some(HoldingCapBreached)
    case SupplyCapExceeded => Some(SupplyCapBreached)
    case _ => None
  }

  /** The two mappings are inverse: no reason is lost and no error is misread. */
  lemma ReasonsRoundTrip(r: Reason, e: Error)
    ensures ErrorForReason(r) == Some(e) <==> ReasonForError(e) == Some(r)
    ensures ErrorForReason(r) == None <==> r == Unrestricted
  {
  }

  function AssetStatusReason(status: AssetStatus): Reason {
    match status
    case Active => Unrestricted
    case Draft => AssetBlocked
    case Paused => AssetPaused
    case Retired => AssetRetired
    case Blocked => AssetBlocked
  }

  /** The movement check of mint and transfer: an error specific to the status. */
  function RequireAssetMovable(s: State): Outcome {
    match ErrorForReason(AssetStatusReason(s.assetStatus))
    case None => Ok
    case Some(e) => Err(e)
  }

  predicate CanMint(s: State, caller: Address) {
    s.admin.Some? && (caller == s.admin.value || s.RoleOf(caller) == AssetManager)
  }

  function EvaluateTransfer(s: State, from: Address, to: Address, amount: i128): Evaluation {
    var status := AssetStatusReason(s.assetStatus);
    var cap := s.holdingCap.active;
    if s.paused then Verdict(ContractIsPaused)
    else if amount <= 0 then Verdict(AmountNotPositive)
    else if status != Unrestricted then Verdict(status)
    else if !s.IsWhitelisted(from) then Verdict(SenderNotCompliant)
    else if !s.IsWhitelisted(to) then Verdict(RecipientNotCompliant)
    else if cap > 0 && CheckedAdd(s.BalanceOf(to), amount).None? then Traps
    else if cap > 0 && s.BalanceOf(to) + amount > cap then Verdict(HoldingCapBreached)
    else if s.BalanceOf(from) < amount then Verdict(BalanceTooLow)
    else Verdict(Unrestricted)
  }

  function EvaluateMint(s: State, caller: Address, to: Address, amount: i128): Evaluation {
    var status := AssetStatusReason(s.assetStatus);
    var supplyCap, holdingCap := s.supplyCap.active, s.holdingCap.active;
    if s.paused then Verdict(ContractIsPaused)
    else if !CanMint(s, caller) then Verdict(UnauthorizedOperation)
    else if amount <= 0 then Verdict(AmountNotPositive)
    else if status != Unrestricted then Verdict(status)
    else if !s.IsWhitelisted(to) then Verdict(RecipientNotCompliant)
    else if supplyCap > 0 && CheckedAdd(s.totalSupply, amount).None? then Traps
    else if supplyCap > 0 && s.totalSupply + amount > supplyCap then Verdict(SupplyCapBreached)
    else if holdingCap > 0 && CheckedAdd(s.BalanceOf(to), amount).None? then Traps
    else if holdingCap > 0 && s.BalanceOf(to) + amount > holdingCap then Verdict(HoldingCapBreached)
    else Verdict(Unrestricted)
  }
}
