/** No lockout: as long as the asset is not retired and the supply has room, whoever holds or
    can take the admin seat can issue to anyone, whatever the pause, policy, statuses and caps. */
module Recovery {
  import opened Types
  import opened Storage
  import opened Contract
  import opened Custody
  import Frames
  import opened Invariants
  import AssetOps
  import Caps
  import TransitionGuards

  predicate SignedBy(invs: seq<Invocation>, a: Address) {
    forall i | 0 <= i < |invs| :: invs[i].signers == {a}
  }

  predicate Ready(s: State, a: Address) {
    s.admin == Some(a) && !s.paused
  }

  function By(a: Address, call: Call): Invocation {
    Invocation(call, {a})
  }

  lemma RunOne(s: State, inv: Invocation)
    ensures Run(s, [inv]) == Step(s, inv)
  {
    hide Step;
    assert [inv] == [] + [inv];
    RunSnoc(s, [], inv);
  }

  lemma RunTwo(s: State, first: Invocation, second: Invocation)
    ensures Run(s, [first, second]) == Step(Step(s, first), second)
  {
    hide Step;
    assert [first, second] == [first] + [second];
    RunOne(s, first);
    RunSnoc(s, [first], second);
  }

  /** Takes the seat if it is empty, and lifts the pause. */
  lemma Seat(s: State, a: Address) returns (invs: seq<Invocation>)
    requires s.admin == Some(a) || (s.admin.None? && !s.paused)
    ensures SignedBy(invs, a)
    ensures var t := Run(s, invs);
            Ready(t, a) && t == s.(admin := t.admin, roles := t.roles, paused := false, log := t.log)
  {
    if s.admin.None? {
      invs := [By(a, Initialize(a))];
      RunOne(s, invs[0]);
    } else if s.paused {
      invs := [By(a, Unpause(a))];
      RunOne(s, invs[0]);
    } else {
      invs := [];
    }
  }

  lemma Relax(s: State, a: Address) returns (invs: seq<Invocation>)
    requires Ready(s, a)
    ensures SignedBy(invs, a)
    ensures var t := Run(s, invs); t == s.(policy := DEFAULT_POLICY, log := t.log)
  {
    invs := [By(a, SetIssuerSeparationPolicy(a, DEFAULT_POLICY))];
    RunOne(s, invs[0]);
  }

  lemma Activate(s: State, a: Address) returns (invs: seq<Invocation>)
    requires Ready(s, a) && s.assetStatus != Retired
    ensures SignedBy(invs, a)
    ensures var t := Run(s, invs); t == s.(assetStatus := Active, log := t.log)
  {
    if s.assetStatus == Active {
      invs := [];
    } else {
      invs := [By(a, SetAssetStatus(a, Active))];
      RunOne(s, invs[0]);
    }
  }

  lemma MoveStatus(s: State, a: Address, r: Address, next: ComplianceStatus)
    requires Ready(s, a) && TransitionGuards.TransitionIsAllowed(s.StatusOf(r), next)
    ensures var t := Step(s, By(a, SetComplianceStatus(a, r, next)));
            && t == s.(compliance := t.compliance, whitelist := t.whitelist, approvers := t.approvers, log := t.log)
            && t.StatusOf(r) == next
            && forall w: Address | w != r :: t.StatusOf(w) == s.StatusOf(w)
  {
  }

  /** From Blocked the way to Approved leads through Pending. */
  lemma Clear(s: State, a: Address, r: Address) returns (invs: seq<Invocation>)
    requires Ready(s, a)
    ensures SignedBy(invs, a)
    ensures var t := Run(s, invs);
            && t == s.(compliance := t.compliance, whitelist := t.whitelist, approvers := t.approvers, log := t.log)
            && t.StatusOf(r) == Approved
            && forall w: Address | w != r :: t.StatusOf(w) == s.StatusOf(w)
  {
    hide Step;
    var approve := By(a, SetComplianceStatus(a, r, Approved));
    if s.StatusOf(r) == Approved {
      invs := [];
    } else if s.StatusOf(r) == ComplianceStatus.Blocked {
      var review := By(a, SetComplianceStatus(a, r, Pending));
      invs := [review, approve];
      MoveStatus(s, a, r, Pending);
      MoveStatus(Step(s, review), a, r, Approved);
      RunTwo(s, review, approve);
    } else {
      invs := [approve];
      MoveStatus(s, a, r, Approved);
      RunOne(s, approve);
    }
  }

  lemma ProposeStep(s: State, kind: CapKind, a: Address)
    requires Ready(s, a) && s.Slot(kind).active != 0
    ensures Step(s, By(a, ProposeCap(kind, a, 0))) == Caps.Propose(s, kind, a, 0)
  {
  }

  lemma AcceptStep(s: State, kind: CapKind, a: Address)
    requires Ready(s, a) && s.Slot(kind).candidate.Some?
    ensures Step(s, By(a, AcceptCap(kind, a))) == Caps.Accept(s, kind, a)
  {
  }

  lemma Uncap(s: State, kind: CapKind, a: Address) returns (invs: seq<Invocation>)
    requires Ready(s, a)
    ensures SignedBy(invs, a)
    ensures var t := Run(s, invs);
            t == s.WithSlot(kind, t.Slot(kind)).(log := t.log) && t.Slot(kind).active == 0
  {
    hide Step;
    if s.Slot(kind).active == 0 {
      invs := [];
    } else {
      invs := [By(a, ProposeCap(kind, a, 0)), By(a, AcceptCap(kind, a))];
      ProposeStep(s, kind, a);
      AcceptStep(Step(s, invs[0]), kind, a);
      RunTwo(s, invs[0], invs[1]);
    }
  }

  lemma Chain(s: State, a: Address, done: seq<Invocation>, more: seq<Invocation>) returns (invs: seq<Invocation>)
    requires SignedBy(done, a) && SignedBy(more, a)
    ensures invs == done + more && SignedBy(invs, a)
    ensures Run(s, invs) == Run(Run(s, done), more)
  {
    hide Step;
    invs := done + more;
    RunConcat(s, done, more);
  }

  /** Calls of `a` alone that open the way for `a` to mint to `r`, moving no value. */
  lemma Prepare(s: State, a: Address, r: Address) returns (invs: seq<Invocation>)
    requires s.admin == Some(a) || (s.admin.None? && !s.paused)
    requires s.assetStatus != Retired
    ensures SignedBy(invs, a)
    ensures var t := Run(s, invs);
            && Ready(t, a)
            && t.policy == DEFAULT_POLICY
            && t.assetStatus == Active
            && t.StatusOf(r) == Approved
            && t.supplyCap.active == 0 && t.holdingCap.active == 0
            && t.balances == s.balances && t.totalSupply == s.totalSupply
  {
    hide Run, Step;
    invs := Seat(s, a);
    var more := Relax(Run(s, invs), a);
    invs := Chain(s, a, invs, more);
    more := Activate(Run(s, invs), a);
    invs := Chain(s, a, invs, more);
    more := Clear(Run(s, invs), a, r);
    invs := Chain(s, a, invs, more);
    more := Uncap(Run(s, invs), SupplyCap, a);
    invs := Chain(s, a, invs, more);
    more := Uncap(Run(s, invs), HoldingCap, a);
    invs := Chain(s, a, invs, more);
  }

  /** Invocation `inv` mints `amount` to `r` after the run. */
  predicate MintsAfter(s: State, invs: seq<Invocation>, inv: Invocation, r: Address, amount: i128) {
    inv.call.MintAsset? && inv.call.to == r && inv.call.amount == amount && Guard(Run(s, invs), inv).Ok?
  }

  lemma PreparedMint(s: State, a: Address, r: Address, amount: i128)
    requires Conserved(s) && Ready(s, a)
    requires s.policy == DEFAULT_POLICY && s.assetStatus == Active && s.StatusOf(r) == Approved
    requires s.supplyCap.active == 0 && s.holdingCap.active == 0
    requires amount >= 1 && s.totalSupply + amount <= I128_MAX
    ensures AssetOps.MintGuard(s, {a}, a, r, amount).Ok?
  {
    hide Conserved, AssetOps.MintGuard;
    ConservedBounds(s, r);
    AssetOps.MintGuardIff(s, {a}, a, r, amount);
  }

  /** The admin (or, after a renunciation, anyone who signs) can issue, alone. */
  lemma NoLockout(s: State, a: Address, r: Address, amount: i128) returns (invs: seq<Invocation>)
    requires Reachable(s) && (s.admin == Some(a) || s.admin.None?)
    requires s.assetStatus != Retired && amount >= 1 && s.totalSupply + amount <= I128_MAX
    ensures SignedBy(invs, a)
    ensures MintsAfter(s, invs, By(a, MintAsset(a, r, amount)), r, amount)
    ensures var t := Run(s, invs + [By(a, MintAsset(a, r, amount))]);
            t.balances == s.balances[r := s.BalanceOf(r) + amount] && t.totalSupply == s.totalSupply + amount
  {
    hide Step, Run, AssetOps.MintGuard, Conserved;
    ReachableInv(s);
    invs := Prepare(s, a, r);
    var t := Run(s, invs);
    RunKeepsInv(s, invs);
    PreparedMint(t, a, r, amount);
    var mint := By(a, MintAsset(a, r, amount));
    Frames.MintStep(t, mint);
    RunSnoc(s, invs, mint);
  }

  /** A mint of `amount` to `r` can still happen, by any run and any caller, iff the amount is
      positive, the asset is not retired, and the supply has room for it. */
  lemma MintStillPossibleIff(s: State, r: Address, amount: i128)
    requires Reachable(s)
    ensures (exists invs: seq<Invocation>, inv: Invocation :: MintsAfter(s, invs, inv, r, amount)) <==>
            amount >= 1 && s.assetStatus != Retired && s.totalSupply + amount <= I128_MAX
  {
    hide Step, Run, AssetOps.MintGuard, MintsAfter;
    if amount >= 1 && s.assetStatus != Retired && s.totalSupply + amount <= I128_MAX {
      var a := if s.admin.Some? then s.admin.value else r;
      var invs := NoLockout(s, a, r, amount);
      assert MintsAfter(s, invs, By(a, MintAsset(a, r, amount)), r, amount);
    }
    forall invs: seq<Invocation>, inv: Invocation | MintsAfter(s, invs, inv, r, amount)
      ensures amount >= 1 && s.assetStatus != Retired && s.totalSupply + amount <= I128_MAX
    {
      MintNeedsRoom(s, invs, inv, r, amount);
    }
  }

  lemma MintNeedsRoom(s: State, invs: seq<Invocation>, inv: Invocation, r: Address, amount: i128)
    requires MintsAfter(s, invs, inv, r, amount)
    ensures amount >= 1 && s.assetStatus != Retired && s.totalSupply + amount <= I128_MAX
  {
    hide Step, Run, AssetOps.MintGuard;
    AssetOps.MintGuardIff(Run(s, invs), inv.signers, inv.call.admin, r, amount);
    SupplyOnlyGrows(s, invs);
    if s.assetStatus == Retired {
      RetiredForever(s, invs);
    }
  }

  /** Renouncing is documented as irreversible. It is not: initialisation succeeds for any
      signer exactly when no admin is stored, which is what renouncing leaves behind. */
  lemma RenunciationIsReversible(s: State, a: Address, b: Address)
    requires Ready(s, a)
    ensures var t := Step(s, By(a, RenounceAdmin(a)));
            && t.admin == None
            && Step(t, By(b, Initialize(b))).admin == Some(b)
    ensures Guard(s, By(b, Initialize(b))).Ok? <==> s.admin.None?
  {
  }
}
