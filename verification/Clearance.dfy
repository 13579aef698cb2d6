/** What a committed legacy call leaves behind, told by the ledger before and after it. */
module Clearance {
  import opened Types
  import opened Storage
  import opened Contract
  import opened AuditTrail
  import opened Invariants

  /** Nothing but the compliance entries of u, and the log, differs. */
  ghost predicate TouchesOnly(s: State, t: State, u: Address) {
    && SameButCompliance(s, t)
    && forall w: Address | w != u ::
         && t.StatusOf(w) == s.StatusOf(w)
         && (w in t.whitelist <==> w in s.whitelist)
         && (w in t.approvers <==> w in s.approvers)
         && (w in s.approvers ==> t.approvers[w] == s.approvers[w])
  }

  /** After a committed approval the user is Approved, whatever its status was (it was not
      Blocked); the caller becomes the approver iff this call approved it. */
  lemma WhitelistCommitted(s: State, signers: set<Address>, c: Address, u: Address)
    requires Reachable(s) && Guard(s, Invocation(WhitelistUser(c, u), signers)).Ok?
    ensures var t := Step(s, Invocation(WhitelistUser(c, u), signers));
            && s.StatusOf(u) != ComplianceStatus.Blocked
            && t.StatusOf(u) == Approved
            && u in t.whitelist
            && u in t.approvers
            && t.approvers[u] == (if s.StatusOf(u) == Approved then s.approvers[u] else c)
            && TouchesOnly(s, t, u)
            && t.log ==
               s.log
               + (if s.StatusOf(u) == Approved then [] else [ComplianceStatusChanged(c, u, s.StatusOf(u), Approved)])
               + [UserWhitelisted(c, u)]
  {
    ReachableCompliance(s);
  }

  /** After a committed revocation whoever was Pending or Approved is Revoked and everybody else
      is as before; the approver record stays. */
  lemma RevocationCommitted(s: State, signers: set<Address>, c: Address, u: Address)
    requires Reachable(s) && Guard(s, Invocation(RevokeWhitelist(c, u), signers)).Ok?
    ensures var t := Step(s, Invocation(RevokeWhitelist(c, u), signers));
            var moves := s.StatusOf(u) in {Pending, Approved};
            && t.StatusOf(u) == (if moves then Revoked else s.StatusOf(u))
            && u !in t.whitelist
            && t.approvers == s.approvers
            && TouchesOnly(s, t, u)
            && t.log ==
               s.log
               + (if moves then [ComplianceStatusChanged(c, u, s.StatusOf(u), Revoked)] else [])
               + [WhitelistRevoked(c, u)]
  {
    ReachableCompliance(s);
  }

  /** A committed status change is exactly the requested one. */
  lemma ChangeCommitted(s: State, signers: set<Address>, c: Address, u: Address, next: ComplianceStatus)
    requires Guard(s, Invocation(SetComplianceStatus(c, u, next), signers)).Ok?
    ensures var t := Step(s, Invocation(SetComplianceStatus(c, u, next), signers));
            && t.StatusOf(u) == next != s.StatusOf(u)
            && (u in t.whitelist <==> next == Approved)
            && (if next == Approved then u in t.approvers && t.approvers[u] == c else t.approvers == s.approvers)
            && TouchesOnly(s, t, u)
            && t.log == s.log + [ComplianceStatusChanged(c, u, s.StatusOf(u), next)]
  {
  }

  lemma ReachableCompliance(s: State)
    requires Reachable(s)
    ensures ComplianceSound(s)
  {
    hide Conserved, Step;
    ReachableInv(s);
  }
}
