/** A compliance batch commits exactly when every row of its pre-flight report is allowed,
    and then does what the same rows do one by one, in any order. */
module Batch {
  import opened Types
  import opened Storage
  import opened Contract
  import opened TransitionGuards
  import opened AuditTrail
  import opened Compliance

  predicate NoDuplicates(updates: seq<BatchUpdate>) {
    forall i, j | 0 <= i < j < |updates| :: updates[i].user != updates[j].user
  }

  // ── The batch against its pre-flight report ───────────────────────────

  /** What a signed submission of row i alone would meet; a repeated user is refused outright. */
  function RowOutcome(s: State, caller: Address, updates: seq<BatchUpdate>, i: nat): Outcome
    requires i < |updates|
  {
    if IsDuplicateAt(updates, i) then Err(InvalidComplianceTransition)
    else Guard(s, Invocation(SetComplianceStatus(caller, updates[i].user, updates[i].newStatus), {caller}))
  }

  lemma RowIsEnforced(s: State, caller: Address, updates: seq<BatchUpdate>, i: nat)
    requires i < |updates|
    ensures !s.paused ==> EnforceRow(s, caller, updates, i) == RowOutcome(s, caller, updates, i)
    ensures EnforceRow(s, caller, updates, i).Ok? <==> CheckRow(s, caller, updates, i).allowed
    ensures var r := EnforceRow(s, caller, updates, i);
            && (r.Ok? || r.Err? || r.Panic?)
            && (!r.Ok? ==> CheckRow(s, caller, updates, i).errorCode == Some(r.error.Code()))
  {
  }

  lemma PrefixRow(s: State, caller: Address, updates: seq<BatchUpdate>, n: nat, i: nat)
    requires i < n <= |updates|
    ensures EnforceRow(s, caller, updates[..n], i) == EnforceRow(s, caller, updates, i)
  {
    assert forall k | 0 <= k <= i :: updates[..n][k] == updates[k];
  }

  /** The scan stops at the first row that is not allowed. */
  lemma {:induction false} ScanFindsFirst(s: State, caller: Address, updates: seq<BatchUpdate>)
    ensures ScanBatch(s, caller, updates).Ok? <==>
            forall i | 0 <= i < |updates| :: EnforceRow(s, caller, updates, i).Ok?
    ensures forall i | 0 <= i < |updates| && !EnforceRow(s, caller, updates, i).Ok? &&
                       (forall k | 0 <= k < i :: EnforceRow(s, caller, updates, k).Ok?) ::
              ScanBatch(s, caller, updates) == EnforceRow(s, caller, updates, i)
  {
    hide EnforceRow;
    if |updates| != 0 {
      var last := |updates| - 1;
      var front := updates[..last];
      ScanFindsFirst(s, caller, front);
      forall i | 0 <= i < last
        ensures EnforceRow(s, caller, front, i) == EnforceRow(s, caller, updates, i)
      {
        PrefixRow(s, caller, updates, last, i);
      }
    }
  }

  lemma BatchOutcome(s: State, signers: set<Address>, caller: Address, updates: seq<BatchUpdate>)
    requires |updates| > 0 && caller in signers
    ensures BatchGuard(s, signers, caller, updates) == ScanBatch(s, caller, updates)
  {
    ScanFindsFirst(s, caller, updates);
    if s.paused {
      assert EnforceRow(s, caller, updates, 0) == Panic(Error.ContractPaused);
    }
  }

  /** A signed, non-empty batch succeeds iff every row is allowed; otherwise it fails as the first
      row that is not would fail on its own, with the code its report announces. */
  lemma BatchAgreement(s: State, signers: set<Address>, caller: Address, updates: seq<BatchUpdate>)
    requires |updates| > 0 && caller in signers
    ensures var outcome := Guard(s, Invocation(BatchSetComplianceStatus(caller, updates), signers));
            && (outcome.Ok? <==> forall i | 0 <= i < |updates| :: CheckRow(s, caller, updates, i).allowed)
            && forall i | FirstRefused(s, caller, updates, i) ::
                 && outcome == RowOutcome(s, caller, updates, i)
                 && (outcome.Err? || outcome.Panic?)
                 && CheckRow(s, caller, updates, i).errorCode == Some(outcome.error.Code())
  {
    hide Guard, EnforceRow, ScanBatch, CheckRow, RowOutcome;
    BatchOutcomeIsGuard(s, signers, caller, updates);
    BatchOutcome(s, signers, caller, updates);
    ScanFindsFirst(s, caller, updates);
    forall i | 0 <= i < |updates|
      ensures EnforceRow(s, caller, updates, i).Ok? <==> CheckRow(s, caller, updates, i).allowed
    {
      RowIsEnforced(s, caller, updates, i);
    }
    forall i | FirstRefused(s, caller, updates, i)
      ensures ScanBatch(s, caller, updates) == RowOutcome(s, caller, updates, i)
      ensures RowOutcome(s, caller, updates, i).Err? || RowOutcome(s, caller, updates, i).Panic?
      ensures CheckRow(s, caller, updates, i).errorCode == Some(RowOutcome(s, caller, updates, i).error.Code())
    {
      RowIsEnforced(s, caller, updates, i);
      if s.paused {
        PausedRow(s, caller, updates);
      }
    }
  }

  lemma PausedRow(s: State, caller: Address, updates: seq<BatchUpdate>)
    requires s.paused && |updates| > 0
    ensures EnforceRow(s, caller, updates, 0) == RowOutcome(s, caller, updates, 0) == Panic(Error.ContractPaused)
    ensures !CheckRow(s, caller, updates, 0).allowed
  {
  }

  lemma BatchOutcomeIsGuard(s: State, signers: set<Address>, caller: Address, updates: seq<BatchUpdate>)
    ensures Guard(s, Invocation(BatchSetComplianceStatus(caller, updates), signers)) ==
            BatchGuard(s, signers, caller, updates)
  {
    hide BatchGuard;
  }

  predicate FirstRefused(s: State, caller: Address, updates: seq<BatchUpdate>, i: int) {
    && 0 <= i < |updates|
    && !CheckRow(s, caller, updates, i).allowed
    && forall k | 0 <= k < i :: CheckRow(s, caller, updates, k).allowed
  }

  /** Even an empty batch, which nobody's authority is checked for, fails while paused. */
  lemma EmptyBatch(s: State, signers: set<Address>, caller: Address)
    requires caller in signers
    ensures BatchGuard(s, signers, caller, []) == if s.paused then Panic(Error.ContractPaused) else Ok
    ensures ApplyBatch(s, caller, []) == s
  {
  }

  // ── The batch against its rows one by one ─────────────────────────────

  function Rows(caller: Address, signers: set<Address>, updates: seq<BatchUpdate>): seq<Invocation> {
    seq(|updates|, i requires 0 <= i < |updates| =>
      Invocation(SetComplianceStatus(caller, updates[i].user, updates[i].newStatus), signers))
  }

  /** In input order the rows end in the very same state, log included. */
  lemma {:induction false} BatchIsSequence(s: State, signers: set<Address>, caller: Address, updates: seq<BatchUpdate>)
    requires BatchGuard(s, signers, caller, updates).Ok?
    ensures Run(s, Rows(caller, signers, updates)) == ApplyBatch(s, caller, updates)
  {
    if |updates| != 0 {
      var front, last := updates[..|updates| - 1], updates[|updates| - 1];
      BatchIsSequence(s, signers, caller, front);
      var row := Invocation(SetComplianceStatus(caller, last.user, last.newStatus), signers);
      assert Rows(caller, signers, updates) == Rows(caller, signers, front) + [row];
      RunSnoc(s, Rows(caller, signers, front), row);
      BatchRowUnmoved(s, caller, updates);
      BatchFrame(s, caller, front);
      RowSteps(s, ApplyBatch(s, caller, front), signers, caller, last);
    }
  }

  lemma RowSteps(s: State, t: State, signers: set<Address>, caller: Address, row: BatchUpdate)
    requires !t.paused && caller in signers
    requires RequireTransition(t, caller, t.StatusOf(row.user), row.newStatus).Ok?
    requires t.StatusOf(row.user) == s.StatusOf(row.user)
    ensures Step(t, Invocation(SetComplianceStatus(caller, row.user, row.newStatus), signers)) ==
            ApplyTransition(t, caller, row.user, s.StatusOf(row.user), row.newStatus)
  {
  }

  // ── Order independence ────────────────────────────────────────────────

  /** The compliance entries after the rows, described by the set of rows alone. */
  ghost predicate Carries(s: State, caller: Address, rows: set<BatchUpdate>, t: State) {
    && SameButCompliance(s, t)
    && CarriesStatuses(s.compliance, rows, t.compliance)
    && CarriesFlags(s.whitelist, rows, t.whitelist)
    && CarriesApprovers(s.approvers, caller, rows, t.approvers)
  }

  ghost predicate CarriesStatuses(
    before: map<Address, ComplianceStatus>, rows: set<BatchUpdate>, after: map<Address, ComplianceStatus>)
  {
    && (forall r | r in rows :: r.user in after && after[r.user] == r.newStatus)
    && (forall u: Address | Untouched(rows, u) ::
          (u in after <==> u in before) && (u in before ==> after[u] == before[u]))
  }

  ghost predicate CarriesFlags(before: set<Address>, rows: set<BatchUpdate>, after: set<Address>) {
    && (forall r | r in rows :: r.user in after <==> r.newStatus == Approved)
    && (forall u: Address | Untouched(rows, u) :: u in after <==> u in before)
  }

  ghost predicate CarriesApprovers(
    before: map<Address, Address>, caller: Address, rows: set<BatchUpdate>, after: map<Address, Address>)
  {
    && (forall r | r in rows && r.newStatus == Approved :: r.user in after && after[r.user] == caller)
    && (forall u: Address | Unapproved(rows, u) ::
          (u in after <==> u in before) && (u in before ==> after[u] == before[u]))
  }

  predicate Untouched(rows: set<BatchUpdate>, u: Address) {
    forall r | r in rows :: r.user != u
  }

  predicate Unapproved(rows: set<BatchUpdate>, u: Address) {
    forall r | r in rows :: r.user == u ==> r.newStatus != Approved
  }

  function RowSet(updates: seq<BatchUpdate>): set<BatchUpdate> {
    set r | r in updates
  }

  lemma UntouchedByMore(rows: set<BatchUpdate>, row: BatchUpdate, u: Address)
    ensures Untouched(rows + {row}, u) <==> Untouched(rows, u) && u != row.user
    ensures Unapproved(rows + {row}, u) <==> Unapproved(rows, u) && (u == row.user ==> row.newStatus != Approved)
  {
    assert row in rows + {row};
    assert forall r | r in rows :: r in rows + {row};
  }

  lemma OneMoreRow(
    rows: set<BatchUpdate>, row: BatchUpdate, caller: Address,
    c: map<Address, ComplianceStatus>, c': map<Address, ComplianceStatus>,
    w: set<Address>, w': set<Address>, a: map<Address, Address>, a': map<Address, Address>)
    requires Untouched(rows, row.user)
    requires CarriesStatuses(c, rows, c') && CarriesFlags(w, rows, w') && CarriesApprovers(a, caller, rows, a')
    ensures CarriesStatuses(c, rows + {row}, c'[row.user := row.newStatus])
    ensures CarriesFlags(w, rows + {row}, if row.newStatus.Approved? then w' + {row.user} else w' - {row.user})
    ensures CarriesApprovers(a, caller, rows + {row}, if row.newStatus.Approved? then a'[row.user := caller] else a')
  {
    forall u: Address
      ensures Untouched(rows + {row}, u) <==> Untouched(rows, u) && u != row.user
      ensures Unapproved(rows + {row}, u) <==> Unapproved(rows, u) && (u == row.user ==> row.newStatus != Approved)
    {
      UntouchedByMore(rows, row, u);
    }
    hide Unapproved;
  }

  lemma TransitionWrites(s: State, caller: Address, user: Address, previous: ComplianceStatus, next: ComplianceStatus)
    ensures var t := ApplyTransition(s, caller, user, previous, next);
            && t.compliance == s.compliance[user := next]
            && t.whitelist == (if next.Approved? then s.whitelist + {user} else s.whitelist - {user})
            && t.approvers == (if next.Approved? then s.approvers[user := caller] else s.approvers)
  {
  }

  lemma CarriesOneMore(s: State, caller: Address, rows: set<BatchUpdate>, t: State, row: BatchUpdate, previous: ComplianceStatus)
    requires Carries(s, caller, rows, t) && Untouched(rows, row.user)
    ensures Carries(s, caller, rows + {row}, ApplyTransition(t, caller, row.user, previous, row.newStatus))
  {
    hide CarriesStatuses, CarriesFlags, CarriesApprovers, ApplyTransition;
    OneMoreRow(rows, row, caller, s.compliance, t.compliance, s.whitelist, t.whitelist, s.approvers, t.approvers);
    TransitionWrites(t, caller, row.user, previous, row.newStatus);
    TransitionFrame(t, caller, row.user, previous, row.newStatus);
  }

  lemma {:induction false} BatchCarries(s: State, caller: Address, updates: seq<BatchUpdate>)
    requires NoDuplicates(updates)
    ensures Carries(s, caller, RowSet(updates), ApplyBatch(s, caller, updates))
  {
    if |updates| != 0 {
      hide Carries, ApplyTransition;
      var front, last := updates[..|updates| - 1], updates[|updates| - 1];
      BatchCarries(s, caller, front);
      assert RowSet(updates) == RowSet(front) + {last} by {
        assert updates == front + [last];
      }
      CarriesOneMore(s, caller, RowSet(front), ApplyBatch(s, caller, front), last, s.StatusOf(last.user));
    }
  }

  lemma CarriesIsUnique(s: State, caller: Address, rows: set<BatchUpdate>, t: State, t': State)
    requires Carries(s, caller, rows, t) && Carries(s, caller, rows, t')
    ensures t == t'.(log := t.log)
  {
    forall u: Address
      ensures u in t.compliance <==> u in t'.compliance
      ensures u in t.compliance ==> t.compliance[u] == t'.compliance[u]
      ensures u in t.whitelist <==> u in t'.whitelist
    {
      if !Untouched(rows, u) {
        var r :| r in rows && r.user == u;
      }
    }
    assert t.compliance == t'.compliance;
    assert t.whitelist == t'.whitelist;
    forall u: Address
      ensures u in t.approvers <==> u in t'.approvers
      ensures u in t.approvers ==> t.approvers[u] == t'.approvers[u]
    {
      if !Unapproved(rows, u) {
        var r :| r in rows && r.user == u && r.newStatus == Approved;
      }
    }
    assert t.approvers == t'.approvers;
  }

  lemma {:induction false} ScanHasNoDuplicates(s: State, caller: Address, updates: seq<BatchUpdate>)
    requires ScanBatch(s, caller, updates).Ok?
    ensures NoDuplicates(updates)
  {
    if |updates| != 0 {
      var last := |updates| - 1;
      ScanHasNoDuplicates(s, caller, updates[..last]);
      forall i, j | 0 <= i < j < |updates|
        ensures updates[i].user != updates[j].user
      {
        if j < last {
          assert updates[..last][i] == updates[i] && updates[..last][j] == updates[j];
        }
      }
    }
  }

  /** A permutation of duplicate-free rows is duplicate-free and has the same rows. */
  lemma PermutationFacts(updates: seq<BatchUpdate>, p: seq<BatchUpdate>)
    requires NoDuplicates(updates) && multiset(p) == multiset(updates)
    ensures NoDuplicates(p) && RowSet(p) == RowSet(updates) && |p| == |updates|
  {
    assert |p| == |multiset(p)| && |updates| == |multiset(updates)|;
    forall r
      ensures r in p <==> r in updates
    {
      assert r in p <==> r in multiset(p);
      assert r in updates <==> r in multiset(updates);
    }
    forall i, j | 0 <= i < j < |p|
      ensures p[i].user != p[j].user
    {
      if p[i].user == p[j].user {
        assert p[i] in updates && p[j] in updates;
        assert p[i] == p[j];
        assert p == p[..i] + [p[i]] + p[i + 1..j] + [p[j]] + p[j + 1..];
        assert multiset(p)[p[i]] >= 2;
        OccursOnce(updates, p[i]);
        assert false;
      }
    }
  }

  lemma {:induction false} OccursOnce(updates: seq<BatchUpdate>, r: BatchUpdate)
    requires NoDuplicates(updates)
    ensures multiset(updates)[r] <= 1
  {
    if |updates| != 0 {
      var front, last := updates[..|updates| - 1], updates[|updates| - 1];
      assert updates == front + [last];
      assert NoDuplicates(front);
      OccursOnce(front, r);
      if r == last {
        assert r !in front;
      }
    }
  }

  lemma PermutedScan(s: State, caller: Address, updates: seq<BatchUpdate>, p: seq<BatchUpdate>)
    requires ScanBatch(s, caller, updates).Ok? && NoDuplicates(p)
    requires RowSet(p) == RowSet(updates)
    ensures ScanBatch(s, caller, p).Ok?
  {
    ScanFindsFirst(s, caller, updates);
    ScanFindsFirst(s, caller, p);
    forall i | 0 <= i < |p|
      ensures EnforceRow(s, caller, p, i).Ok?
    {
      assert p[i] in RowSet(updates);
      var k :| 0 <= k < |updates| && updates[k] == p[i];
      assert EnforceRow(s, caller, updates, k).Ok?;
    }
  }

  lemma PermutedBatch(
    s: State, signers: set<Address>, caller: Address, updates: seq<BatchUpdate>, p: seq<BatchUpdate>)
    requires BatchGuard(s, signers, caller, updates).Ok? && multiset(p) == multiset(updates)
    ensures BatchGuard(s, signers, caller, p).Ok?
    ensures ApplyBatch(s, caller, p) == ApplyBatch(s, caller, updates).(log := ApplyBatch(s, caller, p).log)
  {
    hide Carries, ScanBatch, ApplyBatch, RowSet, NoDuplicates;
    ScanHasNoDuplicates(s, caller, updates);
    PermutationFacts(updates, p);
    PermutedScan(s, caller, updates, p);
    BatchCarries(s, caller, updates);
    BatchCarries(s, caller, p);
    CarriesIsUnique(s, caller, RowSet(p), ApplyBatch(s, caller, updates), ApplyBatch(s, caller, p));
  }

  /** One event per row, in order, each with the status the row started from. */
  lemma {:induction false} BatchLog(s: State, caller: Address, updates: seq<BatchUpdate>)
    ensures ApplyBatch(s, caller, updates).log == s.log + RowEvents(s, caller, updates)
  {
    if |updates| != 0 {
      var front, last := updates[..|updates| - 1], updates[|updates| - 1];
      BatchLog(s, caller, front);
      var e := ComplianceStatusChanged(caller, last.user, s.StatusOf(last.user), last.newStatus);
      assert RowEvents(s, caller, updates) == RowEvents(s, caller, front) + [e];
      TransitionLog(ApplyBatch(s, caller, front), caller, last.user, s.StatusOf(last.user), last.newStatus);
      hide ApplyTransition;
    }
  }

  lemma TransitionLog(s: State, caller: Address, user: Address, previous: ComplianceStatus, next: ComplianceStatus)
    ensures ApplyTransition(s, caller, user, previous, next).log ==
            s.log + [ComplianceStatusChanged(caller, user, previous, next)]
  {
  }

  /** In any order, the rows of a batch that commits all succeed and end in the state of the
      batch, except that their events are logged in that order. */
  lemma BatchInAnyOrder(
    s: State, signers: set<Address>, caller: Address, updates: seq<BatchUpdate>, p: seq<BatchUpdate>)
    requires BatchGuard(s, signers, caller, updates).Ok? && multiset(p) == multiset(updates)
    ensures var t := ApplyBatch(s, caller, updates);
            var t' := Run(s, Rows(caller, signers, p));
            t' == t.(log := t'.log) && t'.log == s.log + RowEvents(s, caller, p)
  {
    hide ScanBatch, ApplyBatch, Run;
    PermutedBatch(s, signers, caller, updates, p);
    BatchIsSequence(s, signers, caller, p);
    BatchLog(s, caller, p);
  }
}
