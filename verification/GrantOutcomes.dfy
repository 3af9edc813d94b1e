/** What the calls of a history come to: a decision is final, and the status of a scope is
    exactly what the calls since its approval make it. */
module GrantOutcomes {
  import opened Wrappers
  import opened Firm
  import opened Grants
  import opened GrantHistory
  import OrgChart

  // ---- Decisions are final -----------------------------------------------------------------

  /** Call `j` approves or denies `r`, and may. */
  ghost predicate DecidesAt(trace: seq<Db>, calls: seq<Call>, j: nat, r: Id)
    requires Run(trace, calls)
  {
    && j < |calls| && (calls[j].Approve? || calls[j].Deny?) && calls[j].request == r
    && Decision(trace[j], r, calls[j].grantor, calls[j].chart).Ok?
  }

  lemma DecidedStays(db: Db, call: Call, r: Id)
    requires Linked(db) && r in db.requests && !db.requests[r].status.Requested?
    ensures var db' := Apply(db, call); r in db'.requests && !db'.requests[r].status.Requested?
    ensures db.requests[r].status.Denied? ==> Apply(db, call).requests[r] == db.requests[r]
  {
    hide Eligible, JoinIds, SplitIds, ExpiryAfter;
    LinkedIds(db);
    assert RequestOk(db, r);
  }

  lemma {:induction false} DecidedOnce(trace: seq<Db>, calls: seq<Call>, j: nat, k: nat, r: Id)
    requires Run(trace, calls) && j < k < |trace| && DecidesAt(trace, calls, j, r)
    ensures r in trace[k].requests && !trace[k].requests[r].status.Requested?
    ensures calls[j].Deny? ==> trace[k].requests[r] == trace[j].requests[r].(status := RequestStatus.Denied)
  {
    hide Linked, Eligible, AfterApprove;
    if k > j + 1 {
      DecidedOnce(trace, calls, j, k - 1, r);
      RunKeepsLinked(trace, calls, k - 1);
      DecidedStays(trace[k - 1], calls[k - 1], r);
    } else {
      DecisionTakes(trace[j], calls[j]);
    }
  }

  lemma DecisionTakes(db: Db, call: Call)
    requires (call.Approve? || call.Deny?) && Decision(db, call.request, call.grantor, call.chart).Ok?
    ensures var db' := Apply(db, call);
      && call.request in db.requests && call.request in db'.requests
      && (call.Approve? ==> db'.requests[call.request].status.Granted?)
      && (call.Deny? ==> db'.requests[call.request] == db.requests[call.request].(status := RequestStatus.Denied))
  {
    hide Eligible, JoinIds, SplitIds, ExpiryAfter;
  }

  /** Once a request has been approved or denied, every later decision on it, by whoever, is
      turned away as invalid. */
  lemma DecisionIsFinal(trace: seq<Db>, calls: seq<Call>, j: nat, k: nat, r: Id, grantor: Caller, chart: OrgChart.Chart)
    requires Run(trace, calls) && j < k < |trace| && DecidesAt(trace, calls, j, r)
    ensures Decision(trace[k], r, grantor, chart) == Err(InvalidInput)
  {
    hide Eligible, Apply;
    DecidedOnce(trace, calls, j, k, r);
  }

  /** A denied request is denied at every later moment, and no scope ever comes of it. */
  lemma DenialIsFinal(trace: seq<Db>, calls: seq<Call>, j: nat, k: nat, r: Id)
    requires Run(trace, calls) && j < k < |trace| && DecidesAt(trace, calls, j, r) && calls[j].Deny?
    ensures r in trace[k].requests && trace[k].requests[r].status.Denied?
    ensures forall s :: !Origin(trace[k], s, r)
  {
    hide Apply, Eligible;
    DecidedOnce(trace, calls, j, k, r);
    RunKeepsLinked(trace, calls, k);
    assert RequestOk(trace[k], r);
  }

  /** Who may decide, level by level. */
  lemma EligibleByLevel(chart: OrgChart.Chart, requester: string, email: string)
    ensures Eligible(chart, requester, Caller(email, L5))
    ensures Eligible(chart, requester, Caller(email, L4)) <==> OrgChart.StrictlyManages(chart, email, requester)
    ensures forall low :: low in {L1, L2, L3} ==> !Eligible(chart, requester, Caller(email, low))
  {
  }

  // ---- The status of a scope -----------------------------------------------------------------

  /** The last second a grant lasts, if it ends. */
  ghost predicate PastDue(approval: Call, t: int)
    requires approval.Approve?
  {
    approval.ttlDays.Some? && t > approval.now + approval.ttlDays.value * 24 * 60 * 60
  }

  /** One of the calls between the two revokes the scope, by its grantor or at the top level. */
  ghost predicate RevokedIn(calls: seq<Call>, j: nat, k: nat, s: Id, grantor: string) {
    exists i :: j < i < k && i < |calls| && calls[i].Revoke? && calls[i].scope == s
             && (calls[i].actor.email == grantor || calls[i].actor.clearance.L5?)
  }

  /** One of them sweeps when the grant is past due. */
  ghost predicate SweptIn(calls: seq<Call>, j: nat, k: nat, approval: Call)
    requires approval.Approve?
  {
    exists i :: j < i < k && i < |calls| && calls[i].ExpireDue? && PastDue(approval, calls[i].at)
  }

  /** The row of a scope approved by `approval`, given what has happened since. */
  ghost predicate AsGranted(row: ScopeRow, approval: Call, revoked: bool, swept: bool)
    requires approval.Approve?
  {
    && row.grantedBy == approval.grantor.email
    && (forall t :: IsExpired(row.expiresAt, t) <==> PastDue(approval, t))
    && row.status == if revoked then ScopeStatus.Revoked else if swept then ScopeStatus.Expired else Active
  }

  lemma FreshGrant(db: Db, call: Call)
    requires call.Approve? && Decision(db, call.request, call.grantor, call.chart).Ok?
    ensures db.nextId in Apply(db, call).scopes && AsGranted(Apply(db, call).scopes[db.nextId], call, false, false)
  {
    hide Eligible, JoinIds, SplitIds;
  }

  /** What one call does to it. */
  lemma GrantStep(db: Db, call: Call, s: Id, approval: Call, revoked: bool, swept: bool)
    requires s in db.scopes && s != db.nextId && approval.Approve? && AsGranted(db.scopes[s], approval, revoked, swept)
    ensures s in Apply(db, call).scopes
    ensures AsGranted(Apply(db, call).scopes[s], approval,
                      revoked || (call.Revoke? && call.scope == s
                                  && (call.actor.email == approval.grantor.email || call.actor.clearance.L5?)),
                      swept || (call.ExpireDue? && PastDue(approval, call.at)))
  {
    hide Eligible, JoinIds, SplitIds, ExpiryAfter, IsExpired, PastDue;
    if call.ExpireDue? {
      assert IsExpired(db.scopes[s].expiresAt, call.at) <==> PastDue(approval, call.at);
    }
  }

  /** In every history, at every moment after a scope's approval, its row says by whom and
      until when it was granted, and its status is revoked if and only if its grantor or the
      top level has revoked it since, else expired if and only if a sweep has found it past
      due, else active. */
  lemma {:induction false} ScopeStatusExactly(trace: seq<Db>, calls: seq<Call>, j: nat, k: nat, r: Id)
    requires Run(trace, calls) && j < k < |trace| && calls[j].Approve? && DecidesAt(trace, calls, j, r)
    ensures var s := trace[j].nextId;
      && s in trace[k].scopes
      && AsGranted(trace[k].scopes[s], calls[j], RevokedIn(calls, j, k, s, calls[j].grantor.email),
                   SweptIn(calls, j, k, calls[j]))
  {
    hide Linked, Apply, AsGranted, Decision;
    var s := trace[j].nextId;
    if k == j + 1 {
      FreshGrant(trace[j], calls[j]);
      assert !RevokedIn(calls, j, k, s, calls[j].grantor.email) && !SweptIn(calls, j, k, calls[j]);
    } else {
      ScopeStatusExactly(trace, calls, j, k - 1, r);
      RunKeepsLinked(trace, calls, k - 1);
      LinkedIds(trace[k - 1]);
      GrantStep(trace[k - 1], calls[k - 1], s, calls[j], RevokedIn(calls, j, k - 1, s, calls[j].grantor.email),
                SweptIn(calls, j, k - 1, calls[j]));
    }
  }

  /** So the gate answers that the scope is not active if and only if it has been revoked or
      swept since its approval, or its days are over: not before, and open-ended never. */
  lemma GateLastsAsGranted(trace: seq<Db>, calls: seq<Call>, j: nat, k: nat, r: Id,
                           caller: Caller, skill: string, t: int)
    requires Run(trace, calls) && j < k < |trace| && calls[j].Approve? && DecidesAt(trace, calls, j, r)
    ensures Authorize(trace[k], caller, trace[j].nextId, skill, t) == Err(InvalidInput) <==>
      || RevokedIn(calls, j, k, trace[j].nextId, calls[j].grantor.email)
      || SweptIn(calls, j, k, calls[j])
      || PastDue(calls[j], t)
  {
    hide Apply, Decision, RevokedIn, SweptIn, PastDue, IsExpired;
    ScopeStatusExactly(trace, calls, j, k, r);
  }

  /** And it is among the active scopes of a person and project at a time if and only if it
      was requested by that person for that project, and none of that has happened. */
  lemma ActiveExactly(trace: seq<Db>, calls: seq<Call>, j: nat, k: nat, r: Id, who: string, what: string, t: int)
    requires Run(trace, calls) && j < k < |trace| && calls[j].Approve? && DecidesAt(trace, calls, j, r)
    ensures var s := trace[j].nextId;
      s in ActiveScopes(trace[k], who, what, t) <==>
        && r in trace[j].requests && trace[j].requests[r].requester == who && trace[j].requests[r].project == what
        && !RevokedIn(calls, j, k, s, calls[j].grantor.email) && !SweptIn(calls, j, k, calls[j])
        && !PastDue(calls[j], t)
  {
    ScopeStatusExactly(trace, calls, j, k, r);
    GrantedAs(trace[j], calls[j]);
    RunEvolves(trace, calls, j + 1, k);
    hide Apply, Decision, RevokedIn, SweptIn, PastDue, IsExpired, Eligible;
  }
}
