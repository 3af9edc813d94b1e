/** What holds over every run of grant calls: the two linked state machines of
    requests and scopes, who approved what, and what a sweep may change. */
module GrantHistory {
  import opened Wrappers
  import opened Firm
  import opened Grants

  ghost predicate Run(trace: seq<Db>, calls: seq<Call>) {
    && |trace| == |calls| + 1 && trace[0] == EMPTY
    && forall i :: 0 <= i < |calls| ==> trace[i + 1] == Apply(trace[i], calls[i])
  }

  // ---- Requests and scopes stay linked ----------------------------------------------------

  ghost predicate SameGrant(r: RequestRow, s: ScopeRow) {
    r.project == s.project && r.requester == s.requester && r.persons == s.persons && r.companies == s.companies
  }

  /** An undecided or denied request has no scope; a granted or expired one has the
      scope it asked for, and is expired exactly when that scope is revoked. */
  ghost predicate RequestOk(db: Db, r: Id)
    requires r in db.requests
  {
    var row := db.requests[r];
    && r < db.nextId
    && match row.status
       case Requested => row.scopeId.None?
       case Denied => row.scopeId.None?
       case _ =>
         && row.scopeId.Some? && row.scopeId.value in db.scopes
         && SameGrant(row, db.scopes[row.scopeId.value])
         && (row.status.Expired? <==> db.scopes[row.scopeId.value].status.Revoked?)
  }

  ghost predicate Origin(db: Db, s: Id, r: Id) {
    r in db.requests && db.requests[r].scopeId == Some(s)
  }

  ghost predicate ScopeOk(db: Db, s: Id)
    requires s in db.scopes
  {
    s < db.nextId && !db.scopes[s].status.Pending? && exists r :: Origin(db, s, r)
  }

  ghost predicate Linked(db: Db) {
    && (forall r <- db.requests :: RequestOk(db, r))
    && (forall s <- db.scopes :: ScopeOk(db, s))
    && (forall s, r, q :: Origin(db, s, r) && Origin(db, s, q) ==> r == q)
  }

  lemma RequestKeepsLinked(db: Db, call: Call)
    requires Linked(db) && call.RequestScope?
    ensures Linked(Apply(db, call))
  {
    var db' := Apply(db, call);
    assert db.nextId !in db.requests;
    assert forall s, r :: Origin(db', s, r) <==> Origin(db, s, r);
    forall s <- db'.scopes ensures ScopeOk(db', s) {
      assert ScopeOk(db, s);
    }
    forall r <- db'.requests ensures RequestOk(db', r) {
      if r != db.nextId {
        assert RequestOk(db, r);
      }
    }
  }

  lemma ApproveKeepsLinked(db: Db, call: Call)
    requires Linked(db) && call.Approve?
    ensures Linked(Apply(db, call))
  {
    hide Eligible;
    var db' := Apply(db, call);
    if db' != db {
      var req, id := call.request, db.nextId;
      StoredListIsStable(db.requests[req].persons);
      StoredListIsStable(db.requests[req].companies);
      hide JoinIds, SplitIds, ExpiryAfter;
      forall r <- db'.requests ensures RequestOk(db', r) && (Origin(db', id, r) <==> r == req) {
        assert RequestOk(db, r);
      }
      assert forall s, r :: s != id ==> (Origin(db', s, r) <==> Origin(db, s, r));
      forall s <- db'.scopes ensures ScopeOk(db', s) {
        if s == id {
          assert Origin(db', s, req);
        } else {
          assert ScopeOk(db, s);
        }
      }
    }
  }

  lemma DenyKeepsLinked(db: Db, call: Call)
    requires Linked(db) && call.Deny?
    ensures Linked(Apply(db, call))
  {
    hide Eligible;
    var db' := Apply(db, call);
    assert forall s, r :: Origin(db', s, r) <==> Origin(db, s, r);
    forall r <- db'.requests ensures RequestOk(db', r) {
      assert RequestOk(db, r);
    }
    forall s <- db'.scopes ensures ScopeOk(db', s) {
      assert ScopeOk(db, s);
    }
  }

  lemma RevokeKeepsLinked(db: Db, call: Call)
    requires Linked(db) && call.Revoke?
    ensures Linked(Apply(db, call))
  {
    var db' := Apply(db, call);
    assert forall s, r :: Origin(db', s, r) <==> Origin(db, s, r);
    forall r <- db'.requests ensures RequestOk(db', r) {
      assert RequestOk(db, r);
    }
    forall s <- db'.scopes ensures ScopeOk(db', s) {
      assert ScopeOk(db, s);
    }
  }

  lemma SweepKeepsLinked(db: Db, call: Call)
    requires Linked(db) && call.ExpireDue?
    ensures Linked(Apply(db, call))
  {
    var db' := Apply(db, call);
    assert forall s, r :: Origin(db', s, r) <==> Origin(db, s, r);
    forall r <- db'.requests ensures RequestOk(db', r) {
      assert RequestOk(db, r);
    }
    forall s <- db'.scopes ensures ScopeOk(db', s) {
      assert ScopeOk(db, s);
    }
  }

  lemma CallKeepsLinked(db: Db, call: Call)
    requires Linked(db)
    ensures Linked(Apply(db, call))
  {
    match call
    case RequestScope(_, _, _, _) => RequestKeepsLinked(db, call);
    case Approve(_, _, _, _, _) => ApproveKeepsLinked(db, call);
    case Deny(_, _, _) => DenyKeepsLinked(db, call);
    case Revoke(_, _) => RevokeKeepsLinked(db, call);
    case ExpireDue(_) => SweepKeepsLinked(db, call);
    case DefineSkill(_, _, _, _) =>
      var db' := Apply(db, call);
      assert forall s, r :: Origin(db', s, r) <==> Origin(db, s, r);
      assert forall r <- db.requests :: RequestOk(db, r) ==> RequestOk(db', r);
      assert forall s <- db.scopes :: ScopeOk(db, s) ==> ScopeOk(db', s);
  }

  lemma {:induction false} RunKeepsLinked(trace: seq<Db>, calls: seq<Call>, i: nat)
    requires Run(trace, calls) && i < |trace|
    ensures Linked(trace[i])
  {
    if i > 0 {
      RunKeepsLinked(trace, calls, i - 1);
      CallKeepsLinked(trace[i - 1], calls[i - 1]);
    }
  }

  // ---- What a call can never change --------------------------------------------------------

  ghost predicate SameAsking(a: RequestRow, b: RequestRow) {
    && a.project == b.project && a.requester == b.requester && a.persons == b.persons && a.companies == b.companies
    && (a.scopeId.Some? ==> a.scopeId == b.scopeId)
  }

  /** A scope keeps everything but its status, and that only moves away from active
      and ends in revoked. */
  ghost predicate Onward(a: ScopeRow, b: ScopeRow) {
    && b == a.(status := b.status)
    && (a.status.Expired? ==> b.status.Expired? || b.status.Revoked?)
    && (a.status.Revoked? ==> b.status.Revoked?)
  }

  ghost predicate Evolves(db: Db, db': Db) {
    && (forall r <- db.requests :: r in db'.requests && SameAsking(db.requests[r], db'.requests[r]))
    && (forall s <- db.scopes :: s in db'.scopes && Onward(db.scopes[s], db'.scopes[s]))
  }

  lemma CallEvolves(db: Db, call: Call)
    requires Linked(db)
    ensures Evolves(db, Apply(db, call))
  {
    hide Linked, Eligible, JoinIds, SplitIds, ExpiryAfter;
    LinkedIds(db);
    var db' := Apply(db, call);
    forall r <- db.requests ensures r in db'.requests && SameAsking(db.requests[r], db'.requests[r]) {
    }
    forall s <- db.scopes ensures s in db'.scopes && Onward(db.scopes[s], db'.scopes[s]) {
    }
  }

  lemma LinkedIds(db: Db)
    requires Linked(db)
    ensures db.nextId !in db.requests && db.nextId !in db.scopes
    ensures forall r <- db.requests :: db.requests[r].status.Requested? ==> db.requests[r].scopeId.None?
  {
    assert forall s <- db.scopes :: ScopeOk(db, s) ==> s != db.nextId;
    assert forall r <- db.requests :: RequestOk(db, r) ==> r != db.nextId;
  }

  lemma {:induction false} RunEvolves(trace: seq<Db>, calls: seq<Call>, i: nat, j: nat)
    requires Run(trace, calls) && i <= j < |trace|
    ensures Evolves(trace[i], trace[j])
    decreases j
  {
    hide Linked, Apply;
    if i < j {
      RunEvolves(trace, calls, i, j - 1);
      RunKeepsLinked(trace, calls, j - 1);
      CallEvolves(trace[j - 1], calls[j - 1]);
    }
  }

  /** No scope ever returns to active, and a revoked one stays revoked. */
  lemma NoScopeReturnsToActive(trace: seq<Db>, calls: seq<Call>, i: nat, j: nat, s: Id)
    requires Run(trace, calls) && i <= j < |trace| && s in trace[i].scopes && !trace[i].scopes[s].status.Active?
    ensures s in trace[j].scopes && !trace[j].scopes[s].status.Active?
    ensures trace[i].scopes[s].status.Revoked? ==> trace[j].scopes[s].status.Revoked?
  {
    RunEvolves(trace, calls, i, j);
    RunKeepsLinked(trace, calls, i);
    assert ScopeOk(trace[i], s);
  }

  // ---- Where requests and scopes come from -----------------------------------------------------

  lemma {:induction false} RequestBirth(trace: seq<Db>, calls: seq<Call>, k: nat, r: Id) returns (j: nat)
    requires Run(trace, calls) && k < |trace| && r in trace[k].requests
    ensures j < k && calls[j].RequestScope? && trace[j].nextId == r && r in trace[j + 1].requests
  {
    j := k - 1;
    if r in trace[k - 1].requests {
      j := RequestBirth(trace, calls, k - 1, r);
    }
  }

  lemma {:induction false} ScopeBirth(trace: seq<Db>, calls: seq<Call>, k: nat, s: Id) returns (i: nat)
    requires Run(trace, calls) && k < |trace| && s in trace[k].scopes
    ensures i < k && calls[i].Approve? && trace[i].nextId == s && s in trace[i + 1].scopes
    ensures Decision(trace[i], calls[i].request, calls[i].grantor, calls[i].chart).Ok?
  {
    hide Eligible, JoinIds, SplitIds, ExpiryAfter;
    i := k - 1;
    if s in trace[k - 1].scopes {
      i := ScopeBirth(trace, calls, k - 1, s);
    }
  }

  /** Every scope at any moment of any run was asked for once and approved once: the
      call `asked` submitted the one request linked to it, for the same project and
      person, and the call `approved` granted it by someone eligible at that time.
      Exactly the id lists the separator cannot garble come out as they were asked for. */
  ghost predicate GrantedBy(trace: seq<Db>, calls: seq<Call>, k: nat, s: Id, asked: nat, approved: nat)
    requires Run(trace, calls) && k < |trace| && s in trace[k].scopes && asked < approved < k
  {
    var scope, ask, ok := trace[k].scopes[s], calls[asked], calls[approved];
    && ask.RequestScope? && ok.Approve? && ok.request == trace[asked].nextId
    && (forall r :: Origin(trace[k], s, r) <==> r == ok.request)
    && scope.requester == ask.requester.email && scope.project == ask.project
    && (Clean(ask.persons) <==> SplitIds(scope.persons) == ask.persons)
    && (Clean(ask.companies) <==> SplitIds(scope.companies) == ask.companies)
    && scope.grantedBy == ok.grantor.email
    && Eligible(ok.chart, scope.requester, ok.grantor)
    && ok.request in trace[k].requests
    && (trace[k].requests[ok.request].status.Expired? <==> scope.status.Revoked?)
  }

  lemma EveryScopeWasGranted(trace: seq<Db>, calls: seq<Call>, k: nat, s: Id) returns (asked: nat, approved: nat)
    requires Run(trace, calls) && k < |trace| && s in trace[k].scopes
    ensures asked < approved < k && GrantedBy(trace, calls, k, s, asked, approved)
  {
    approved := ScopeBirth(trace, calls, k, s);
    var req := calls[approved].request;
    asked := RequestBirth(trace, calls, approved, req);
    RunEvolves(trace, calls, asked + 1, approved);
    RunEvolves(trace, calls, approved + 1, k);
    BornAs(trace[asked], calls[asked]);
    GrantedAs(trace[approved], calls[approved]);
    RunKeepsLinked(trace, calls, k);
    IdListRoundTrip(calls[asked].persons);
    IdListRoundTrip(calls[asked].companies);
    assert trace[approved + 1] == Apply(trace[approved], calls[approved]);
    hide Apply, Eligible, JoinIds, SplitIds;
    assert Origin(trace[k], s, req);
    assert RequestOk(trace[k], req);
  }

  lemma BornAs(db: Db, call: Call)
    requires call.RequestScope?
    ensures var row := Apply(db, call).requests[db.nextId];
      && row.project == call.project && row.requester == call.requester.email
      && row.persons == JoinIds(call.persons) && row.companies == JoinIds(call.companies)
  {
  }

  lemma GrantedAs(db: Db, call: Call)
    requires call.Approve? && Decision(db, call.request, call.grantor, call.chart).Ok?
    ensures call.request in db.requests && db.nextId in Apply(db, call).scopes
    ensures var row, scope := db.requests[call.request], Apply(db, call).scopes[db.nextId];
      && SameGrant(row, scope) && scope.grantedBy == call.grantor.email
      && Eligible(call.chart, scope.requester, call.grantor)
      && call.request in Apply(db, call).requests && Apply(db, call).requests[call.request].scopeId == Some(db.nextId)
  {
    StoredListIsStable(db.requests[call.request].persons);
    StoredListIsStable(db.requests[call.request].companies);
    hide JoinIds, SplitIds;
  }

  // ---- What a revocation does -----------------------------------------------------------------

  /** A permitted revocation of a linked store's scope revokes that scope, expires its one
      request, and changes no other row; from then on the gate refuses everyone. */
  lemma RevokeMeans(db: Db, s: Id, actor: Caller) returns (r: Id)
    requires Linked(db) && s in db.scopes && MayRevoke(db, s, actor)
    ensures forall q :: Origin(db, s, q) <==> q == r
    ensures var db' := Apply(db, Revoke(s, actor));
      && db'.scopes == db.scopes[s := db.scopes[s].(status := ScopeStatus.Revoked)]
      && db'.requests == db.requests[r := db.requests[r].(status := RequestStatus.Expired)]
      && db'.skills == db.skills
      && forall caller, skill, now :: Authorize(db', caller, s, skill, now).Err?
  {
    assert ScopeOk(db, s);
    r :| Origin(db, s, r);
    var db' := Apply(db, Revoke(s, actor));
    assert db'.requests.Keys == db.requests.Keys;
    assert forall q <- db.requests :: q != r ==> db.requests[q].scopeId != Some(s) by {
      assert forall q :: Origin(db, s, q) ==> q == r;
      assert forall q <- db.requests :: db.requests[q].scopeId == Some(s) ==> Origin(db, s, q);
    }
  }

  // ---- What a sweep may change ----------------------------------------------------------------

  /** The active, unexpired scopes of one person on one project. */
  ghost function ActiveScopes(db: Db, requester: string, project: string, now: int): map<Id, ScopeRow> {
    map s | s in db.scopes && db.scopes[s].requester == requester && db.scopes[s].project == project
            && db.scopes[s].status.Active? && !IsExpired(db.scopes[s].expiresAt, now) :: db.scopes[s]
  }

  /** A sweep changes no answer at its own time or later; for any earlier time there
      is a store whose answer it changes. */
  lemma SweepIsInvisible(now: int, t: int)
    ensures (forall db, requester, project ::
               ActiveScopes(Apply(db, ExpireDue(now)), requester, project, t)
               == ActiveScopes(db, requester, project, t))
       <==> t >= now
  {
    if t >= now {
      forall db, requester, project
        ensures ActiveScopes(Apply(db, ExpireDue(now)), requester, project, t)
             == ActiveScopes(db, requester, project, t)
      {
      }
    } else {
      var db := EMPTY.(scopes := map[0 := ScopeRow("p", "r", "g", "", "", Until(t), Active)]);
      assert 0 in ActiveScopes(db, "r", "p", t) && 0 !in ActiveScopes(Apply(db, ExpireDue(now)), "r", "p", t);
    }
  }

  // ---- The run gate ---------------------------------------------------------------------------

  /** The gate never passes again on a scope that has been revoked or swept. */
  lemma GateStaysShut(trace: seq<Db>, calls: seq<Call>, i: nat, j: nat, caller: Caller, s: Id, skill: string, now: int)
    requires Run(trace, calls) && i <= j < |trace| && s in trace[i].scopes && !trace[i].scopes[s].status.Active?
    ensures Authorize(trace[j], caller, s, skill, now).Err?
  {
    NoScopeReturnsToActive(trace, calls, i, j, s);
  }

  /** What a passed gate guarantees. */
  lemma GateMeans(db: Db, caller: Caller, s: Id, skill: string, now: int)
    requires Authorize(db, caller, s, skill, now).Ok?
    ensures s in db.scopes && db.scopes[s].status.Active? && db.scopes[s].requester == caller.email
    ensures var expiry := db.scopes[s].expiresAt; expiry.Open? || (expiry.Until? && now <= expiry.at)
    ensures var k := Authorize(db, caller, s, skill, now).value;
      k in db.skills && k.name == skill && k.scopeId == s && AtLeast(caller.clearance, k.floor)
  {
    FoundSkill(db.skills, s, skill);
  }

  lemma {:induction false} FoundSkill(skills: seq<Skill>, scope: Id, name: string)
    requires FindSkill(skills, scope, name).Some?
    ensures var k := FindSkill(skills, scope, name).value; k in skills && k.name == name && k.scopeId == scope
  {
    if !(skills[0].scopeId == scope && skills[0].name == name) {
      FoundSkill(skills[1..], scope, name);
    }
  }
}
