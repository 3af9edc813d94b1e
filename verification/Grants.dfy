/** The lifecycle of project-scope grants: requests and the scopes they turn into,
    as stored rows, with every service call atomic. */
module Grants {
  import opened Wrappers
  import opened Firm
  import OrgChart
  import OrgManagers
  import Delimited

  type Id = nat

  datatype RequestStatus = Requested | Granted | Denied | Expired
  datatype ScopeStatus = Pending | Active | Expired | Revoked

  /** A stored expiry. One that cannot be read counts as past. */
  datatype Expiry = Open | Until(at: int) | Unreadable

  /** Granted ids are stored as one `|`-joined text. `scopeId` links a decided request
      to the scope it produced. */
  datatype RequestRow = RequestRow(
    project: string, requester: string, persons: string, companies: string,
    status: RequestStatus, scopeId: Option<Id>)

  datatype ScopeRow = ScopeRow(
    project: string, requester: string, grantedBy: string, persons: string, companies: string,
    expiresAt: Expiry, status: ScopeStatus)

  datatype Skill = Skill(name: string, scopeId: Id, guest: string, floor: Clearance)

  datatype Db = Db(requests: map<Id, RequestRow>, scopes: map<Id, ScopeRow>, skills: seq<Skill>, nextId: Id)

  datatype Error = NotFound | InvalidInput | AccessDenied
  datatype Result<+T> = Ok(value: T) | Err(error: Error)

  // ---- Id lists ----------------------------------------------------------------------

  function JoinIds(ids: seq<string>): string {
    Delimited.Join(ids, '|')
  }

  function SplitIds(s: string): seq<string> {
    if s == "" then [] else Delimited.Split(s, '|')
  }

  /** No id contains the separator, and the list is not a single empty id. */
  ghost predicate Clean(ids: seq<string>) {
    (forall id <- ids :: '|' !in id) && ids != [""]
  }

  /** Exactly the clean lists read back as submitted. */
  lemma IdListRoundTrip(ids: seq<string>)
    ensures SplitIds(JoinIds(ids)) == ids <==> Clean(ids)
  {
    Delimited.JoinIsEmpty(ids, '|');
    if ids != [] && forall id <- ids :: '|' !in id {
      Delimited.SplitOfJoin(ids, '|');
    }
  }

  /** Storing what was read stores the same text again, whatever it is. */
  lemma StoredListIsStable(s: string)
    ensures JoinIds(SplitIds(s)) == s
  {
    Delimited.JoinOfSplit(s, '|');
  }

  // ---- Rules ---------------------------------------------------------------------------

  predicate IsExpired(e: Expiry, now: int) {
    match e case Open => false case Until(at) => at < now case Unreadable => true
  }

  /** Clearance of at least L4, and either in the requester's management chain or L5. */
  ghost predicate Eligible(chart: OrgChart.Chart, requester: string, grantor: Caller) {
    AtLeast(grantor.clearance, L4)
    && (OrgChart.StrictlyManages(chart, grantor.email, requester) || AtLeast(grantor.clearance, L5))
  }

  function ExpiryAfter(ttlDays: Option<int>, now: int): Expiry {
    match ttlDays case None => Open case Some(d) => Until(now + d * 86_400)
  }

  // ---- What each call does to the store -------------------------------------------------

  datatype Call =
    | RequestScope(requester: Caller, project: string, persons: seq<string>, companies: seq<string>)
    | Approve(request: Id, grantor: Caller, chart: OrgChart.Chart, ttlDays: Option<int>, now: int)
    | Deny(request: Id, grantor: Caller, chart: OrgChart.Chart)
    | Revoke(scope: Id, actor: Caller)
    | ExpireDue(at: int)
    | DefineSkill(scopeId: Id, name: string, guest: string, floor: Clearance)

  /** The decision shared by approving and denying. */
  ghost function Decision(db: Db, request: Id, grantor: Caller, chart: OrgChart.Chart): Result<RequestRow> {
    if request !in db.requests then Err(NotFound)
    else if db.requests[request].status != Requested then Err(InvalidInput)
    else if !Eligible(chart, db.requests[request].requester, grantor) then Err(AccessDenied)
    else Ok(db.requests[request])
  }

  ghost function AfterApprove(db: Db, request: Id, grantor: Caller, ttlDays: Option<int>, now: int): Db
    requires request in db.requests
  {
    var r := db.requests[request];
    Db(db.requests[request := r.(status := Granted, scopeId := Some(db.nextId))],
       db.scopes[db.nextId := ScopeRow(r.project, r.requester, grantor.email,
                                       JoinIds(SplitIds(r.persons)), JoinIds(SplitIds(r.companies)),
                                       ExpiryAfter(ttlDays, now), Active)],
       db.skills, db.nextId + 1)
  }

  function SpendRequest(r: RequestRow, scope: Id): RequestRow {
    if r.scopeId == Some(scope) then r.(status := RequestStatus.Expired) else r
  }

  function ExpireScope(s: ScopeRow, now: int): ScopeRow {
    if s.status == Active && IsExpired(s.expiresAt, now) then s.(status := ScopeStatus.Expired) else s
  }

  ghost predicate MayRevoke(db: Db, scope: Id, actor: Caller)
    requires scope in db.scopes
  {
    actor.email == db.scopes[scope].grantedBy || AtLeast(actor.clearance, L5)
  }

  ghost function Apply(db: Db, call: Call): Db {
    match call
    case RequestScope(requester, project, persons, companies) =>
      db.(requests := db.requests[db.nextId := RequestRow(project, requester.email, JoinIds(persons),
                                                          JoinIds(companies), Requested, None)],
          nextId := db.nextId + 1)
    case Approve(request, grantor, chart, ttlDays, now) =>
      if Decision(db, request, grantor, chart).Err? then db else AfterApprove(db, request, grantor, ttlDays, now)
    case Deny(request, grantor, chart) =>
      if Decision(db, request, grantor, chart).Err? then db
      else db.(requests := db.requests[request := db.requests[request].(status := Denied)])
    case Revoke(scope, actor) =>
      if scope !in db.scopes || !MayRevoke(db, scope, actor) then db
      else db.(scopes := db.scopes[scope := db.scopes[scope].(status := Revoked)],
               requests := map r | r in db.requests :: SpendRequest(db.requests[r], scope))
    case ExpireDue(now) =>
      db.(scopes := map s | s in db.scopes :: ExpireScope(db.scopes[s], now))
    case DefineSkill(scopeId, name, guest, floor) =>
      if scopeId !in db.scopes then db else db.(skills := db.skills + [Skill(name, scopeId, guest, floor)])
  }

  /** The active scopes a sweep at `now` moves to expired. */
  ghost function Due(scopes: map<Id, ScopeRow>, now: int): set<Id> {
    set s | s in scopes && scopes[s].status == Active && IsExpired(scopes[s].expiresAt, now)
  }

  ghost function Marked(scopes: map<Id, ScopeRow>, swept: set<Id>): map<Id, ScopeRow> {
    map s | s in scopes :: if s in swept then scopes[s].(status := ScopeStatus.Expired) else scopes[s]
  }

  lemma NoneMarked(scopes: map<Id, ScopeRow>)
    ensures Marked(scopes, {}) == scopes
  {
  }

  lemma MarkOne(scopes: map<Id, ScopeRow>, swept: set<Id>, s: Id)
    requires s in scopes && s !in swept
    ensures Marked(scopes, swept)[s := scopes[s].(status := ScopeStatus.Expired)] == Marked(scopes, swept + {s})
  {
  }

  /** Taking `s` off the rows still to look at. */
  lemma SweepOne(scopes: map<Id, ScopeRow>, now: int, left: set<Id>, s: Id)
    requires s in left && s in scopes
    ensures var due := Due(scopes, now);
      if scopes[s].status == Active && IsExpired(scopes[s].expiresAt, now)
      then due - (left - {s}) == (due - left) + {s} && |due - (left - {s})| == |due - left| + 1
      else due - (left - {s}) == due - left
  {
  }

  lemma MarkedDue(db: Db, now: int)
    ensures Apply(db, ExpireDue(now)) == db.(scopes := Marked(db.scopes, Due(db.scopes, now)))
  {
  }

  lemma DueAreActive(scopes: map<Id, ScopeRow>, now: int)
    ensures Due(scopes, now) - (set s | s in scopes && scopes[s].status == Active) == {}
  {
  }

  // ---- The run gate -------------------------------------------------------------------------

  /** What `authorize_skill` answers: the first skill of that name on the scope, if the
      scope is active and unexpired, the caller is its grantee, and their clearance
      meets the skill's floor. */
  ghost function Authorize(db: Db, caller: Caller, scope: Id, skill: string, now: int): Result<Skill> {
    if scope !in db.scopes then Err(NotFound)
    else if !db.scopes[scope].status.Active? || IsExpired(db.scopes[scope].expiresAt, now) then Err(InvalidInput)
    else if caller.email != db.scopes[scope].requester then Err(AccessDenied)
    else match FindSkill(db.skills, scope, skill)
      case None => Err(NotFound)
      case Some(k) => if AtLeast(caller.clearance, k.floor) then Ok(k) else Err(AccessDenied)
  }

  function FindSkill(skills: seq<Skill>, scope: Id, name: string): Option<Skill> {
    if skills == [] then None
    else if skills[0].scopeId == scope && skills[0].name == name then Some(skills[0])
    else FindSkill(skills[1..], scope, name)
  }

  /** `skills[i]` is the first skill of that name on the scope. */
  ghost predicate IsFirst(skills: seq<Skill>, i: int, scope: Id, name: string) {
    && 0 <= i < |skills| && skills[i].scopeId == scope && skills[i].name == name
    && forall j :: 0 <= j < i ==> !(skills[j].scopeId == scope && skills[j].name == name)
  }

  lemma {:induction false} FirstIsFound(skills: seq<Skill>, i: nat, scope: Id, name: string)
    requires i <= |skills| && forall j :: 0 <= j < i ==> !(skills[j].scopeId == scope && skills[j].name == name)
    requires i < |skills| ==> skills[i].scopeId == scope && skills[i].name == name
    ensures FindSkill(skills, scope, name) == if i < |skills| then Some(skills[i]) else None
  {
    if i > 0 {
      FirstIsFound(skills[1..], i - 1, scope, name);
    }
  }

  /** A skill added last is found only where none of its name was. */
  lemma {:induction false} FindAppended(skills: seq<Skill>, k: Skill)
    ensures forall s, n :: FindSkill(skills + [k], s, n) ==
              if s == k.scopeId && n == k.name && FindSkill(skills, s, n).None? then Some(k)
              else FindSkill(skills, s, n)
  {
    if skills != [] {
      FindAppended(skills[1..], k);
      assert (skills + [k])[1..] == skills[1..] + [k];
    } else {
      assert skills + [k] == [k] && [k][1..] == [];
    }
  }

  const EMPTY: Db := Db(map[], map[], [], 0)

  // ---- The service object ------------------------------------------------------------------

  /** The service over its stored rows. Each method refines the step of the same name. */
  class ScopeGrants {
    var requests: map<Id, RequestRow>
    var scopes: map<Id, ScopeRow>
    var skills: seq<Skill>
    var nextId: Id

    ghost function Stored(): Db
      reads this
    {
      Db(requests, scopes, skills, nextId)
    }

    constructor ()
      ensures Stored() == EMPTY
    {
      requests, scopes, skills, nextId := map[], map[], [], 0;
    }

    method SubmitRequest(requester: Caller, project: string, persons: seq<string>, companies: seq<string>)
      returns (id: Id)
      modifies this
      ensures id == old(nextId)
      ensures Stored() == Apply(old(Stored()), RequestScope(requester, project, persons, companies))
      ensures id in requests && requests[id].status == Requested && requests[id].requester == requester.email
      ensures SplitIds(requests[id].persons) == persons <==> Clean(persons)
      ensures SplitIds(requests[id].companies) == companies <==> Clean(companies)
      ensures forall r :: r != id ==> (r in requests <==> r in old(requests))
      ensures forall r <- old(requests) :: r != id ==> requests[r] == old(requests)[r]
    {
      IdListRoundTrip(persons);
      IdListRoundTrip(companies);
      hide JoinIds, SplitIds, Clean;
      id := nextId;
      nextId := nextId + 1;
      var row := RequestRow(project, requester.email, JoinIds(persons), JoinIds(companies), Requested, None);
      requests := requests[id := row];
    }

    method EligibleGrantor(chart: OrgChart.Chart, requester: string, grantor: Caller) returns (ok: bool)
      requires chart.Valid()
      ensures ok <==> Eligible(chart, requester, grantor)
    {
      var clearanceOk := AtLeast(grantor.clearance, L4);
      var isCofounder := AtLeast(grantor.clearance, L5);
      var chain := OrgManagers.Ancestors(chart, requester);
      var inChain := grantor.email in chain;
      return clearanceOk && (inChain || isCofounder);
    }

    method Decide(request: Id, grantor: Caller, chart: OrgChart.Chart) returns (r: Result<RequestRow>)
      requires chart.Valid()
      ensures r == Decision(Stored(), request, grantor, chart)
    {
      if request !in requests { return Err(NotFound); }
      var row := requests[request];
      if row.status != Requested { return Err(InvalidInput); }
      var ok := EligibleGrantor(chart, row.requester, grantor);
      if !ok { return Err(AccessDenied); }
      return Ok(row);
    }

    method ApproveRequest(request: Id, grantor: Caller, chart: OrgChart.Chart, ttlDays: Option<int>, now: int)
      returns (r: Result<Id>)
      requires chart.Valid()
      modifies this
      ensures Stored() == Apply(old(Stored()), Approve(request, grantor, chart, ttlDays, now))
      ensures match Decision(old(Stored()), request, grantor, chart)
              case Err(e) => r == Err(e)
              case Ok(_) => r == Ok(old(nextId))
    {
      var decided := Decide(request, grantor, chart);
      if decided.Err? { return Err(decided.error); }
      var row := decided.value;
      var id := nextId;
      nextId := nextId + 1;
      scopes := scopes[id := ScopeRow(row.project, row.requester, grantor.email, JoinIds(SplitIds(row.persons)),
                                      JoinIds(SplitIds(row.companies)), ExpiryAfter(ttlDays, now), Active)];
      requests := requests[request := row.(status := Granted, scopeId := Some(id))];
      return Ok(id);
    }

    method DenyRequest(request: Id, grantor: Caller, chart: OrgChart.Chart) returns (r: Result<()>)
      requires chart.Valid()
      modifies this
      ensures Stored() == Apply(old(Stored()), Deny(request, grantor, chart))
      ensures match Decision(old(Stored()), request, grantor, chart)
              case Err(e) => r == Err(e)
              case Ok(_) => r == Ok(())
    {
      var decided := Decide(request, grantor, chart);
      if decided.Err? { return Err(decided.error); }
      requests := requests[request := decided.value.(status := Denied)];
      return Ok(());
    }

    method RevokeScope(scope: Id, actor: Caller) returns (r: Result<()>)
      modifies this
      ensures Stored() == Apply(old(Stored()), Revoke(scope, actor))
      ensures r == if scope !in old(scopes) then Err(NotFound)
                   else if !MayRevoke(old(Stored()), scope, actor) then Err(AccessDenied) else Ok(())
      ensures r.Err? ==> Stored() == old(Stored())
      ensures r.Ok? ==>
        && scopes == old(scopes)[scope := old(scopes)[scope].(status := Revoked)] && requests.Keys == old(requests).Keys
        && forall q <- requests :: if old(requests)[q].scopeId == Some(scope) then requests[q].status.Expired?
                                   else requests[q] == old(requests)[q]
    {
      if scope !in scopes { return Err(NotFound); }
      var authorized := actor.email == scopes[scope].grantedBy || AtLeast(actor.clearance, L5);
      if !authorized { return Err(AccessDenied); }
      scopes := scopes[scope := scopes[scope].(status := Revoked)];
      requests := map r | r in requests :: SpendRequest(requests[r], scope);
      return Ok(());
    }

    method AddSkill(scope: Id, name: string, guest: string, floor: Clearance) returns (r: Result<Skill>)
      modifies this
      ensures Stored() == Apply(old(Stored()), DefineSkill(scope, name, guest, floor))
      ensures r == if scope in old(scopes) then Ok(Skill(name, scope, guest, floor)) else Err(NotFound)
      ensures forall s, n :: FindSkill(skills, s, n) ==
                if r.Ok? && s == scope && n == name && FindSkill(old(skills), s, n).None? then Some(r.value)
                else FindSkill(old(skills), s, n)
    {
      FindAppended(skills, Skill(name, scope, guest, floor));
      if scope !in scopes { return Err(NotFound); }
      skills := skills + [Skill(name, scope, guest, floor)];
      return Ok(Skill(name, scope, guest, floor));
    }

    method AuthorizeSkill(caller: Caller, scope: Id, skill: string, now: int) returns (r: Result<Skill>)
      ensures r == Authorize(Stored(), caller, scope, skill, now)
      ensures r.Ok? <==>
        && scope in scopes && scopes[scope].status == Active && !IsExpired(scopes[scope].expiresAt, now)
        && scopes[scope].requester == caller.email
        && exists i :: IsFirst(skills, i, scope, skill) && AtLeast(caller.clearance, skills[i].floor)
      ensures r.Ok? ==> exists i :: IsFirst(skills, i, scope, skill) && r.value == skills[i]
    {
      if scope !in scopes { return Err(NotFound); }
      var row := scopes[scope];
      if row.status != Active || IsExpired(row.expiresAt, now) { return Err(InvalidInput); }
      if caller.email != row.requester { return Err(AccessDenied); }
      var i := 0;
      while i < |skills| && !(skills[i].scopeId == scope && skills[i].name == skill)
        invariant 0 <= i <= |skills|
        invariant forall j :: 0 <= j < i ==> !(skills[j].scopeId == scope && skills[j].name == skill)
      {
        i := i + 1;
      }
      FirstIsFound(skills, i, scope, skill);
      if i == |skills| { return Err(NotFound); }
      assert IsFirst(skills, i, scope, skill);
      if !AtLeast(caller.clearance, skills[i].floor) { return Err(AccessDenied); }
      return Ok(skills[i]);
    }

    /** The sweep: each past-due active scope is updated in turn, and counted. */
    method Sweep(now: int) returns (expired: nat)
      modifies this`scopes
      ensures Stored() == Apply(old(Stored()), ExpireDue(now))
      ensures expired == |Due(old(scopes), now)|
    {
      hide Marked, Due, Apply;
      NoneMarked(scopes);
      DueAreActive(scopes, now);
      expired := 0;
      var rows := scopes;
      var left := set s | s in rows && rows[s].status == Active;
      ghost var swept: set<Id> := {};
      while left != {}
        invariant left <= rows.Keys
        invariant swept == Due(rows, now) - left
        invariant expired == |swept| && scopes == Marked(rows, swept)
        decreases left
      {
        var s :| s in left;
        SweepOne(rows, now, left, s);
        left := left - {s};
        if rows[s].status == Active && IsExpired(rows[s].expiresAt, now) {
          MarkOne(rows, swept, s);
          scopes := scopes[s := rows[s].(status := ScopeStatus.Expired)];
          expired := expired + 1;
          swept := swept + {s};
        }
      }
      MarkedDue(old(Stored()), now);
      assert Due(rows, now) - left == Due(rows, now);
    }
  }
}
