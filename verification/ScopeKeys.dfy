/** Visibility scopes, the text that identifies one in a cache key, and when that text
    tells scopes apart. */
module ScopeKeys {
  import opened Firm
  import Delimited

  // ---- Sets of identifiers in order ---------------------------------------------------------

  predicate Before(a: string, b: string) {
    b != "" && (a == "" || a[0] < b[0] || (a[0] == b[0] && Before(a[1..], b[1..])))
  }

  lemma {:induction false} BeforeIsTotal(a: string, b: string)
    ensures a == b || Before(a, b) || Before(b, a)
  {
    if a != "" && b != "" && a[0] == b[0] {
      BeforeIsTotal(a[1..], b[1..]);
      assert a == [a[0]] + a[1..] && b == [b[0]] + b[1..];
    }
  }

  lemma {:induction false} BeforeIsTransitive(a: string, b: string, c: string)
    requires Before(a, b) && Before(b, c)
    ensures Before(a, c)
  {
    if a != "" && a[0] == b[0] == c[0] {
      BeforeIsTransitive(a[1..], b[1..], c[1..]);
    }
  }

  /** The order of the dictionary: by the first character that differs, and a text before
      its continuations. */
  lemma {:induction false} DictionaryOrder(p: string, c: char, x: string, d: char, y: string)
    ensures Before(p, p + [c] + x)
    ensures c < d ==> Before(p + [c] + x, p + [d] + y) && !Before(p + [d] + y, p + [c] + x)
  {
    if p != "" {
      DictionaryOrder(p[1..], c, x, d, y);
      assert (p + [c] + x)[1..] == p[1..] + [c] + x && (p + [d] + y)[1..] == p[1..] + [d] + y;
    }
  }

  ghost predicate IsLeast(s: set<string>, m: string) {
    m in s && forall x <- s :: x == m || Before(m, x)
  }

  lemma {:induction false} LeastExists(s: set<string>) returns (m: string)
    requires s != {}
    ensures IsLeast(s, m)
  {
    m :| m in s;
    if s != {m} {
      var rest := s - {m};
      var n := LeastExists(rest);
      BeforeIsTotal(m, n);
      if Before(n, m) {
        m := n;
      } else {
        forall x <- s ensures x == m || Before(m, x) {
          if x != m && x != n {
            BeforeIsTransitive(m, n, x);
          }
        }
      }
    }
  }

  /** The order in which a sorted set is walked. */
  ghost function InOrder(s: set<string>): (r: seq<string>)
    ensures forall x :: x in r <==> x in s
    ensures forall i, j :: 0 <= i < j < |r| ==> Before(r[i], r[j])
  {
    if s == {} then []
    else
      assert exists m :: IsLeast(s, m) by {
        var m := LeastExists(s);
      }
      var m :| IsLeast(s, m);
      [m] + InOrder(s - {m})
  }

  // ---- Scopes ------------------------------------------------------------------------------------

  /** What one snapshot of the graph holds for a person: the companies they manage and the
      people who report to them, directly or not. */
  datatype Snapshot = Snapshot(managed: map<string, set<string>>, reports: map<string, set<string>>)

  function Of(rows: map<string, set<string>>, email: string): set<string> {
    if email in rows then rows[email] else {}
  }

  datatype Scope =
    | ClearanceScope(level: Clearance, email: string)
    | ProjectScope(base: Scope, project: string, persons: set<string>, companies: set<string>)

  predicate SeesAll(s: Scope) {
    match s case ClearanceScope(level, _) => AtLeast(level, L4) case ProjectScope(base, _, _, _) => SeesAll(base)
  }

  predicate CanSeePerson(g: Snapshot, s: Scope, email: string) {
    match s
    case ClearanceScope(level, self) =>
      SeesAll(s) || email == self || (AtLeast(level, L3) && email in Of(g.reports, self))
    case ProjectScope(base, _, persons, _) => CanSeePerson(g, base, email) || email in persons
  }

  predicate CanSeeCompany(g: Snapshot, s: Scope, company: string) {
    match s
    case ClearanceScope(_, self) => SeesAll(s) || company in Of(g.managed, self)
    case ProjectScope(base, _, _, companies) => CanSeeCompany(g, base, company) || company in companies
  }

  /** Whom and what a caller at each level sees, in any snapshot of the graph. */
  lemma SeenByLevel(g: Snapshot, email: string, id: string)
    ensures forall low :: low in {L1, L2} ==> (CanSeePerson(g, ClearanceScope(low, email), id) <==> id == email)
    ensures CanSeePerson(g, ClearanceScope(L3, email), id) <==>
      id == email || (email in g.reports && id in g.reports[email])
    ensures forall low :: low in {L1, L2, L3} ==>
      (CanSeeCompany(g, ClearanceScope(low, email), id) <==> email in g.managed && id in g.managed[email])
    ensures forall high :: high in {L4, L5} ==>
      CanSeePerson(g, ClearanceScope(high, email), id) && CanSeeCompany(g, ClearanceScope(high, email), id)
  {
  }

  /** A higher level never sees less, whatever projects are granted on top. */
  lemma {:induction false} HigherSeesMore(g: Snapshot, s: Scope, level: Clearance, id: string)
    requires Rank(level) >= Rank(BaseOf(s).level)
    ensures CanSeePerson(g, s, id) ==> CanSeePerson(g, Raised(s, level), id)
    ensures CanSeeCompany(g, s, id) ==> CanSeeCompany(g, Raised(s, level), id)
    ensures SeesAll(s) ==> SeesAll(Raised(s, level))
  {
    if s.ProjectScope? {
      HigherSeesMore(g, s.base, level, id);
    }
  }

  function BaseOf(s: Scope): (b: Scope)
    ensures b.ClearanceScope?
  {
    match s case ClearanceScope(_, _) => s case ProjectScope(base, _, _, _) => BaseOf(base)
  }

  function Raised(s: Scope, level: Clearance): Scope {
    match s
    case ClearanceScope(_, email) => ClearanceScope(level, email)
    case ProjectScope(base, project, persons, companies) =>
      ProjectScope(Raised(base, level), project, persons, companies)
  }

  /** Nested to any depth, a scope sees what its base sees and what any of its grants name,
      and is raised to seeing all by none of them. */
  lemma {:induction false} GrantsOnlyAdd(g: Snapshot, s: Scope, id: string)
    ensures SeesAll(s) <==> BaseOf(s).level in {L4, L5}
    ensures CanSeePerson(g, s, id) <==> CanSeePerson(g, BaseOf(s), id) || exists p <- Grants(s) :: id in p.0
    ensures CanSeeCompany(g, s, id) <==> CanSeeCompany(g, BaseOf(s), id) || exists p <- Grants(s) :: id in p.1
  {
    if s.ProjectScope? {
      GrantsOnlyAdd(g, s.base, id);
      var here := (s.persons, s.companies);
      assert Grants(s) == [here] + Grants(s.base);
      assert here in Grants(s) && forall p <- Grants(s.base) :: p in Grants(s);
      assert forall p <- Grants(s) :: p == here || p in Grants(s.base);
    }
  }

  /** The people and companies granted, project by project. */
  function Grants(s: Scope): seq<(set<string>, set<string>)> {
    match s
    case ClearanceScope(_, _) => []
    case ProjectScope(base, _, persons, companies) => [(persons, companies)] + Grants(base)
  }

  /** Two scopes that see exactly the same nodes, whatever the graph. */
  ghost predicate SeeTheSame(a: Scope, b: Scope) {
    && (SeesAll(a) <==> SeesAll(b))
    && (forall g, id :: CanSeePerson(g, a, id) <==> CanSeePerson(g, b, id))
    && (forall g, id :: CanSeeCompany(g, a, id) <==> CanSeeCompany(g, b, id))
  }

  // ---- Their keys ---------------------------------------------------------------------------------

  ghost function Listed(ids: set<string>): string {
    Delimited.Join(InOrder(ids), ',')
  }

  ghost function ScopeKey(s: Scope): string {
    match s
    case ClearanceScope(level, email) => "clearance:" + ShowClearance(level) + ":" + email
    case ProjectScope(base, project, persons, companies) =>
      "project:" + project + ":" + ScopeKey(base) + ":p[" + Listed(persons) + "]:c[" + Listed(companies) + "]"
  }

  /** `function(args)@scope` */
  ghost function ScopedKey(s: Scope, name: string, args: string): string {
    name + "(" + args + ")@" + ScopeKey(s)
  }

  predicate CleanIds(ids: set<string>) {
    ids != {""} && forall id <- ids :: ',' !in id && '[' !in id
  }

  /** Project names without a colon, identifiers without a comma or an opening bracket, and
      no list of the empty identifier alone. Emails and levels are free. */
  predicate Clean(s: Scope) {
    match s
    case ClearanceScope(_, _) => true
    case ProjectScope(base, project, persons, companies) =>
      Clean(base) && ':' !in project && CleanIds(persons) && CleanIds(companies)
  }

  // ---- Reading keys back -------------------------------------------------------------------------

  lemma SplitAtFirst(c: char, x: string, y: string, x': string, y': string)
    requires c !in x && c !in x'
    requires x + [c] + y == x' + [c] + y'
    ensures x == x' && y == y'
  {
    var whole := x + [c] + y;
    assert forall i :: 0 <= i < |x| ==> whole[i] == x[i];
    assert forall i :: 0 <= i < |x'| ==> whole[i] == x'[i];
    assert whole[|x|] == c && whole[|x'|] == c;
    assert x == whole[..|x|] == x' && y == whole[|x| + 1..] == y';
  }

  lemma SplitAtLast(c: char, x: string, y: string, x': string, y': string)
    requires c !in y && c !in y'
    requires x + [c] + y == x' + [c] + y'
    ensures x == x' && y == y'
  {
    var whole := x + [c] + y;
    assert forall i :: |x| < i < |whole| ==> whole[i] == y[i - |x| - 1];
    assert forall i :: |x'| < i < |whole| ==> whole[i] == y'[i - |x'| - 1];
    assert whole[|x|] == c && whole[|x'|] == c;
    assert x == whole[..|x|] == x' && y == whole[|x| + 1..] == y';
  }

  lemma {:induction false} JoinIsFree(parts: seq<string>, sep: char, c: char)
    requires c != sep && forall p <- parts :: c !in p
    ensures c !in Delimited.Join(parts, sep)
  {
    if |parts| > 1 {
      JoinIsFree(parts[1..], sep, c);
    }
  }

  lemma ListedIsFree(ids: set<string>)
    requires CleanIds(ids)
    ensures '[' !in Listed(ids)
  {
    JoinIsFree(InOrder(ids), ',', '[');
  }

  lemma ListedInjective(a: set<string>, b: set<string>)
    requires CleanIds(a) && CleanIds(b) && Listed(a) == Listed(b)
    ensures a == b
  {
    OnlyEmpty(a);
    OnlyEmpty(b);
    Delimited.JoinInjective(InOrder(a), InOrder(b), ',');
    assert forall x :: x in a <==> x in InOrder(a);
  }

  lemma OnlyEmpty(ids: set<string>)
    ensures InOrder(ids) == [""] ==> ids == {""}
  {
    assert ids == set x | x in InOrder(ids);
  }

  lemma DropEnd(a: string, b: string, end: string)
    requires a + end == b + end
    ensures a == b
  {
    assert a == (a + end)[..|a|] && b == (b + end)[..|b|];
  }

  lemma DropStart(start: string, a: string, b: string)
    requires start + a == start + b
    ensures a == b
  {
    assert a == (start + a)[|start|..] && b == (start + b)[|start|..];
  }

  /** A field opened by a bracket and holding none is read back from the end. */
  lemma LastField(h: string, open: string, x: string, h': string, x': string)
    requires '[' !in x && '[' !in x'
    requires h + (open + "[") + x == h' + (open + "[") + x'
    ensures h == h' && x == x'
  {
    assert h + (open + "[") + x == (h + open) + ['['] + x;
    assert h' + (open + "[") + x' == (h' + open) + ['['] + x';
    SplitAtLast('[', h + open, x, h' + open, x');
    DropEnd(h, h', open);
  }

  lemma FirstField(p: string, k: string, p': string, k': string)
    requires ':' !in p && ':' !in p'
    requires "project:" + p + ":" + k == "project:" + p' + ":" + k'
    ensures p == p' && k == k'
  {
    assert "project:" + p + ":" + k == "project:" + (p + [':'] + k);
    assert "project:" + p' + ":" + k' == "project:" + (p' + [':'] + k');
    DropStart("project:", p + [':'] + k, p' + [':'] + k');
    SplitAtFirst(':', p, k, p', k');
  }

  lemma LevelsDiffer(a: Scope, b: Scope)
    requires a.ClearanceScope? && b.ClearanceScope? && ScopeKey(a) == ScopeKey(b)
    ensures a == b
  {
    var ka, kb := ScopeKey(a), ScopeKey(b);
    assert ka[11] == ShowClearance(a.level)[1] && kb[11] == ShowClearance(b.level)[1];
    assert ka[13..] == a.email && kb[13..] == b.email;
  }

  /** Clean scopes have equal keys exactly when they are the same scope: the same nesting
      of projects and grants over the same clearance and email. */
  lemma {:induction false} KeysAreFaithful(a: Scope, b: Scope)
    requires Clean(a) && Clean(b)
    ensures ScopeKey(a) == ScopeKey(b) <==> a == b
  {
    if ScopeKey(a) == ScopeKey(b) {
      assert ScopeKey(a)[0] == ScopeKey(b)[0];
      if a.ClearanceScope? && b.ClearanceScope? {
        LevelsDiffer(a, b);
      } else if a.ProjectScope? && b.ProjectScope? {
        ProjectParts(a, b);
        KeysAreFaithful(a.base, b.base);
      }
    }
  }

  lemma ProjectParts(a: Scope, b: Scope)
    requires a.ProjectScope? && b.ProjectScope? && Clean(a) && Clean(b) && ScopeKey(a) == ScopeKey(b)
    ensures a.project == b.project && a.persons == b.persons && a.companies == b.companies
    ensures ScopeKey(a.base) == ScopeKey(b.base)
  {
    hide Listed;
    ListedIsFree(a.persons);
    ListedIsFree(b.persons);
    ListedIsFree(a.companies);
    ListedIsFree(b.companies);
    FieldsAgree(a.project, ScopeKey(a.base), Listed(a.persons), Listed(a.companies),
                b.project, ScopeKey(b.base), Listed(b.persons), Listed(b.companies));
    ListedInjective(a.persons, b.persons);
    ListedInjective(a.companies, b.companies);
  }

  /** A project key read from its end back to the project and the base's key. */
  lemma FieldsAgree(p: string, k: string, ps: string, cs: string, p': string, k': string, ps': string, cs': string)
    requires ':' !in p && ':' !in p' && '[' !in ps && '[' !in ps' && '[' !in cs && '[' !in cs'
    requires "project:" + p + ":" + k + ":p[" + ps + "]:c[" + cs + "]"
             == "project:" + p' + ":" + k' + ":p[" + ps' + "]:c[" + cs' + "]"
    ensures p == p' && k == k' && ps == ps' && cs == cs'
  {
    var h, h' := "project:" + p + ":" + k, "project:" + p' + ":" + k';
    var m, m' := h + ":p[" + ps, h' + ":p[" + ps';
    assert "]:c" + "[" == "]:c[" && ":p" + "[" == ":p[";
    DropEnd(m + "]:c[" + cs, m' + "]:c[" + cs', "]");
    LastField(m, "]:c", cs, m', cs');
    LastField(h, ":p", ps, h', ps');
    FirstField(p, k, p', k');
  }

  /** What the cache relies on: an entry is shared only between calls of the same function
      with the same arguments by callers who see exactly the same nodes. */
  lemma SharedEntriesAreSafe(a: Scope, name: string, args: string, b: Scope, name': string, args': string)
    requires Clean(a) && Clean(b)
    requires '(' !in name && '(' !in name' && NoClosing(args) && NoClosing(args')
    requires ScopedKey(a, name, args) == ScopedKey(b, name', args')
    ensures name == name' && args == args' && SeeTheSame(a, b)
  {
    hide SeeTheSame, ScopeKey;
    var rest, rest' := args + ")@" + ScopeKey(a), args' + ")@" + ScopeKey(b);
    assert ScopedKey(a, name, args) == name + ['('] + rest;
    assert ScopedKey(b, name', args') == name' + ['('] + rest';
    SplitAtFirst('(', name, rest, name', rest');
    SplitAtClosing(args, ScopeKey(a), args', ScopeKey(b));
    KeysAreFaithful(a, b);
    SeesItself(a);
  }

  lemma SeesItself(s: Scope)
    ensures SeeTheSame(s, s)
  {
  }

  /** The arguments do not hold the two characters that end them in a key. */
  predicate NoClosing(args: string) {
    forall i {:trigger args[i]} :: 0 <= i < |args| - 1 && args[i] == ')' ==> args[i + 1] != '@'
  }

  lemma SplitAtClosing(x: string, y: string, x': string, y': string)
    requires NoClosing(x) && NoClosing(x') && x + ")@" + y == x' + ")@" + y'
    ensures x == x' && y == y'
  {
    if |x| <= |x'| {
      ClosingIsFirst(x, y, x', y');
    } else {
      ClosingIsFirst(x', y', x, y);
    }
  }

  lemma ClosingIsFirst(x: string, y: string, x': string, y': string)
    requires NoClosing(x') && |x| <= |x'| && x + ")@" + y == x' + ")@" + y'
    ensures x == x' && y == y'
  {
    var whole := x + ")@" + y;
    assert forall i :: 0 <= i < |x'| ==> whole[i] == x'[i];
    assert whole[|x|] == ')' && whole[|x| + 1] == '@' && whole[|x'|] == ')';
    assert x == whole[..|x|] == x' && y == whole[|x| + 2..] == y';
  }

  // ---- Keys that collide ------------------------------------------------------------------------------

  /** A colon in a project name: for every project, pair of levels and pair of emails there
      are two scopes with one key, one seeing all and the other not. */
  lemma ColonCollides(project: string, email: string, other: string, low: Clearance, high: Clearance)
    returns (a: Scope, b: Scope)
    requires AtLeast(high, L4) && !AtLeast(low, L4)
    ensures ScopeKey(a) == ScopeKey(b) && SeesAll(a) && !SeesAll(b)
  {
    hide Listed;
    var l, h := ShowClearance(low), ShowClearance(high);
    a := ProjectScope(ClearanceScope(high, other), project + (":clearance:" + l + ":" + email), {}, {});
    b := ProjectScope(ClearanceScope(low, email + (":clearance:" + h + ":" + other)), project, {}, {});
    Regroup(project, l, email, h, other);
  }

  lemma Regroup(p: string, l: string, e: string, h: string, f: string)
    ensures "project:" + (p + (":clearance:" + l + ":" + e)) + ":" + ("clearance:" + h + ":" + f)
            == "project:" + p + ":" + ("clearance:" + l + ":" + (e + (":clearance:" + h + ":" + f)))
  {
  }

  /** Two scopes with one key that see differently, exactly when `hidden` holds. */
  ghost predicate Collide(a: Scope, b: Scope, hidden: bool) {
    ScopeKey(a) == ScopeKey(b) && (!SeeTheSame(a, b) <==> hidden)
  }

  /** In some graph the base does not show the person, or the company. */
  ghost predicate HidesPerson(base: Scope, id: string) {
    exists g :: !CanSeePerson(g, base, id)
  }

  ghost predicate HidesCompany(base: Scope, id: string) {
    exists g :: !CanSeeCompany(g, base, id)
  }

  /** Project scopes over one base see the same exactly when the base shows, in every
      graph, whatever only one of them was granted. */
  lemma SameOverBase(base: Scope, project: string, ps: set<string>, cs: set<string>, ps': set<string>, cs': set<string>)
    ensures SeeTheSame(ProjectScope(base, project, ps, cs), ProjectScope(base, project, ps', cs'))
       <==> && (forall id :: (id in ps) != (id in ps') ==> !HidesPerson(base, id))
            && (forall id :: (id in cs) != (id in cs') ==> !HidesCompany(base, id))
  {
    var a, b := ProjectScope(base, project, ps, cs), ProjectScope(base, project, ps', cs');
    forall g, id
      ensures CanSeePerson(g, a, id) == CanSeePerson(g, b, id)
         <==> CanSeePerson(g, base, id) || (id in ps) == (id in ps')
      ensures CanSeeCompany(g, a, id) == CanSeeCompany(g, b, id)
         <==> CanSeeCompany(g, base, id) || (id in cs) == (id in cs')
    {
    }
  }

  /** A comma in an identifier: granting `x,y` and granting `x` and `y` give one key, and
      see differently unless the base shows all three anyway. */
  lemma CommaCollides(base: Scope, project: string, x: string, y: string)
    requires Before(x, y)
    ensures Collide(ProjectScope(base, project, {x + "," + y}, {}), ProjectScope(base, project, {x, y}, {}),
                    HidesPerson(base, x) || HidesPerson(base, y) || HidesPerson(base, x + "," + y))
  {
    OrderOfOne(x + "," + y);
    OrderOfTwo(x, y);
    assert Delimited.Join([x, y], ',') == x + [','] + Delimited.Join([x, y][1..], ',');
    assert [x, y][1..] == [y];
    hide SeeTheSame, HidesPerson;
    assert |x + "," + y| > |x| && |x + "," + y| > |y|;
    SameOverBase(base, project, {x + "," + y}, {}, {x, y}, {});
    assert x in {x, y} && x !in {x + "," + y} && y in {x, y} && y !in {x + "," + y};
    assert x + "," + y in {x + "," + y} && x + "," + y !in {x, y};
  }

  lemma OrderOfOne(x: string)
    ensures InOrder({x}) == [x]
  {
  }

  lemma {:induction false} BeforeIsStrict(x: string)
    ensures !Before(x, x)
  {
    if x != "" {
      BeforeIsStrict(x[1..]);
    }
  }

  lemma OrderOfTwo(x: string, y: string)
    requires Before(x, y)
    ensures InOrder({x, y}) == [x, y]
  {
    BeforeIsStrict(x);
    if Before(y, x) {
      BeforeIsTransitive(x, y, x);
    }
    assert IsLeast({x, y}, x);
    assert forall m :: IsLeast({x, y}, m) ==> m == x;
    assert {x, y} - {x} == {y};
    OrderOfOne(y);
  }

  /** The empty identifier: granting it alone and granting nothing give one key, and see
      differently unless the base shows it anyway. */
  lemma EmptyIdCollides(base: Scope, project: string)
    ensures Collide(ProjectScope(base, project, {""}, {}), ProjectScope(base, project, {}, {}), HidesPerson(base, ""))
  {
    OrderOfOne("");
    hide SeeTheSame, HidesPerson;
    SameOverBase(base, project, {""}, {}, {}, {});
    assert "" in {""};
  }

  /** An opening bracket in an identifier: a granted company passes for part of a person,
      and the two scopes see differently unless the base shows all three anyway. */
  lemma BracketCollides(base: Scope, project: string, x: string, y: string)
    ensures Collide(ProjectScope(base, project, {x + "]:c[" + y}, {}), ProjectScope(base, project, {x}, {y + "]:c["}),
                    HidesPerson(base, x) || HidesPerson(base, x + "]:c[" + y) || HidesCompany(base, y + "]:c["))
  {
    var xy, yc := x + "]:c[" + y, y + "]:c[";
    SameBracketKey(base, project, x, y);
    hide SeeTheSame, HidesPerson, HidesCompany, ScopeKey;
    assert |xy| > |x|;
    SameOverBase(base, project, {xy}, {}, {x}, {yc});
    assert x in {x} && x !in {xy} && xy in {xy} && xy !in {x} && yc in {yc};
  }

  lemma SameBracketKey(base: Scope, project: string, x: string, y: string)
    ensures ScopeKey(ProjectScope(base, project, {x + "]:c[" + y}, {}))
         == ScopeKey(ProjectScope(base, project, {x}, {y + "]:c["}))
  {
    OrderOfOne(x);
    OrderOfOne(y + "]:c[");
    OrderOfOne(x + "]:c[" + y);
    var h := "project:" + project + ":" + ScopeKey(base) + ":p[";
    assert h + (x + "]:c[" + y) + "]:c[" + "" + "]" == h + x + "]:c[" + (y + "]:c[") + "]";
  }

  lemma {:induction false} SeesAllSees(g: Snapshot, s: Scope, id: string)
    requires SeesAll(s)
    ensures CanSeePerson(g, s, id) && CanSeeCompany(g, s, id)
  {
    if s.ProjectScope? {
      SeesAllSees(g, s.base, id);
    }
  }

  /** A bracket in one company is enough, as emails are free: the part before it can pass
      for the end of the base's email. The two scopes see differently unless they see all. */
  lemma CompanyBracketCollides(level: Clearance, project: string, email: string,
                               x: string, y: string, z: string, w: string)
    ensures Collide(ProjectScope(ClearanceScope(level, email), project, {x}, {y + ":p[" + z + "]:c[" + w}),
                    ProjectScope(ClearanceScope(level, email + ":p[" + x + "]:c[" + y), project, {z}, {w}),
                    !AtLeast(level, L4))
  {
    var longer := email + ":p[" + x + "]:c[" + y;
    SameCompanyKey(level, project, email, x, y, z, w);
    var a := ProjectScope(ClearanceScope(level, email), project, {x}, {y + ":p[" + z + "]:c[" + w});
    var b := ProjectScope(ClearanceScope(level, longer), project, {z}, {w});
    hide ScopeKey;
    assert SeesAll(a) == SeesAll(a.base) == AtLeast(level, L4) && SeesAll(b) == SeesAll(b.base) == AtLeast(level, L4);
    if AtLeast(level, L4) {
      forall g, id
        ensures CanSeePerson(g, a, id) && CanSeePerson(g, b, id) && CanSeeCompany(g, a, id) && CanSeeCompany(g, b, id)
      {
        SeesAllSees(g, a, id);
        SeesAllSees(g, b, id);
      }
    } else {
      var g := Snapshot(map[], map[]);
      assert |longer| > |email| && |longer| > |x|;
      assert Of(g.reports, email) == {} && !CanSeePerson(g, a.base, longer) && CanSeePerson(g, b.base, longer);
      assert CanSeePerson(g, b, longer) && !CanSeePerson(g, a, longer);
    }
  }

  lemma SameCompanyKey(level: Clearance, project: string, email: string, x: string, y: string, z: string, w: string)
    ensures ScopeKey(ProjectScope(ClearanceScope(level, email), project, {x}, {y + ":p[" + z + "]:c[" + w}))
         == ScopeKey(ProjectScope(ClearanceScope(level, email + ":p[" + x + "]:c[" + y), project, {z}, {w}))
  {
    OrderOfOne(x);
    OrderOfOne(z);
    OrderOfOne(w);
    OrderOfOne(y + ":p[" + z + "]:c[" + w);
    hide InOrder;
    ShiftBracket("project:" + project + ":", "clearance:" + ShowClearance(level) + ":", email, x, y, z, w);
  }

  lemma ShiftBracket(h: string, k: string, e: string, x: string, y: string, z: string, w: string)
    ensures h + (k + e) + ":p[" + x + "]:c[" + (y + ":p[" + z + "]:c[" + w) + "]"
         == h + (k + (e + ":p[" + x + "]:c[" + y)) + ":p[" + z + "]:c[" + w + "]"
  {
    var px, tail := ":p[" + x + "]:c[" + y, ":p[" + z + "]:c[" + w;
    assert h + (k + e) + ":p[" + x + "]:c[" + (y + tail) + "]" == h + k + e + px + tail + "]";
    assert e + ":p[" + x + "]:c[" + y == e + px;
    assert h + (k + (e + px)) + ":p[" + z + "]:c[" + w + "]" == h + k + e + px + tail + "]";
    assert y + ":p[" + z + "]:c[" + w == y + tail;
  }
}
