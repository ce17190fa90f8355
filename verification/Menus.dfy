/** The menu hierarchy: what Create, Update and Delete accept, and the forest they keep. */
module Menus {
  import opened Strings
  import opened Wrappers

  /** A row of the menus table; a soft-deleted row stays in it. The empty route stands for SQL's null. */
  datatype Menu = Menu(id: string, code: string, name: string, route: string, parent: Option<string>,
                       sortOrder: int, isActive: bool, deleted: bool)

  type Rows = map<string, Menu>

  datatype MenuError =
    | IdRequired | NotFound | HasChildren | Cycle | ParentInvalid | CodeInvalid | NameRequired | SortOrderInvalid
    | RouteRequired | RouteInvalid | CodeTaken | RouteTaken | Conflict | StorageFailed

  datatype CreateRequest =
    CreateRequest(code: string, name: string, route: string, parentId: string, sortOrder: int, isActive: Option<bool>)

  datatype UpdateRequest =
    UpdateRequest(code: Option<string>, name: Option<string>, route: Option<string>, parentId: Option<string>,
                  sortOrder: Option<int>, isActive: Option<bool>)

  predicate IsLive(rows: Rows, id: string) {
    id in rows && !rows[id].deleted
  }

  // ---------- chains of parents ----------

  /** n parents up from id there is a menu without a parent; every menu on the way is live, and none is in avoid. */
  predicate RootAfter(rows: Rows, id: string, n: nat, avoid: set<string>)
    decreases n
  {
    && IsLive(rows, id) && id !in avoid
    && if n == 0 then rows[id].parent == None
       else rows[id].parent.Some? && RootAfter(rows, rows[id].parent.value, n - 1, avoid)
  }

  /** n parents up from id there is no live menu; the menus before it are live, and none is in avoid. */
  predicate MissingAfter(rows: Rows, id: string, n: nat, avoid: set<string>)
    decreases n
  {
    if n == 0 then !IsLive(rows, id)
    else
      && IsLive(rows, id) && id !in avoid
      && rows[id].parent.Some? && MissingAfter(rows, rows[id].parent.value, n - 1, avoid)
  }

  ghost predicate ReachesRoot(rows: Rows, id: string, avoid: set<string>) {
    exists n: nat :: RootAfter(rows, id, n, avoid)
  }

  ghost predicate ReachesMissing(rows: Rows, id: string, avoid: set<string>) {
    exists n: nat :: MissingAfter(rows, id, n, avoid)
  }

  /** The live menus form a forest: from each, the chain of parents stays live and reaches a root. */
  ghost predicate Forest(rows: Rows) {
    forall id :: IsLive(rows, id) ==> ReachesRoot(rows, id, {})
  }

  // ---------- what is accepted ----------

  ghost function ChainError(rows: Rows, id: string, parent: string): (r: Option<MenuError>) {
    if ReachesRoot(rows, parent, {id}) then None
    else if ReachesMissing(rows, parent, {id}) then Some(ParentInvalid)
    else Some(Cycle)
  }

  ghost function ParentError(rows: Rows, m: Menu): (r: Option<MenuError>) {
    match m.parent
    case None => None
    case Some(p) => if p == m.id then Some(Cycle) else ChainError(rows, m.id, p)
  }

  predicate IsAlphanumeric(c: char) {
    'a' <= c <= 'z' || '0' <= c <= '9'
  }

  /** Runs of lower-case letters and digits, joined by single hyphens or underscores. */
  predicate IsSlug(s: string) {
    && s != "" && IsAlphanumeric(s[0]) && IsAlphanumeric(s[|s| - 1])
    && (forall i :: 0 <= i < |s| ==> IsAlphanumeric(s[i]) || s[i] == '-' || s[i] == '_')
    && (forall i :: 0 < i < |s| ==> IsAlphanumeric(s[i - 1]) || IsAlphanumeric(s[i]))
  }

  predicate HasLiveChild(rows: Rows, id: string) {
    exists c :: c in rows && !rows[c].deleted && rows[c].parent == Some(id)
  }

  predicate LiveCode(rows: Rows, id: string, code: string) {
    exists j :: j in rows && !rows[j].deleted && j != id && rows[j].code == code
  }

  predicate LiveRoute(rows: Rows, id: string, route: string) {
    exists j :: j in rows && !rows[j].deleted && j != id && rows[j].route == route
  }

  /** The first thing wrong with a menu about to be written, if any. */
  ghost function Problem(rows: Rows, m: Menu, creating: bool): (r: Option<MenuError>) {
    if !IsSlug(m.code) then Some(CodeInvalid)
    else if TrimSpace(m.name) == "" then Some(NameRequired)
    else if m.sortOrder < 0 then Some(SortOrderInvalid)
    else if ParentError(rows, m).Some? then ParentError(rows, m)
    else if m.route == "" && !creating && !HasLiveChild(rows, m.id) then Some(RouteRequired)
    else if m.route != "" && m.route[0] != '/' then Some(RouteInvalid)
    else if LiveCode(rows, m.id, m.code) then Some(CodeTaken)
    else if m.route != "" && LiveRoute(rows, m.id, m.route) then Some(RouteTaken)
    else None
  }

  /** Everything a menu must fulfil to be written. */
  ghost predicate Writable(rows: Rows, m: Menu, creating: bool) {
    && IsSlug(m.code) && TrimSpace(m.name) != "" && m.sortOrder >= 0
    && ParentError(rows, m) == None
    && (if m.route == "" then creating || HasLiveChild(rows, m.id) else m.route[0] == '/' && !LiveRoute(rows, m.id, m.route))
    && !LiveCode(rows, m.id, m.code)
  }

  lemma WritableIff(rows: Rows, m: Menu, creating: bool)
    ensures Problem(rows, m, creating) == None <==> Writable(rows, m, creating)
  {
    hide IsSlug, TrimSpace, ParentError, HasLiveChild, LiveCode, LiveRoute;
  }

  /** A duplicate key: the table's unique constraints look at deleted rows too. */
  predicate Clashes(rows: Rows, m: Menu) {
    exists j :: j in rows && j != m.id && (rows[j].code == m.code || (m.route != "" && rows[j].route == m.route))
  }

  function Cleaned(m: Menu): (r: Menu) {
    m.(route := TrimSpace(m.route), parent := if m.parent.Some? then NonBlank(m.parent.value) else None)
  }

  function NonBlank(s: string): (r: Option<string>) {
    if TrimSpace(s) == "" then None else Some(TrimSpace(s))
  }

  function Draft(req: CreateRequest, id: string): (r: Menu) {
    Menu(id, TrimSpace(req.code), TrimSpace(req.name), TrimSpace(req.route), NonBlank(req.parentId), req.sortOrder,
         req.isActive == None || req.isActive.value, false)
  }

  function Edited(m: Menu, req: UpdateRequest): (r: Menu) {
    m.(code := if req.code.Some? then TrimSpace(req.code.value) else m.code,
       name := if req.name.Some? then TrimSpace(req.name.value) else m.name,
       route := if req.route.Some? then TrimSpace(req.route.value) else m.route,
       parent := if req.parentId.Some? then NonBlank(req.parentId.value) else m.parent,
       sortOrder := if req.sortOrder.Some? then req.sortOrder.value else m.sortOrder,
       isActive := if req.isActive.Some? then req.isActive.value else m.isActive)
  }

  /** The parent that a given string names: none if it is blank, otherwise the string without the white space around it. */
  ghost predicate ParentGiven(given: string, parent: Option<string>) {
    match parent
    case None => Stripped(given, "")
    case Some(p) => p != "" && Stripped(given, p)
  }

  /** What an update leaves of a row: each field as given, or as it was. */
  ghost predicate UpdatedAs(before: Menu, req: UpdateRequest, after: Menu) {
    && after.id == before.id && after.deleted == before.deleted
    && (match req.code case Some(code) => Stripped(code, after.code) case None => after.code == before.code)
    && (match req.name case Some(name) => Stripped(name, after.name) case None => after.name == before.name)
    && Stripped(if req.route.Some? then req.route.value else before.route, after.route)
    && (match req.parentId
        case Some(given) => ParentGiven(given, after.parent)
        case None => if before.parent == None then after.parent == None else ParentGiven(before.parent.value, after.parent))
    && (match req.sortOrder case Some(order) => after.sortOrder == order case None => after.sortOrder == before.sortOrder)
    && (match req.isActive case Some(active) => after.isActive == active case None => after.isActive == before.isActive)
  }

  /** What a creation stores: the fields given, active unless it says otherwise. */
  ghost predicate CreatedAs(req: CreateRequest, id: string, after: Menu) {
    && after.id == id && !after.deleted
    && Stripped(req.code, after.code) && Stripped(req.name, after.name) && Stripped(req.route, after.route)
    && ParentGiven(req.parentId, after.parent) && after.sortOrder == req.sortOrder
    && (match req.isActive case Some(active) => after.isActive == active case None => after.isActive)
  }

  lemma TrimmedOnce(s: string)
    ensures TrimSpace(TrimSpace(s)) == TrimSpace(s)
  {
    hide TrimSpace;
    TrimSpaceIsStripped(s, TrimSpace(s));
    var t := TrimSpace(s);
    assert Spaces("") && t == "" + t + "";
    TrimSpaceIsStripped(t, t);
  }

  lemma NonBlankIsGiven(s: string)
    ensures ParentGiven(s, NonBlank(s))
    ensures NonBlank(s).Some? ==> NonBlank(NonBlank(s).value) == NonBlank(s)
  {
    hide TrimSpace, Stripped;
    TrimmedOnce(s);
    TrimSpaceIsStripped(s, TrimSpace(s));
  }

  lemma EditsAsGiven(m: Menu, req: UpdateRequest)
    ensures UpdatedAs(m, req, Cleaned(Edited(m, req)))
  {
    hide TrimSpace, Stripped, NonBlank, ParentGiven;
    var route := if req.route.Some? then req.route.value else m.route;
    TrimSpaceIsStripped(route, TrimSpace(route));
    TrimmedOnce(route);
    if req.code.Some? { TrimSpaceIsStripped(req.code.value, TrimSpace(req.code.value)); }
    if req.name.Some? { TrimSpaceIsStripped(req.name.value, TrimSpace(req.name.value)); }
    if req.parentId.Some? { NonBlankIsGiven(req.parentId.value); }
    if m.parent.Some? { NonBlankIsGiven(m.parent.value); }
    if req.parentId.Some? && NonBlank(req.parentId.value) == None { assert Cleaned(Edited(m, req)).parent == None; }
  }

  lemma DraftsAsGiven(req: CreateRequest, id: string)
    ensures CreatedAs(req, id, Cleaned(Draft(req, id)))
  {
    hide TrimSpace, Stripped, NonBlank, ParentGiven;
    TrimSpaceIsStripped(req.code, TrimSpace(req.code));
    TrimSpaceIsStripped(req.name, TrimSpace(req.name));
    TrimSpaceIsStripped(req.route, TrimSpace(req.route));
    TrimmedOnce(req.route);
    NonBlankIsGiven(req.parentId);
  }

  /** The answer to writing a menu; stores says whether the database takes a row that breaks no unique constraint. */
  ghost function Saved(rows: Rows, m: Menu, creating: bool, stores: bool): (r: Result<Menu, MenuError>) {
    var problem := Problem(rows, m, creating);
    if problem.Some? then Err(problem.value)
    else if !stores then Err(StorageFailed)
    else if Clashes(rows, m) then Err(Conflict)
    else Ok(m)
  }

  datatype Op =
    | Create(req: CreateRequest, newId: string, stores: bool)
    | Update(id: string, changes: UpdateRequest, stores: bool)
    | Delete(id: string, stores: bool)

  ghost function DeleteError(rows: Rows, id: string, stores: bool): (r: Option<MenuError>) {
    if id == "" then Some(IdRequired)
    else if !IsLive(rows, id) then Some(NotFound)
    else if HasLiveChild(rows, id) then Some(HasChildren)
    else if !stores then Some(StorageFailed)
    else None
  }

  /** The answer to an operation: the row it leaves behind, or why it is refused. */
  ghost function Answer(rows: Rows, op: Op): (r: Result<Menu, MenuError>) {
    match op
    case Create(req, newId, stores) => Saved(rows, Cleaned(Draft(req, newId)), true, stores)
    case Update(id, changes, stores) =>
      if !IsLive(rows, TrimSpace(id)) then Err(NotFound)
      else Saved(rows, Cleaned(Edited(rows[TrimSpace(id)], changes)), false, stores)
    case Delete(id, stores) =>
      var error := DeleteError(rows, TrimSpace(id), stores);
      if error.Some? then Err(error.value) else Ok(rows[TrimSpace(id)].(deleted := true))
  }

  /** An operation writes one row or, when refused, none. */
  ghost function Next(rows: Rows, op: Op): (r: Rows) {
    var answer := Answer(rows, op);
    if answer.Ok? then rows[answer.value.id := answer.value] else rows
  }

  // ---------- the invariant ----------

  predicate IdsMatch(rows: Rows) {
    forall id :: id in rows ==> rows[id].id == id
  }

  predicate UniqueKeys(rows: Rows) {
    forall i, j :: i in rows && j in rows && i != j ==>
      rows[i].code != rows[j].code && (rows[i].route != "" ==> rows[i].route != rows[j].route)
  }

  predicate WellFormed(m: Menu) {
    IsSlug(m.code) && m.sortOrder >= 0 && (m.route == "" || m.route[0] == '/')
  }

  ghost predicate ValidRows(rows: Rows) {
    && IdsMatch(rows) && UniqueKeys(rows) && Forest(rows)
    && forall id :: id in rows ==> WellFormed(rows[id])
  }

  // ---------- facts about chains ----------

  lemma StepUp(rows: Rows, id: string, avoid: set<string>)
    requires IsLive(rows, id) && id !in avoid && rows[id].parent.Some?
    ensures ReachesRoot(rows, id, avoid) <==> ReachesRoot(rows, rows[id].parent.value, avoid)
    ensures ReachesMissing(rows, id, avoid) <==> ReachesMissing(rows, rows[id].parent.value, avoid)
  {
    var p := rows[id].parent.value;
    if n: nat :| RootAfter(rows, id, n, avoid) { assert RootAfter(rows, p, n - 1, avoid); }
    if n: nat :| RootAfter(rows, p, n, avoid) { assert RootAfter(rows, id, n + 1, avoid); }
    if n: nat :| MissingAfter(rows, id, n, avoid) { assert MissingAfter(rows, p, n - 1, avoid); }
    if n: nat :| MissingAfter(rows, p, n, avoid) { assert MissingAfter(rows, id, n + 1, avoid); }
  }

  lemma AtRoot(rows: Rows, id: string, avoid: set<string>)
    requires IsLive(rows, id) && id !in avoid && rows[id].parent == None
    ensures ReachesRoot(rows, id, avoid)
  {
    assert RootAfter(rows, id, 0, avoid);
  }

  lemma AtMissing(rows: Rows, id: string, avoid: set<string>)
    requires !IsLive(rows, id)
    ensures ReachesMissing(rows, id, avoid) && !ReachesRoot(rows, id, avoid)
  {
    assert MissingAfter(rows, id, 0, avoid);
  }

  predicate Inside(rows: Rows, v: string, trap: set<string>) {
    && IsLive(rows, v) && rows[v].parent.Some?
    && rows[v].parent.value in trap && IsLive(rows, rows[v].parent.value)
  }

  /** A set of live menus, each but one with a parent in the set, has no way out that avoids that one. */
  lemma {:induction false} Trapped(rows: Rows, trap: set<string>, id: string, v: string, n: nat)
    requires forall w :: w in trap && w != id ==> Inside(rows, w, trap)
    requires v in trap && IsLive(rows, v)
    ensures !RootAfter(rows, v, n, {id}) && !MissingAfter(rows, v, n, {id})
    decreases n
  {
    if n > 0 && v != id { Trapped(rows, trap, id, rows[v].parent.value, n - 1); }
  }

  lemma {:induction false} RootUnique(rows: Rows, id: string, n: nat, k: nat, a: set<string>, b: set<string>)
    requires RootAfter(rows, id, n, a) && RootAfter(rows, id, k, b)
    ensures n == k
    decreases n
  {
    if n > 0 && k > 0 { RootUnique(rows, rows[id].parent.value, n - 1, k - 1, a, b); }
  }

  /** A chain that is shorter than that of another menu does not pass it. */
  lemma {:induction false} ShorterAvoids(rows: Rows, id: string, n: nat, q: string, k: nat)
    requires RootAfter(rows, id, n, {}) && RootAfter(rows, q, k, {}) && k < n
    ensures RootAfter(rows, q, k, {id})
    decreases k
  {
    if q == id { RootUnique(rows, q, n, k, {}, {}); }
    if k > 0 { ShorterAvoids(rows, id, n, rows[q].parent.value, k - 1); }
  }

  ghost predicate AgreeOff(rows: Rows, rows': Rows, id: string) {
    forall y :: y != id ==> (y in rows <==> y in rows') && (y in rows ==> rows[y] == rows'[y])
  }

  /** A chain that avoids the one row that changed is still there. */
  lemma {:induction false} ChainKept(rows: Rows, rows': Rows, id: string, x: string, n: nat)
    requires AgreeOff(rows, rows', id) && RootAfter(rows, x, n, {id})
    ensures RootAfter(rows', x, n, {id}) && RootAfter(rows', x, n, {})
    decreases n
  {
    if n > 0 { ChainKept(rows, rows', id, rows[x].parent.value, n - 1); }
  }

  /** Every chain either avoids the changed row or joins that row's new chain. */
  lemma {:induction false} Grafted(rows: Rows, rows': Rows, id: string, x: string, n: nat)
    requires AgreeOff(rows, rows', id) && RootAfter(rows, x, n, {}) && ReachesRoot(rows', id, {})
    ensures ReachesRoot(rows', x, {})
    decreases n
  {
    if x != id {
      if n == 0 {
        AtRoot(rows', x, {});
      } else {
        Grafted(rows, rows', id, rows[x].parent.value, n - 1);
        StepUp(rows', x, {});
      }
    }
  }

  lemma AcceptedMoveKeepsForest(rows: Rows, m: Menu)
    requires Forest(rows) && !m.deleted && ParentError(rows, m) == None
    ensures Forest(rows[m.id := m])
  {
    var rows' := rows[m.id := m];
    if m.parent == None {
      AtRoot(rows', m.id, {});
    } else {
      var p := m.parent.value;
      var n: nat :| RootAfter(rows, p, n, {m.id});
      ChainKept(rows, rows', m.id, p, n);
      assert ReachesRoot(rows', p, {});
      StepUp(rows', m.id, {});
    }
    forall x | IsLive(rows', x) ensures ReachesRoot(rows', x, {}) {
      if x != m.id {
        assert IsLive(rows, x);
        var n: nat :| RootAfter(rows, x, n, {});
        Grafted(rows, rows', m.id, x, n);
      }
    }
  }

  lemma ForestMoveIsAccepted(rows: Rows, m: Menu)
    requires !m.deleted && Forest(rows[m.id := m])
    ensures ParentError(rows, m) == None
  {
    var rows' := rows[m.id := m];
    assert IsLive(rows', m.id);
    var n: nat :| RootAfter(rows', m.id, n, {});
    if m.parent.Some? {
      var p := m.parent.value;
      if p == m.id { RootUnique(rows', p, n, n - 1, {}, {}); }
      ShorterAvoids(rows', m.id, n, p, n - 1);
      ChainKept(rows', rows, m.id, p, n - 1);
    }
  }

  /** The parent check accepts exactly the moves, and the new menus, that keep the live menus a forest. */
  lemma ParentAcceptedIffForest(rows: Rows, m: Menu)
    requires Forest(rows) && !m.deleted
    ensures ParentError(rows, m) == None <==> Forest(rows[m.id := m])
  {
    if ParentError(rows, m) == None { AcceptedMoveKeepsForest(rows, m); }
    if Forest(rows[m.id := m]) { ForestMoveIsAccepted(rows, m); }
  }

  /** The n-th parent of a menu, if the chain gets that far. */
  function Ancestor(rows: Rows, id: string, n: nat): (r: Option<string>)
    decreases n
  {
    if n == 0 then Some(id)
    else if IsLive(rows, id) && rows[id].parent.Some? then Ancestor(rows, rows[id].parent.value, n - 1)
    else None
  }

  lemma {:induction false} PassesAncestor(rows: Rows, q: string, k: nat, id: string)
    requires RootAfter(rows, q, k, {}) && !RootAfter(rows, q, k, {id})
    ensures exists n: nat :: Ancestor(rows, q, n) == Some(id)
    decreases k
  {
    if q == id {
      assert Ancestor(rows, q, 0) == Some(id);
    } else {
      var p := rows[q].parent.value;
      PassesAncestor(rows, p, k - 1, id);
      var n: nat :| Ancestor(rows, p, n) == Some(id);
      assert Ancestor(rows, q, n + 1) == Some(id);
    }
  }

  lemma {:induction false} AvoidsAncestors(rows: Rows, q: string, k: nat, id: string, n: nat)
    requires RootAfter(rows, q, k, {id})
    ensures Ancestor(rows, q, n) != Some(id)
    decreases n
  {
    if n > 0 && rows[q].parent.Some? { AvoidsAncestors(rows, rows[q].parent.value, k - 1, id, n - 1); }
  }

  /**
   * In a forest the two refusals mean what they say: an invalid parent is one that is not live, and a
   * cycle is reported exactly when the new parent is the menu itself or lies below it.
   */
  lemma RefusalsAreExact(rows: Rows, m: Menu)
    requires Forest(rows) && IsLive(rows, m.id) && m.parent.Some?
    ensures ParentError(rows, m) == Some(ParentInvalid) <==> !IsLive(rows, m.parent.value)
    ensures ParentError(rows, m) == Some(Cycle) <==> exists n: nat :: Ancestor(rows, m.parent.value, n) == Some(m.id)
  {
    var p := m.parent.value;
    if !IsLive(rows, p) {
      AtMissing(rows, p, {m.id});
      assert Ancestor(rows, p, 0) == Some(p);
      assert forall n: nat :: n > 0 ==> Ancestor(rows, p, n) == None;
    } else {
      var k: nat :| RootAfter(rows, p, k, {});
      if RootAfter(rows, p, k, {m.id}) {
        forall n: nat ensures Ancestor(rows, p, n) != Some(m.id) { AvoidsAncestors(rows, p, k, m.id, n); }
      } else {
        PassesAncestor(rows, p, k, m.id);
        forall n: nat ensures !RootAfter(rows, p, n, {m.id}) && !MissingAfter(rows, p, n, {m.id}) {
          NeverMissing(rows, p, k, n, {m.id});
          if RootAfter(rows, p, n, {m.id}) { RootUnique(rows, p, n, k, {m.id}, {}); }
        }
      }
    }
  }

  lemma {:induction false} NeverMissing(rows: Rows, q: string, k: nat, n: nat, avoid: set<string>)
    requires RootAfter(rows, q, k, {})
    ensures !MissingAfter(rows, q, n, avoid)
    decreases n
  {
    if n > 0 && k > 0 { NeverMissing(rows, rows[q].parent.value, k - 1, n - 1, avoid); }
  }

  // ---------- deleting ----------

  lemma {:induction false} ChildlessAvoided(rows: Rows, id: string, x: string, n: nat)
    requires !HasLiveChild(rows, id) && RootAfter(rows, x, n, {}) && x != id
    ensures RootAfter(rows, x, n, {id})
    decreases n
  {
    if n > 0 { ChildlessAvoided(rows, id, rows[x].parent.value, n - 1); }
  }

  /** Deleting a live menu keeps the forest exactly when no live menu is its child. */
  lemma DeleteKeepsForestIff(rows: Rows, id: string)
    requires Forest(rows) && IsLive(rows, id)
    ensures Forest(rows[id := rows[id].(deleted := true)]) <==> !HasLiveChild(rows, id)
  {
    var rows' := rows[id := rows[id].(deleted := true)];
    if HasLiveChild(rows, id) {
      var c :| c in rows && !rows[c].deleted && rows[c].parent == Some(id);
      assert IsLive(rows, c);
      var n: nat :| RootAfter(rows, c, n, {});
      if c == id { RootUnique(rows, id, n, n - 1, {}, {}); }
      assert IsLive(rows', c) && forall k: nat :: !RootAfter(rows', c, k, {});
    } else {
      forall x | IsLive(rows', x) ensures ReachesRoot(rows', x, {}) {
        assert IsLive(rows, x);
        var n: nat :| RootAfter(rows, x, n, {});
        ChildlessAvoided(rows, id, x, n);
        ChainKept(rows, rows', id, x, n);
      }
    }
  }

  // ---------- runs ----------

  lemma SavedKeepsValid(rows: Rows, m: Menu, creating: bool, stores: bool)
    requires ValidRows(rows) && !m.deleted && Saved(rows, m, creating, stores).Ok?
    ensures ValidRows(rows[m.id := m])
  {
    hide TrimSpace, IsSlug;
    AcceptedMoveKeepsForest(rows, m);
    hide Forest, ParentError;
  }

  lemma DeletedKeepsValid(rows: Rows, id: string)
    requires ValidRows(rows) && IsLive(rows, id) && !HasLiveChild(rows, id)
    ensures ValidRows(rows[id := rows[id].(deleted := true)])
  {
    hide IsSlug;
    DeleteKeepsForestIff(rows, id);
    hide Forest;
  }

  lemma NextKeepsValid(rows: Rows, op: Op)
    requires ValidRows(rows) && (op.Create? ==> op.newId !in rows)
    ensures ValidRows(Next(rows, op))
  {
    hide TrimSpace, Problem, Clashes, Forest, UniqueKeys, WellFormed, HasLiveChild;
    match op
    case Create(req, newId, stores) =>
      if Answer(rows, op).Ok? { SavedKeepsValid(rows, Cleaned(Draft(req, newId)), true, stores); }
    case Update(id, changes, stores) =>
      if Answer(rows, op).Ok? { SavedKeepsValid(rows, Cleaned(Edited(rows[TrimSpace(id)], changes)), false, stores); }
    case Delete(id, stores) =>
      if Answer(rows, op).Ok? { DeletedKeepsValid(rows, TrimSpace(id)); }
  }

  ghost predicate Run(states: seq<Rows>, ops: seq<Op>) {
    && |states| == |ops| + 1 && ValidRows(states[0])
    && forall i :: 0 <= i < |ops| ==>
         (ops[i].Create? ==> ops[i].newId !in states[i]) && states[i + 1] == Next(states[i], ops[i])
  }

  /**
   * From a valid table, such as the empty one, every sequence of operations keeps a forest of live menus
   * with unique codes and unique non-empty routes.
   */
  lemma {:induction false} EveryRunKeepsAForest(states: seq<Rows>, ops: seq<Op>, i: nat)
    requires Run(states, ops) && i < |states|
    ensures ValidRows(states[i])
  {
    hide ValidRows, Next;
    if i > 0 {
      EveryRunKeepsAForest(states, ops, i - 1);
      NextKeepsValid(states[i - 1], ops[i - 1]);
    }
  }

  /** With operations atomic, a duplicate key that validation let through is always held by a deleted menu. */
  lemma ConflictIsWithADeletedMenu(rows: Rows, m: Menu, creating: bool)
    requires ValidRows(rows) && Problem(rows, m, creating) == None
    ensures Saved(rows, m, creating, true) == Err(Conflict)
            <==> exists j :: j in rows && j != m.id && rows[j].deleted
                   && (rows[j].code == m.code || (m.route != "" && rows[j].route == m.route))
  {
    hide ParentError, IsSlug, TrimSpace, HasLiveChild, Forest, ValidRows;
  }

  /** An operation writes a row other than any deleted one. */
  lemma DeletedRowUntouched(rows: Rows, op: Op, id: string)
    requires IdsMatch(rows) && (op.Create? ==> op.newId !in rows) && id in rows && rows[id].deleted
    ensures Answer(rows, op).Ok? ==> Answer(rows, op).value.id != id
    ensures id in Next(rows, op) && Next(rows, op)[id] == rows[id]
  {
    hide TrimSpace, Problem, Clashes, HasLiveChild;
  }

  lemma {:induction false} DeletedRowStays(states: seq<Rows>, ops: seq<Op>, i: nat, j: nat, id: string)
    requires Run(states, ops) && i <= j < |states| && id in states[i] && states[i][id].deleted
    ensures id in states[j] && states[j][id] == states[i][id]
  {
    hide Next, Answer, Forest, UniqueKeys, WellFormed;
    if i < j {
      DeletedRowStays(states, ops, i, j - 1, id);
      EveryRunKeepsAForest(states, ops, j - 1);
      DeletedRowUntouched(states[j - 1], ops[j - 1], id);
    }
  }

  /** In every run, a deleted row stays as it is, and from then on no operation writes its code or its route again. */
  lemma DeletedKeysAreGone(states: seq<Rows>, ops: seq<Op>, i: nat, j: nat, id: string)
    requires Run(states, ops) && i <= j < |ops| && id in states[i] && states[i][id].deleted
    ensures id in states[j + 1] && states[j + 1][id] == states[i][id]
    ensures var answer, gone := Answer(states[j], ops[j]), states[i][id];
            answer.Ok? ==> answer.value.code != gone.code && (gone.route != "" ==> answer.value.route != gone.route)
  {
    DeletedRowStays(states, ops, i, j, id);
    DeletedRowStays(states, ops, i, j + 1, id);
    EveryRunKeepsAForest(states, ops, j);
    EveryRunKeepsAForest(states, ops, j + 1);
    hide Answer, Forest, WellFormed;
    DeletedRowUntouched(states[j], ops[j], id);
  }

  // ---------- the service ----------

  class MenuService {
    var rows: Rows

    ghost predicate Valid()
      reads this
    {
      ValidRows(rows)
    }

    constructor ()
      ensures Valid() && rows == map[]
    {
      rows := map[];
    }

    method FindByID(id: string) returns (menu: Option<Menu>)
      ensures menu == if IsLive(rows, id) then Some(rows[id]) else None
    {
      menu := if id in rows && !rows[id].deleted then Some(rows[id]) else None;
    }

    method FindByCode(code: string) returns (menu: Option<Menu>)
      requires IdsMatch(rows) && UniqueKeys(rows)
      ensures forall id :: LiveCode(rows, id, code) <==> menu.Some? && menu.value.id != id
    {
      if j :| j in rows && !rows[j].deleted && rows[j].code == code {
        return Some(rows[j]);
      }
      return None;
    }

    method FindByRoute(route: string) returns (menu: Option<Menu>)
      requires IdsMatch(rows) && UniqueKeys(rows) && route != ""
      ensures forall id :: LiveRoute(rows, id, route) <==> menu.Some? && menu.value.id != id
    {
      if j :| j in rows && !rows[j].deleted && rows[j].route == route {
        return Some(rows[j]);
      }
      return None;
    }

    /** Walk up from the parent until a root, a missing menu, or one that was visited before. */
    method ValidateParentChain(id: string, parentId: string) returns (error: Option<MenuError>)
      requires IdsMatch(rows)
      ensures error == ChainError(rows, id, parentId)
    {
      var found := FindByID(parentId);
      if found == None {
        AtMissing(rows, parentId, {id});
        return Some(ParentInvalid);
      }
      var parent, visited := found.value, {id};
      while true
        invariant IsLive(rows, parent.id) && parent == rows[parent.id] && id in visited
        invariant ReachesRoot(rows, parentId, {id}) <==> ReachesRoot(rows, parent.id, {id})
        invariant ReachesMissing(rows, parentId, {id}) <==> ReachesMissing(rows, parent.id, {id})
        invariant forall v :: v in visited && v != id ==> Inside(rows, v, visited + {parent.id})
        decreases rows.Keys + {id} - visited
      {
        hide RootAfter, MissingAfter, ReachesRoot, ReachesMissing;
        if parent.id in visited {
          WalkTrapped(rows, visited, id, parent.id);
          return Some(Cycle);
        }
        visited := visited + {parent.id};
        if parent.parent == None {
          AtRoot(rows, parent.id, {id});
          return None;
        }
        StepUp(rows, parent.id, {id});
        found := FindByID(parent.parent.value);
        if found == None {
          AtMissing(rows, parent.parent.value, {id});
          return Some(ParentInvalid);
        }
        parent := found.value;
      }
    }

    /** validateMenu, on a menu that is already trimmed. */
    method ValidateMenu(menu: Menu, creating: bool) returns (error: Option<MenuError>)
      requires IdsMatch(rows) && UniqueKeys(rows)
      ensures error == Problem(rows, menu, creating)
      ensures error == None <==> Writable(rows, menu, creating)
    {
      WritableIff(rows, menu, creating);
      hide Writable, IsSlug, TrimSpace, ChainError;
      if !IsSlug(menu.code) {
        return Some(CodeInvalid);
      }
      if TrimSpace(menu.name) == "" {
        return Some(NameRequired);
      }
      if menu.sortOrder < 0 {
        return Some(SortOrderInvalid);
      }
      if menu.parent.Some? {
        if menu.parent.value == menu.id {
          return Some(Cycle);
        }
        error := ValidateParentChain(menu.id, menu.parent.value);
        if error.Some? {
          return;
        }
      }
      if menu.route == "" {
        if !creating && !HasLiveChild(rows, menu.id) {
          return Some(RouteRequired);
        }
      } else if menu.route[0] != '/' {
        return Some(RouteInvalid);
      }
      error := EnsureUnique(menu.id, menu.code, menu.route);
    }

    method EnsureUnique(id: string, code: string, route: string) returns (error: Option<MenuError>)
      requires IdsMatch(rows) && UniqueKeys(rows)
      ensures error == if LiveCode(rows, id, code) then Some(CodeTaken)
                       else if route != "" && LiveRoute(rows, id, route) then Some(RouteTaken)
                       else None
    {
      var existing := FindByCode(code);
      if existing.Some? && existing.value.id != id {
        return Some(CodeTaken);
      }
      if route != "" {
        existing := FindByRoute(route);
        if existing.Some? && existing.value.id != id {
          return Some(RouteTaken);
        }
      }
      return None;
    }

    /** Name a duplicate key by the live menu that holds it, if one does. */
    method MapConflict(id: string, code: string, route: string) returns (error: MenuError)
      requires IdsMatch(rows) && UniqueKeys(rows)
      ensures error == if LiveCode(rows, id, code) then CodeTaken
                       else if route != "" && LiveRoute(rows, id, route) then RouteTaken
                       else Conflict
    {
      var existing := FindByCode(code);
      if existing.Some? && existing.value.id != id {
        return CodeTaken;
      }
      if route != "" {
        existing := FindByRoute(route);
        if existing.Some? && existing.value.id != id {
          return RouteTaken;
        }
      }
      return Conflict;
    }

    /** Write a validated row: an INSERT or UPDATE under the unique constraints, and the naming of a conflict. */
    method Write(menu: Menu, ghost creating: bool, stores: bool) returns (r: Result<Menu, MenuError>)
      requires IdsMatch(rows) && UniqueKeys(rows) && Problem(rows, menu, creating) == None
      modifies this
      ensures r == Saved(old(rows), menu, creating, stores)
      ensures rows == if r.Ok? then old(rows)[menu.id := menu] else old(rows)
    {
      hide IsSlug, TrimSpace, ParentError;
      if !stores {
        return Err(StorageFailed);
      }
      if Clashes(rows, menu) {
        var error := MapConflict(menu.id, menu.code, menu.route);
        return Err(error);
      }
      rows := rows[menu.id := menu];
      return Ok(menu);
    }

    method Create(req: CreateRequest, newId: string, stores: bool) returns (r: Result<Menu, MenuError>)
      requires Valid() && newId !in rows
      modifies this
      ensures Valid()
      ensures r == Answer(old(rows), Op.Create(req, newId, stores)) && rows == Next(old(rows), Op.Create(req, newId, stores))
      ensures if r.Ok? then CreatedAs(req, newId, r.value) && rows == old(rows)[newId := r.value] else rows == old(rows)
    {
      NextKeepsValid(rows, Op.Create(req, newId, stores));
      DraftsAsGiven(req, newId);
      hide Problem, Forest, TrimSpace, NonBlank, CreatedAs;
      var menu := Cleaned(Draft(req, newId));
      var error := ValidateMenu(menu, true);
      if error.Some? {
        return Err(error.value);
      }
      r := Write(menu, true, stores);
    }

    method Edit(found: Menu, changes: UpdateRequest) returns (menu: Menu)
      ensures menu == Edited(found, changes)
    {
      hide TrimSpace, NonBlank;
      menu := found;
      if changes.code.Some? {
        menu := menu.(code := TrimSpace(changes.code.value));
      }
      if changes.name.Some? {
        menu := menu.(name := TrimSpace(changes.name.value));
      }
      if changes.route.Some? {
        menu := menu.(route := TrimSpace(changes.route.value));
      }
      if changes.parentId.Some? {
        menu := menu.(parent := NonBlank(changes.parentId.value));
      }
      if changes.sortOrder.Some? {
        menu := menu.(sortOrder := changes.sortOrder.value);
      }
      if changes.isActive.Some? {
        menu := menu.(isActive := changes.isActive.value);
      }
    }

    method Update(id: string, changes: UpdateRequest, stores: bool) returns (r: Result<Menu, MenuError>)
      requires Valid()
      modifies this
      ensures Valid()
      ensures r == Answer(old(rows), Op.Update(id, changes, stores)) && rows == Next(old(rows), Op.Update(id, changes, stores))
      ensures if r.Err? then rows == old(rows)
              else
                && Stripped(id, r.value.id) && IsLive(old(rows), r.value.id)
                && UpdatedAs(old(rows)[r.value.id], changes, r.value) && rows == old(rows)[r.value.id := r.value]
    {
      NextKeepsValid(rows, Op.Update(id, changes, stores));
      TrimSpaceIsStripped(id, TrimSpace(id));
      hide Problem, Forest, TrimSpace, NonBlank, Stripped, UpdatedAs;
      var found := FindByID(TrimSpace(id));
      if found == None {
        return Err(NotFound);
      }
      EditsAsGiven(found.value, changes);
      var menu := Edit(found.value, changes);
      menu := Cleaned(menu);
      var error := ValidateMenu(menu, false);
      if error.Some? {
        return Err(error.value);
      }
      r := Write(menu, false, stores);
    }

    method Delete(id: string, stores: bool) returns (r: Result<Menu, MenuError>)
      requires Valid()
      modifies this
      ensures Valid()
      ensures r == Answer(old(rows), Op.Delete(id, stores)) && rows == Next(old(rows), Op.Delete(id, stores))
      ensures if r.Err? then rows == old(rows)
              else
                && Stripped(id, r.value.id) && IsLive(old(rows), r.value.id) && !HasLiveChild(old(rows), r.value.id)
                && r.value == old(rows)[r.value.id].(deleted := true) && rows == old(rows)[r.value.id := r.value]
    {
      NextKeepsValid(rows, Op.Delete(id, stores));
      TrimSpaceIsStripped(id, TrimSpace(id));
      hide Forest, TrimSpace, Stripped;
      var menuId := TrimSpace(id);
      if menuId == "" {
        return Err(IdRequired);
      }
      var found := FindByID(menuId);
      if found == None {
        return Err(NotFound);
      }
      if HasLiveChild(rows, menuId) {
        return Err(HasChildren);
      }
      if !stores {
        return Err(StorageFailed);
      }
      rows := rows[menuId := rows[menuId].(deleted := true)];
      return Ok(rows[menuId]);
    }
  }

  /** A walk that meets a visited menu again is trapped: it reaches neither a root nor a missing menu. */
  lemma WalkTrapped(rows: Rows, visited: set<string>, id: string, here: string)
    requires id in visited && here in visited && IsLive(rows, here)
    requires forall v :: v in visited && v != id ==> Inside(rows, v, visited + {here})
    ensures !ReachesRoot(rows, here, {id}) && !ReachesMissing(rows, here, {id})
  {
    forall n: nat ensures !RootAfter(rows, here, n, {id}) && !MissingAfter(rows, here, n, {id}) {
      Trapped(rows, visited, id, here, n);
    }
  }
}
