/** Where a menu stands in the tree after it was created or moved. */
module MenuMoves {
  import opened Menus
  import opened MenuTree
  import opened Sorting
  import opened Strings
  import opened Wrappers

  // ---------- what is not given stays ----------

  /** No white space around routes and parents. */
  ghost predicate Tidy(rows: Rows) {
    forall id :: id in rows ==> TidyRow(rows[id])
  }

  ghost predicate TidyRow(m: Menu) {
    Stripped(m.route, m.route) && (m.parent.Some? ==> m.parent.value != "" && Stripped(m.parent.value, m.parent.value))
  }

  lemma StrippedTwice(s: string, t: string, u: string)
    requires Stripped(s, t)
    ensures Stripped(t, u) <==> u == t
  {
    hide Stripped, TrimSpace;
    TrimSpaceIsStripped(s, t);
    TrimmedOnce(s);
    TrimSpaceIsStripped(t, u);
  }

  lemma UpdatedIsTidy(before: Menu, req: UpdateRequest, after: Menu)
    requires UpdatedAs(before, req, after)
    ensures TidyRow(after)
  {
    hide Stripped;
    StrippedTwice(if req.route.Some? then req.route.value else before.route, after.route, after.route);
    if after.parent.Some? {
      var given := if req.parentId.Some? then req.parentId.value else before.parent.value;
      StrippedTwice(given, after.parent.value, after.parent.value);
    }
  }

  lemma CreatedIsTidy(req: CreateRequest, id: string, after: Menu)
    requires CreatedAs(req, id, after)
    ensures TidyRow(after)
  {
    hide Stripped;
    StrippedTwice(req.route, after.route, after.route);
    if after.parent.Some? { StrippedTwice(req.parentId, after.parent.value, after.parent.value); }
  }

  lemma NextIsTidy(rows: Rows, op: Op)
    requires Tidy(rows) && IdsMatch(rows)
    ensures Tidy(Next(rows, op))
  {
    hide TidyRow, UpdatedAs, CreatedAs, TrimSpace, Problem, Clashes;
    match op
    case Create(req, newId, stores) =>
      DraftsAsGiven(req, newId);
      CreatedIsTidy(req, newId, Cleaned(Draft(req, newId)));
    case Update(id, changes, stores) =>
      if IsLive(rows, TrimSpace(id)) {
        EditsAsGiven(rows[TrimSpace(id)], changes);
        UpdatedIsTidy(rows[TrimSpace(id)], changes, Cleaned(Edited(rows[TrimSpace(id)], changes)));
      }
    case Delete(id, stores) =>
      if IsLive(rows, TrimSpace(id)) { MarkedIsTidy(rows[TrimSpace(id)]); }
  }

  lemma MarkedIsTidy(m: Menu)
    ensures TidyRow(m.(deleted := true)) <==> TidyRow(m)
  {}

  /** In every run from a table without such white space, the empty one for one, a field that is not given keeps its value. */
  lemma {:induction false} EveryRunIsTidy(states: seq<Rows>, ops: seq<Op>, i: nat)
    requires Run(states, ops) && Tidy(states[0]) && i < |states|
    ensures Tidy(states[i])
  {
    hide Next, Tidy, ValidRows;
    if i > 0 {
      EveryRunIsTidy(states, ops, i - 1);
      EveryRunKeepsAForest(states, ops, i - 1);
      ValidIds(states[i - 1]);
      NextIsTidy(states[i - 1], ops[i - 1]);
    }
  }

  lemma ValidIds(rows: Rows)
    requires ValidRows(rows)
    ensures IdsMatch(rows)
  {}

  /** An update of such a row changes the fields that are given and no other. */
  lemma UngivenStays(before: Menu, req: UpdateRequest, after: Menu)
    requires TidyRow(before) && UpdatedAs(before, req, after)
    ensures req.code == None ==> after.code == before.code
    ensures req.name == None ==> after.name == before.name
    ensures req.route == None ==> after.route == before.route
    ensures req.parentId == None ==> after.parent == before.parent
    ensures req.sortOrder == None ==> after.sortOrder == before.sortOrder
    ensures req.isActive == None ==> after.isActive == before.isActive
  {
    hide Stripped;
    StrippedTwice(before.route, before.route, after.route);
    if before.parent.Some? {
      StrippedTwice(before.parent.value, before.parent.value, if after.parent.Some? then after.parent.value else "");
    }
  }

  // ---------- the place in the tree ----------

  /** The node is the tree's own or one below it. */
  ghost predicate Occurs(t: Response, node: Response) {
    t == node || exists c :: c in t.children && Occurs(c, node)
  }

  /** The menu is shown as a child of the parent. */
  ghost predicate ShownUnder(ts: seq<Response>, parent: string, id: string) {
    exists t, node, child :: t in ts && Occurs(t, node) && node.menu.id == parent && child in node.children && child.menu.id == id
  }

  ghost predicate ShownAtTop(ts: seq<Response>, id: string) {
    exists t :: t in ts && t.menu.id == id
  }

  lemma {:induction false} OccursNested(menus: seq<Menu>, t: Response, node: Response)
    requires Nested(menus, t) && Occurs(t, node)
    ensures Nested(menus, node)
    decreases t
  {
    if t != node {
      var c :| c in t.children && Occurs(c, node);
      OccursNested(menus, c, node);
    }
  }

  lemma {:induction false} CountedOccurs(t: Response, id: string) returns (node: Response)
    requires Count(t, id) > 0
    ensures Occurs(t, node) && node.menu.id == id
    decreases t, 1
  {
    if t.menu.id == id {
      node := t;
    } else {
      var i;
      i, node := CountedAmong(t.children, id);
      assert t.children[i] in t.children;
    }
  }

  lemma {:induction false} CountedAmong(ts: seq<Response>, id: string) returns (i: nat, node: Response)
    requires CountAll(ts, id) > 0
    ensures i < |ts| && Occurs(ts[i], node) && node.menu.id == id
    decreases ts, 0
  {
    if Count(ts[0], id) > 0 {
      node := CountedOccurs(ts[0], id);
      i := 0;
    } else {
      i, node := CountedAmong(ts[1..], id);
      i := i + 1;
    }
  }

  lemma KidIsChild(menus: seq<Menu>, node: Response, m: Menu)
    requires Nested(menus, node) && m in menus && m.parent == Some(node.menu.id)
    ensures exists child :: child in node.children && child.menu == m
  {
    var kids := Kids(menus, Some(node.menu.id));
    KidsMembers(menus, Some(node.menu.id), m);
    SortPermutes(kids, Labels(node.children));
    SameMembers(kids, Labels(node.children), m);
    var i :| 0 <= i < |Labels(node.children)| && Labels(node.children)[i] == m;
    assert node.children[i] in node.children;
  }

  lemma ChildIsKid(menus: seq<Menu>, node: Response, child: Response)
    requires DistinctIds(menus) && Nested(menus, node) && child in node.children
    ensures child.menu in menus && child.menu.parent == Some(node.menu.id)
  {
    hide ByID, Kids, IsStableSort;
    LabelIsKid(menus, Some(node.menu.id), node.children, child);
  }

  /** In a store's tree, a menu that is live and active with all its ancestors is shown under its parent and nowhere else. */
  lemma ShownUnderItsParent(rows: Rows, menus: seq<Menu>, ts: seq<Response>, id: string)
    requires ValidRows(rows) && ActiveList(rows, menus) && IsTree(menus, ts)
    requires IsLive(rows, id) && ChainActive(rows, id)
    ensures CountAll(ts, id) == 1
    ensures forall q :: ShownUnder(ts, q, id) <==> rows[id].parent == Some(q)
    ensures ShownAtTop(ts, id) <==> rows[id].parent == None
  {
    hide ChainActive, Forest, UniqueKeys, WellFormed, IsTree, ActiveList;
    ShownIffChainActive(rows, menus, ts, id);
    ChainActiveStep(rows, id);
    forall q ensures ShownUnder(ts, q, id) <==> rows[id].parent == Some(q) {
      if ShownUnder(ts, q, id) { ShownBelow(rows, menus, ts, q, id); }
      if rows[id].parent == Some(q) {
        ParentIsLive(rows, id);
        ShownIffChainActive(rows, menus, ts, q);
        ParentShows(rows, menus, ts, q, id);
      }
    }
    TopIffRoot(rows, menus, ts, id);
  }

  lemma ParentIsLive(rows: Rows, id: string)
    requires ValidRows(rows) && IsLive(rows, id) && rows[id].parent.Some?
    ensures IsLive(rows, rows[id].parent.value)
  {
    var n: nat :| RootAfter(rows, id, n, {});
    assert RootAfter(rows, rows[id].parent.value, n - 1, {});
  }

  lemma ShownBelow(rows: Rows, menus: seq<Menu>, ts: seq<Response>, q: string, id: string)
    requires ActiveList(rows, menus) && IsTree(menus, ts) && IsLive(rows, id) && ShownUnder(ts, q, id)
    ensures rows[id].parent == Some(q)
  {
    hide IsStableSort, Kids, Labels, Sorted;
    var t, node, child :| t in ts && Occurs(t, node) && node.menu.id == q && child in node.children && child.menu.id == id;
    OccursNested(menus, t, node);
    ChildIsKid(menus, node, child);
  }

  lemma ParentShows(rows: Rows, menus: seq<Menu>, ts: seq<Response>, q: string, id: string)
    requires ActiveList(rows, menus) && IsTree(menus, ts) && IsLive(rows, id) && rows[id].isActive
    requires IdsMatch(rows) && rows[id].parent == Some(q) && CountAll(ts, q) > 0
    ensures ShownUnder(ts, q, id)
  {
    hide IsStableSort, Kids, Labels, Sorted, CountAll;
    var i, node := CountedAmong(ts, q);
    assert ts[i] in ts;
    OccursNested(menus, ts[i], node);
    KidIsChild(menus, node, rows[id]);
  }

  lemma TopIffRoot(rows: Rows, menus: seq<Menu>, ts: seq<Response>, id: string)
    requires ActiveList(rows, menus) && IsTree(menus, ts) && IdsMatch(rows) && IsLive(rows, id) && rows[id].isActive
    ensures ShownAtTop(ts, id) <==> rows[id].parent == None
  {
    hide IsStableSort, Kids, ByID, Nested;
    if ShownAtTop(ts, id) {
      var t :| t in ts && t.menu.id == id;
      LabelIsKid(menus, None, ts, t);
    }
    if rows[id].parent == None {
      KidsMembers(menus, None, rows[id]);
      SortPermutes(Kids(menus, None), Labels(ts));
      SameMembers(Kids(menus, None), Labels(ts), rows[id]);
      var i :| 0 <= i < |Labels(ts)| && Labels(ts)[i] == rows[id];
      assert ts[i] in ts;
    }
  }

  /** Below each menu, and at the top, siblings stand by sort order; those with the same one stand as the list has them. */
  lemma SiblingsBySortOrder(menus: seq<Menu>, parent: Option<string>, ts: seq<Response>, i: nat, j: nat)
    requires IsStableSort(Kids(menus, parent), Before, Labels(ts)) && i < j < |ts|
    ensures ts[i].menu.sortOrder <= ts[j].menu.sortOrder
    ensures ts[i].menu.sortOrder == ts[j].menu.sortOrder ==>
              exists k, l :: 0 <= k < l < |Kids(menus, parent)| && Kids(menus, parent)[k] == ts[i].menu && Kids(menus, parent)[l] == ts[j].menu
  {
    hide Kids;
    var s := Kids(menus, parent);
    var order :| IsStableOrder(s, Before, order) && Labels(ts) == Pick(s, order);
    assert Precedes(s, Before, order[i], order[j]);
    assert Labels(ts)[i] == s[order[i]] && Labels(ts)[j] == s[order[j]];
  }

  /** A menu moved to an active chain is shown under its new parent, or at the top, and nowhere else. */
  lemma MovedMenuIsShown(rows: Rows, id: string, changes: UpdateRequest, menus: seq<Menu>, ts: seq<Response>)
    requires ValidRows(rows) && Answer(rows, Op.Update(id, changes, true)).Ok?
    requires var rows' := Next(rows, Op.Update(id, changes, true)); ActiveList(rows', menus) && IsTree(menus, ts)
    requires ChainActive(Next(rows, Op.Update(id, changes, true)), Answer(rows, Op.Update(id, changes, true)).value.id)
    requires changes.parentId.Some?
    ensures var m := Answer(rows, Op.Update(id, changes, true)).value;
            && CountAll(ts, m.id) == 1
            && (forall q :: ShownUnder(ts, q, m.id) <==> q != "" && Stripped(changes.parentId.value, q))
            && (ShownAtTop(ts, m.id) <==> Stripped(changes.parentId.value, ""))
  {
    hide TrimSpace, Stripped, Problem, Clashes, ActiveList, IsTree, ChainActive, Forest, UniqueKeys, WellFormed, UpdatedAs, CountAll,
      ShownUnder, ShownAtTop;
    var op := Op.Update(id, changes, true);
    var rows', m, given := Next(rows, op), Answer(rows, op).value, changes.parentId.value;
    NextKeepsValid(rows, op);
    EditsAsGiven(rows[TrimSpace(id)], changes);
    UpdatedParent(rows[TrimSpace(id)], changes, m);
    ShownUnderItsParent(rows', menus, ts, m.id);
    forall q ensures m.parent == Some(q) <==> q != "" && Stripped(given, q) { GivenParent(given, m.parent, q); }
    GivenParent(given, m.parent, "");
  }

  lemma UpdatedParent(before: Menu, req: UpdateRequest, after: Menu)
    requires UpdatedAs(before, req, after) && req.parentId.Some?
    ensures ParentGiven(req.parentId.value, after.parent) && after.deleted == before.deleted
  {}

  lemma GivenParent(given: string, parent: Option<string>, q: string)
    requires ParentGiven(given, parent)
    ensures parent == Some(q) <==> q != "" && Stripped(given, q)
    ensures parent == None <==> Stripped(given, "")
  {
    hide Stripped, TrimSpace;
    TrimSpaceIsStripped(given, q);
    TrimSpaceIsStripped(given, "");
    if parent.Some? { TrimSpaceIsStripped(given, parent.value); }
  }
}
