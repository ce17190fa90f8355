/** The menu tree: a forest of responses built from a flat list of active menus. */
module MenuTree {
  import opened Menus
  import opened Sorting
  import opened Wrappers

  datatype Response = Response(menu: Menu, children: seq<Response>)

  predicate Before(a: Menu, b: Menu) {
    a.sortOrder < b.sortOrder
  }

  predicate DistinctIds(menus: seq<Menu>) {
    forall i, j :: 0 <= i < j < |menus| ==> menus[i].id != menus[j].id
  }

  /** The listed menus with the given parent, in list order. */
  function Kids(menus: seq<Menu>, parent: Option<string>): (r: seq<Menu>) {
    if menus == [] then []
    else
      var last := menus[|menus| - 1];
      Kids(menus[..|menus| - 1], parent) + if last.parent == parent then [last] else []
  }

  function ByID(menus: seq<Menu>): (r: Rows) {
    if menus == [] then map[]
    else
      var last := menus[|menus| - 1];
      ByID(menus[..|menus| - 1])[last.id := last]
  }

  lemma {:induction false} ByIDSound(menus: seq<Menu>, id: string)
    requires id in ByID(menus)
    ensures ByID(menus)[id] in menus && ByID(menus)[id].id == id
  {
    if menus[|menus| - 1].id != id { ByIDSound(menus[..|menus| - 1], id); }
  }

  lemma {:induction false} ByIDComplete(menus: seq<Menu>, m: Menu)
    requires DistinctIds(menus) && m in menus
    ensures m.id in ByID(menus) && ByID(menus)[m.id] == m
  {
    var n := |menus| - 1;
    assert menus == menus[..n] + [menus[n]];
    if m != menus[n] { ByIDComplete(menus[..n], m); }
  }

  lemma LastIsNew(menus: seq<Menu>)
    requires DistinctIds(menus) && menus != []
    ensures menus[|menus| - 1].id !in ByID(menus[..|menus| - 1])
  {
    var front, last := menus[..|menus| - 1], menus[|menus| - 1];
    if last.id in ByID(front) { ByIDSound(front, last.id); }
  }

  // ---------- what a tree of the list is ----------

  function Labels(ts: seq<Response>): (r: seq<Menu>) {
    seq(|ts|, i requires 0 <= i < |ts| => ts[i].menu)
  }

  /** Below each menu stand its own children and nothing else, by sort order, ties in list order. */
  ghost predicate Nested(menus: seq<Menu>, t: Response) {
    && IsStableSort(Kids(menus, Some(t.menu.id)), Before, Labels(t.children))
    && forall c :: c in t.children ==> Nested(menus, c)
  }

  ghost predicate IsTree(menus: seq<Menu>, ts: seq<Response>) {
    && IsStableSort(Kids(menus, None), Before, Labels(ts))
    && forall t :: t in ts ==> Nested(menus, t)
  }

  /** How often a menu occurs in a tree. */
  function Count(t: Response, id: string): (r: nat) {
    (if t.menu.id == id then 1 else 0) + CountAll(t.children, id)
  }

  function CountAll(ts: seq<Response>, id: string): (r: nat) {
    if ts == [] then 0 else Count(ts[0], id) + CountAll(ts[1..], id)
  }

  /** How many menus of a list have an id. */
  function Having(menus: seq<Menu>, id: string): (r: nat) {
    if menus == [] then 0 else (if menus[0].id == id then 1 else 0) + Having(menus[1..], id)
  }

  // ---------- lists ----------

  lemma BeforeIsWeakOrder()
    ensures StrictWeakOrder(Before)
  {}

  lemma {:induction false} KidsMembers(menus: seq<Menu>, parent: Option<string>, m: Menu)
    ensures m in Kids(menus, parent) <==> m in menus && m.parent == parent
  {
    if menus != [] {
      KidsMembers(menus[..|menus| - 1], parent, m);
      assert menus == menus[..|menus| - 1] + [menus[|menus| - 1]];
    }
  }

  lemma {:induction false} HavingConcat(a: seq<Menu>, b: seq<Menu>, id: string)
    ensures Having(a + b, id) == Having(a, id) + Having(b, id)
  {
    if a == [] {
      assert a + b == b;
    } else {
      assert (a + b)[1..] == a[1..] + b;
      HavingConcat(a[1..], b, id);
    }
  }

  lemma HavingAt(s: seq<Menu>, j: nat, id: string)
    requires j < |s|
    ensures Having(s, id) == (if s[j].id == id then 1 else 0) + Having(s[..j] + s[j + 1..], id)
  {
    assert s == s[..j] + s[j..] && s[j..][1..] == s[j + 1..];
    HavingConcat(s[..j], s[j..], id);
    HavingConcat(s[..j], s[j + 1..], id);
  }

  lemma {:induction false} HavingPermuted(a: seq<Menu>, b: seq<Menu>, id: string)
    requires multiset(a) == multiset(b)
    ensures Having(a, id) == Having(b, id)
    decreases |a|
  {
    if a == [] {
      assert multiset(b) == multiset{};
    } else {
      hide Having;
      SameMembers(a, b, a[0]);
      var j :| 0 <= j < |b| && b[j] == a[0];
      MultisetPeel(a, 0, b, j);
      HavingPermuted(a[..0] + a[1..], b[..j] + b[j + 1..], id);
      HavingAt(a, 0, id);
      HavingAt(b, j, id);
    }
  }

  lemma {:induction false} KidsHaving(menus: seq<Menu>, parent: Option<string>, id: string)
    requires DistinctIds(menus)
    ensures Having(Kids(menus, parent), id)
            == if id in ByID(menus) && ByID(menus)[id].parent == parent then 1 else 0
  {
    if menus != [] {
      var n := |menus| - 1;
      KidsHaving(menus[..n], parent, id);
      HavingConcat(Kids(menus[..n], parent), if menus[n].parent == parent then [menus[n]] else [], id);
      LastIsNew(menus);
    }
  }

  /** A stable sort of a list's children holds a menu once if it is one of them, and otherwise not at all. */
  lemma SortedKidsHaving(menus: seq<Menu>, parent: Option<string>, sorted: seq<Menu>, id: string)
    requires DistinctIds(menus) && IsStableSort(Kids(menus, parent), Before, sorted)
    ensures Having(sorted, id) == if id in ByID(menus) && ByID(menus)[id].parent == parent then 1 else 0
  {
    SortPermutes(Kids(menus, parent), sorted);
    HavingPermuted(Kids(menus, parent), sorted, id);
    KidsHaving(menus, parent, id);
  }

  lemma SortPermutes(s: seq<Menu>, r: seq<Menu>)
    requires IsStableSort(s, Before, r)
    ensures multiset(r) == multiset(s)
  {
    BeforeIsWeakOrder();
    var order :| IsStableOrder(s, Before, order) && r == Pick(s, order);
    PickMultiset(s, Before, order);
  }

  // ---------- each menu once ----------

  /** In a tree, a menu that has a parent occurs once under each occurrence of its parent, besides at the top. */
  lemma {:induction false} CountByParent(menus: seq<Menu>, t: Response, id: string)
    requires DistinctIds(menus) && Nested(menus, t)
    ensures Count(t, id)
            == (if t.menu.id == id then 1 else 0)
               + if id in ByID(menus) && ByID(menus)[id].parent.Some?
                 then Count(t, ByID(menus)[id].parent.value) else 0
    decreases t, 1
  {
    CountAllByParent(menus, t.children, id);
    SortedKidsHaving(menus, Some(t.menu.id), Labels(t.children), id);
  }

  lemma {:induction false} CountAllByParent(menus: seq<Menu>, ts: seq<Response>, id: string)
    requires DistinctIds(menus) && forall t :: t in ts ==> Nested(menus, t)
    ensures CountAll(ts, id)
            == Having(Labels(ts), id)
               + if id in ByID(menus) && ByID(menus)[id].parent.Some?
                 then CountAll(ts, ByID(menus)[id].parent.value) else 0
    decreases ts, 0
  {
    if ts != [] {
      CountByParent(menus, ts[0], id);
      CountAllByParent(menus, ts[1..], id);
      assert Labels(ts)[1..] == Labels(ts[1..]);
    }
  }

  /** The tree of a list shows each menu whose chain of listed parents reaches a root. */
  lemma {:induction false} ShownIfRooted(menus: seq<Menu>, ts: seq<Response>, id: string, n: nat)
    requires DistinctIds(menus) && IsTree(menus, ts) && RootAfter(ByID(menus), id, n, {})
    ensures CountAll(ts, id) == 1
    decreases n
  {
    CountAllByParent(menus, ts, id);
    SortedKidsHaving(menus, None, Labels(ts), id);
    if n > 0 { ShownIfRooted(menus, ts, ByID(menus)[id].parent.value, n - 1); }
  }

  lemma NextRooted(menus: seq<Menu>, t: Response, n: nat)
    requires DistinctIds(menus) && Listed(menus) && Nested(menus, t) && RootAfter(ByID(menus), t.menu.id, n, {})
    ensures forall c :: c in t.children ==> RootAfter(ByID(menus), c.menu.id, n + 1, {})
  {
    hide IsStableSort, Kids, ByID;
    forall c | c in t.children ensures RootAfter(ByID(menus), c.menu.id, n + 1, {}) {
      LabelIsKid(menus, Some(t.menu.id), t.children, c);
    }
  }

  /** What a tree shows below a menu n parents from its root is rooted too. */
  lemma {:induction false} BelowRooted(menus: seq<Menu>, t: Response, n: nat, id: string)
    requires DistinctIds(menus) && Listed(menus) && Nested(menus, t)
    requires RootAfter(ByID(menus), t.menu.id, n, {}) && Count(t, id) > 0
    ensures ReachesRoot(ByID(menus), id, {})
    decreases t, 1
  {
    if t.menu.id == id {
      assert ReachesRoot(ByID(menus), id, {});
    } else {
      NextRooted(menus, t, n);
      hide RootAfter, ReachesRoot, IsStableSort, ByID, Kids;
      AllBelowRooted(menus, t.children, n + 1, id);
    }
  }

  lemma {:induction false} AllBelowRooted(menus: seq<Menu>, ts: seq<Response>, n: nat, id: string)
    requires DistinctIds(menus) && Listed(menus) && CountAll(ts, id) > 0
    requires forall t :: t in ts ==> Nested(menus, t) && RootAfter(ByID(menus), t.menu.id, n, {})
    ensures ReachesRoot(ByID(menus), id, {})
    decreases ts, 0
  {
    if Count(ts[0], id) > 0 {
      BelowRooted(menus, ts[0], n, id);
    } else {
      AllBelowRooted(menus, ts[1..], n, id);
    }
  }

  predicate Listed(menus: seq<Menu>) {
    forall i :: 0 <= i < |menus| ==> !menus[i].deleted
  }

  lemma LabelIsKid(menus: seq<Menu>, parent: Option<string>, ts: seq<Response>, t: Response)
    requires DistinctIds(menus) && IsStableSort(Kids(menus, parent), Before, Labels(ts)) && t in ts
    ensures t.menu in menus && t.menu.parent == parent && t.menu.id in ByID(menus) && ByID(menus)[t.menu.id] == t.menu
  {
    var i :| 0 <= i < |ts| && ts[i] == t;
    assert Labels(ts)[i] == t.menu;
    SortPermutes(Kids(menus, parent), Labels(ts));
    SameMembers(Kids(menus, parent), Labels(ts), t.menu);
    KidsMembers(menus, parent, t.menu);
    ByIDComplete(menus, t.menu);
  }

  /** A tree shows a menu exactly once if the chain of listed menus above it reaches a root, and otherwise not at all. */
  lemma ShownOnceIffRooted(menus: seq<Menu>, ts: seq<Response>, id: string)
    requires DistinctIds(menus) && Listed(menus) && IsTree(menus, ts)
    ensures CountAll(ts, id) == if ReachesRoot(ByID(menus), id, {}) then 1 else 0
  {
    if n: nat :| RootAfter(ByID(menus), id, n, {}) {
      ShownIfRooted(menus, ts, id, n);
    } else if CountAll(ts, id) > 0 {
      forall t | t in ts ensures RootAfter(ByID(menus), t.menu.id, 0, {}) { LabelIsKid(menus, None, ts, t); }
      AllBelowRooted(menus, ts, 0, id);
    }
  }

  // ---------- the tree of a store ----------

  /** What ListActive returns: the live active rows, once each, by sort order. */
  ghost predicate ActiveList(rows: Rows, menus: seq<Menu>) {
    && DistinctIds(menus) && Sorted(menus, Before)
    && (forall m :: m in menus ==> IsLive(rows, m.id) && rows[m.id] == m && m.isActive)
    && (forall id :: IsLive(rows, id) && rows[id].isActive ==> rows[id] in menus)
  }

  lemma ActiveRow(rows: Rows, menus: seq<Menu>, id: string)
    requires IdsMatch(rows) && ActiveList(rows, menus)
    ensures id in ByID(menus) <==> IsLive(rows, id) && rows[id].isActive
    ensures id in ByID(menus) ==> ByID(menus)[id] == rows[id]
  {
    if id in ByID(menus) { ByIDSound(menus, id); }
    if IsLive(rows, id) && rows[id].isActive { ByIDComplete(menus, rows[id]); }
  }

  predicate IsActive(rows: Rows, id: string) {
    id in rows && rows[id].isActive
  }

  /** A menu and all its ancestors are active. */
  ghost predicate ChainActive(rows: Rows, id: string) {
    forall k: nat :: Ancestor(rows, id, k).Some? ==> IsActive(rows, Ancestor(rows, id, k).value)
  }

  lemma ChainActiveStep(rows: Rows, id: string)
    requires IsLive(rows, id)
    ensures ChainActive(rows, id)
            <==> rows[id].isActive && (rows[id].parent.Some? ==> ChainActive(rows, rows[id].parent.value))
  {
    assert Ancestor(rows, id, 0) == Some(id);
    if rows[id].parent.Some? {
      var p := rows[id].parent.value;
      assert forall k: nat :: Ancestor(rows, p, k) == Ancestor(rows, id, k + 1);
      assert forall k: nat :: k > 0 ==> Ancestor(rows, id, k) == Ancestor(rows, p, k - 1);
    }
  }

  /** The chain from a menu to its root is in the list exactly when the menu and all its ancestors are active. */
  lemma {:induction false} RootedIffActive(rows: Rows, menus: seq<Menu>, id: string, n: nat)
    requires IdsMatch(rows) && ActiveList(rows, menus) && RootAfter(rows, id, n, {})
    ensures ReachesRoot(ByID(menus), id, {}) <==> ChainActive(rows, id)
    decreases n
  {
    hide ByID, ActiveList, ReachesRoot, ChainActive;
    ActiveRow(rows, menus, id);
    ChainActiveStep(rows, id);
    if id in ByID(menus) {
      if n == 0 {
        AtRoot(ByID(menus), id, {});
      } else {
        StepUp(ByID(menus), id, {});
        RootedIffActive(rows, menus, rows[id].parent.value, n - 1);
      }
    } else {
      AtMissing(ByID(menus), id, {});
    }
  }

  /** For the menus of a valid store: shown exactly once if live and active with all ancestors active, else not at all. */
  lemma ShownIffChainActive(rows: Rows, menus: seq<Menu>, ts: seq<Response>, id: string)
    requires ValidRows(rows) && ActiveList(rows, menus) && IsTree(menus, ts)
    ensures CountAll(ts, id) == if IsLive(rows, id) && ChainActive(rows, id) then 1 else 0
  {
    hide IsTree, CountAll, ChainActive, ByID, UniqueKeys, WellFormed;
    ListIsListed(rows, menus);
    ShownOnceIffRooted(menus, ts, id);
    ActiveRow(rows, menus, id);
    if IsLive(rows, id) {
      var n: nat :| RootAfter(rows, id, n, {});
      RootedIffActive(rows, menus, id, n);
    } else {
      AtMissing(ByID(menus), id, {});
    }
  }

  lemma ListIsListed(rows: Rows, menus: seq<Menu>)
    requires ActiveList(rows, menus)
    ensures Listed(menus)
  {
    forall i | 0 <= i < |menus| ensures !menus[i].deleted { assert menus[i] in menus; }
  }

  /** Sorting a sorted list stably changes nothing. */
  lemma SortedStays(s: seq<Menu>, r: seq<Menu>)
    requires Sorted(s, Before) && IsStableSort(s, Before, r)
    ensures r == s
  {
    BeforeIsWeakOrder();
    var order :| IsStableOrder(s, Before, order) && r == Pick(s, order);
    var identity: seq<nat> := seq(|s|, i requires 0 <= i < |s| => i);
    assert IsStableOrder(s, Before, identity);
    StableOrderUnique(s, Before, order, identity);
    assert Pick(s, identity) == s;
  }

  lemma StableSortIsSorted(s: seq<Menu>, r: seq<Menu>)
    requires IsStableSort(s, Before, r)
    ensures Sorted(r, Before)
  {
    var order :| IsStableOrder(s, Before, order) && r == Pick(s, order);
    forall i, j | 0 <= i < j < |r| ensures !Before(r[j], r[i]) {
      assert Precedes(s, Before, order[i], order[j]);
    }
  }

  /** The repository lists menus by sort order already; then siblings stand in exactly the list's order. */
  lemma SiblingsInListOrder(menus: seq<Menu>, t: Response)
    requires Sorted(menus, Before) && Nested(menus, t)
    ensures Labels(t.children) == Kids(menus, Some(t.menu.id))
  {
    KidsSorted(menus, Some(t.menu.id));
    SortedStays(Kids(menus, Some(t.menu.id)), Labels(t.children));
  }

  lemma {:induction false} KidsSorted(menus: seq<Menu>, parent: Option<string>)
    requires Sorted(menus, Before)
    ensures Sorted(Kids(menus, parent), Before)
  {
    if menus != [] {
      var front := menus[..|menus| - 1];
      KidsSorted(front, parent);
      forall i | 0 <= i < |Kids(front, parent)| ensures !Before(menus[|menus| - 1], Kids(front, parent)[i]) {
        KidsMembers(front, parent, Kids(front, parent)[i]);
      }
    }
  }

  /** The description of a tree leaves no choice. */
  lemma {:induction false} TreeIsDetermined(menus: seq<Menu>, t: Response, u: Response)
    requires Nested(menus, t) && Nested(menus, u) && t.menu == u.menu
    ensures t == u
    decreases t
  {
    SortIsDetermined(Kids(menus, Some(t.menu.id)), Labels(t.children), Labels(u.children));
    assert |t.children| == |Labels(t.children)| == |u.children|;
    forall i | 0 <= i < |t.children| ensures t.children[i] == u.children[i] {
      assert t.children[i].menu == Labels(t.children)[i] == Labels(u.children)[i] == u.children[i].menu;
      TreeIsDetermined(menus, t.children[i], u.children[i]);
    }
  }

  lemma SortIsDetermined(s: seq<Menu>, a: seq<Menu>, b: seq<Menu>)
    requires IsStableSort(s, Before, a) && IsStableSort(s, Before, b)
    ensures a == b
  {
    BeforeIsWeakOrder();
    var o :| IsStableOrder(s, Before, o) && a == Pick(s, o);
    var p :| IsStableOrder(s, Before, p) && b == Pick(s, p);
    StableOrderUnique(s, Before, o, p);
  }

  // ---------- building the tree ----------

  /** A node of the map that Tree fills; a child stands for the node that the map holds under its id. */
  class Node {
    const menu: Menu
    var children: seq<Menu>

    constructor (menu: Menu)
      ensures this.menu == menu && children == []
    {
      this.menu, children := menu, [];
    }
  }

  /** s, sorted or not yet. */
  ghost predicate SortedOrNot(s: seq<Menu>, r: seq<Menu>) {
    r == s || IsStableSort(s, Before, r)
  }

  lemma SortedAnyway(s: seq<Menu>, r: seq<Menu>, again: seq<Menu>)
    requires SortedOrNot(s, r) && IsStableSort(r, Before, again)
    ensures IsStableSort(s, Before, again)
  {
    if r != s {
      StableSortIsSorted(s, r);
      SortedStays(r, again);
    }
  }

  /** Each node has the children of its menu, sorted or not yet. */
  ghost predicate Arranged(menus: seq<Menu>, nodes: map<string, Node>)
    reads set id | id in nodes :: nodes[id]
  {
    && nodes.Keys == ByID(menus).Keys
    && forall id :: id in nodes ==>
         nodes[id].menu == ByID(menus)[id] && nodes[id].menu.id == id && SortedOrNot(Kids(menus, Some(id)), nodes[id].children)
  }

  /** The menus of the path stand strictly above one that is depth parents from a root. */
  ghost predicate Above(menus: seq<Menu>, path: set<string>, depth: nat) {
    forall q :: q in path ==> exists k: nat :: k < depth && RootAfter(ByID(menus), q, k, {})
  }

  lemma PathGoesDown(menus: seq<Menu>, path: set<string>, depth: nat, m: Menu, child: Menu)
    requires DistinctIds(menus) && Listed(menus) && Above(menus, path, depth) && m in menus
    requires RootAfter(ByID(menus), m.id, depth, {}) && child in Kids(menus, Some(m.id))
    ensures m.id !in path && Above(menus, path + {m.id}, depth + 1)
    ensures child in menus && RootAfter(ByID(menus), child.id, depth + 1, {})
  {
    KidsMembers(menus, Some(m.id), child);
    ByIDComplete(menus, m);
    ByIDComplete(menus, child);
    if m.id in path {
      var k: nat :| k < depth && RootAfter(ByID(menus), m.id, k, {});
      RootUnique(ByID(menus), m.id, depth, k, {}, {});
    }
  }

  lemma ChildNode(menus: seq<Menu>, nodes: map<string, Node>, parent: string, kids: seq<Menu>, i: nat)
    requires DistinctIds(menus) && Arranged(menus, nodes) && i < |kids|
    requires IsStableSort(Kids(menus, Some(parent)), Before, kids)
    ensures kids[i] in Kids(menus, Some(parent)) && kids[i].id in nodes && nodes[kids[i].id].menu == kids[i]
  {
    hide Kids, IsStableSort;
    KidOfSort(menus, parent, kids, i);
    ByIDComplete(menus, kids[i]);
  }

  lemma KidOfSort(menus: seq<Menu>, parent: string, kids: seq<Menu>, i: nat)
    requires i < |kids| && IsStableSort(Kids(menus, Some(parent)), Before, kids)
    ensures kids[i] in Kids(menus, Some(parent)) && kids[i] in menus
  {
    SortPermutes(Kids(menus, Some(parent)), kids);
    SameMembers(Kids(menus, Some(parent)), kids, kids[i]);
    KidsMembers(menus, Some(parent), kids[i]);
  }

  method SortChildren(ghost menus: seq<Menu>, ghost nodes: map<string, Node>, node: Node)
    requires Arranged(menus, nodes) && node.menu.id in nodes && nodes[node.menu.id] == node
    modifies node
    ensures Arranged(menus, nodes) && IsStableSort(Kids(menus, Some(node.menu.id)), Before, node.children)
  {
    hide Kids, ByID, IsStableSort;
    BeforeIsWeakOrder();
    var sorted := SliceStable(node.children, Before);
    SortedAnyway(Kids(menus, Some(node.menu.id)), node.children, sorted);
    node.children := sorted;
  }

  /**
   * buildTreeResponse: sort the children in place, then build each. It only goes down from roots, so it
   * ends even if some parents form cycles.
   */
  method BuildTreeResponse(ghost menus: seq<Menu>, nodes: map<string, Node>, node: Node, ghost path: set<string>, ghost depth: nat)
      returns (response: Response)
    requires DistinctIds(menus) && Listed(menus) && Arranged(menus, nodes)
    requires node.menu.id in nodes && nodes[node.menu.id] == node && node.menu in menus
    requires RootAfter(ByID(menus), node.menu.id, depth, {}) && Above(menus, path, depth)
    modifies set id | id in nodes :: nodes[id]
    ensures response.menu == node.menu && Nested(menus, response)
    ensures Arranged(menus, nodes)
    decreases ByID(menus).Keys - path
  {
    hide Kids, ByID, IsStableSort, RootAfter, Above, SortedOrNot, DistinctIds, Listed;
    SortChildren(menus, nodes, node);
    var kids := node.children;
    var responses: seq<Response> := [];
    for i := 0 to |kids|
      invariant Arranged(menus, nodes)
      invariant Labels(responses) == kids[..i]
      invariant forall c :: c in responses ==> Nested(menus, c)
    {
      ChildNode(menus, nodes, node.menu.id, kids, i);
      PathGoesDown(menus, path, depth, node.menu, kids[i]);
      var child := BuildTreeResponse(menus, nodes, nodes[kids[i].id], path + {node.menu.id}, depth + 1);
      responses := responses + [child];
    }
    assert kids[..|kids|] == kids;
    response := Response(node.menu, responses);
  }

  method MakeNodes(menus: seq<Menu>) returns (nodes: map<string, Node>)
    ensures nodes.Keys == ByID(menus).Keys
    ensures forall id :: id in nodes ==>
              nodes[id].menu == ByID(menus)[id] && nodes[id].menu.id == id && nodes[id].children == [] && fresh(nodes[id])
  {
    nodes := map[];
    for i := 0 to |menus|
      invariant nodes.Keys == ByID(menus[..i]).Keys
      invariant forall id :: id in nodes ==>
                  && nodes[id].menu == ByID(menus[..i])[id] && nodes[id].menu.id == id
                  && nodes[id].children == [] && fresh(nodes[id])
    {
      assert menus[..i + 1][..i] == menus[..i];
      var node := new Node(menus[i]);
      nodes := nodes[menus[i].id := node];
    }
    assert menus[..|menus|] == menus;
  }

  lemma KidsOneMore(menus: seq<Menu>, i: nat, parent: Option<string>)
    requires i < |menus|
    ensures Kids(menus[..i + 1], parent) == Kids(menus[..i], parent) + if menus[i].parent == parent then [menus[i]] else []
  {
    assert menus[..i + 1][..i] == menus[..i];
  }

  /** Append each menu to its parent's children, or to the roots; one whose parent is not listed is dropped. */
  method LinkNodes(menus: seq<Menu>, nodes: map<string, Node>) returns (roots: seq<Menu>)
    requires forall id :: id in nodes ==> nodes[id].menu.id == id && nodes[id].children == []
    modifies set id | id in nodes :: nodes[id]
    ensures roots == Kids(menus, None)
    ensures forall id :: id in nodes ==> nodes[id].children == Kids(menus, Some(id))
  {
    roots := [];
    for i := 0 to |menus|
      invariant roots == Kids(menus[..i], None)
      invariant forall id :: id in nodes ==> nodes[id].children == Kids(menus[..i], Some(id))
    {
      hide Kids;
      forall parent
        ensures Kids(menus[..i + 1], parent)
                == Kids(menus[..i], parent) + if menus[i].parent == parent then [menus[i]] else []
      {
        KidsOneMore(menus, i, parent);
      }
      if menus[i].parent == None {
        roots := roots + [menus[i]];
      } else if menus[i].parent.value in nodes {
        var parent := nodes[menus[i].parent.value];
        parent.children := parent.children + [menus[i]];
      }
    }
    assert menus[..|menus|] == menus;
  }

  lemma RootReady(menus: seq<Menu>, sorted: seq<Menu>, i: nat)
    requires DistinctIds(menus) && Listed(menus) && i < |sorted| && IsStableSort(Kids(menus, None), Before, sorted)
    ensures sorted[i] in menus && sorted[i].id in ByID(menus) && ByID(menus)[sorted[i].id] == sorted[i]
    ensures RootAfter(ByID(menus), sorted[i].id, 0, {}) && Above(menus, {}, 0)
  {
    hide IsStableSort;
    SortPermutes(Kids(menus, None), sorted);
    SameMembers(Kids(menus, None), sorted, sorted[i]);
    KidsMembers(menus, None, sorted[i]);
    ByIDComplete(menus, sorted[i]);
  }

  method Tree(menus: seq<Menu>) returns (response: seq<Response>)
    requires DistinctIds(menus) && Listed(menus)
    ensures IsTree(menus, response)
  {
    hide Kids, ByID, IsStableSort, RootAfter, Above, DistinctIds, Listed;
    var nodes := MakeNodes(menus);
    var roots := LinkNodes(menus, nodes);
    BeforeIsWeakOrder();
    var sorted := SliceStable(roots, Before);
    response := [];
    for i := 0 to |sorted|
      invariant Arranged(menus, nodes)
      invariant Labels(response) == sorted[..i]
      invariant forall t :: t in response ==> Nested(menus, t)
    {
      RootReady(menus, sorted, i);
      var tree := BuildTreeResponse(menus, nodes, nodes[sorted[i].id], {}, 0);
      response := response + [tree];
    }
    assert sorted[..|sorted|] == sorted;
  }
}
