/** The codes of menus, as the regular expression writes them down. */
module MenuCodes {
  import opened Menus
  import opened Strings
  import opened Wrappers

  /** One or more of the small letters a to z and the digits. */
  predicate IsRun(t: string) {
    t != "" && forall i :: 0 <= i < |t| ==> 97 <= t[i] as int <= 122 || 48 <= t[i] as int <= 57
  }

  /** The runs with the characters between them. */
  function Joined(runs: seq<string>, between: string): (r: string)
    requires |runs| == |between| + 1
  {
    if between == "" then runs[0] else runs[0] + [between[0]] + Joined(runs[1..], between[1..])
  }

  /** Runs, joined by a hyphen or an underscore each. */
  ghost predicate JoinedRuns(s: string, runs: seq<string>, between: string) {
    && |runs| == |between| + 1 && s == Joined(runs, between)
    && (forall i :: 0 <= i < |runs| ==> IsRun(runs[i]))
    && (forall i :: 0 <= i < |between| ==> between[i] == '-' || between[i] == '_')
  }

  lemma RunIsSlug(t: string)
    requires IsRun(t)
    ensures IsSlug(t) && forall i :: 0 <= i < |t| ==> IsAlphanumeric(t[i])
  {
    assert forall i :: 0 <= i < |t| ==> IsAlphanumeric(t[i]);
  }

  lemma AlphanumericIsRun(t: string)
    requires t != "" && forall i :: 0 <= i < |t| ==> IsAlphanumeric(t[i])
    ensures IsRun(t)
  {}

  lemma JoinIsSlug(t: string, c: char, s: string)
    requires IsRun(t) && IsSlug(s) && (c == '-' || c == '_')
    ensures IsSlug(t + [c] + s)
  {
    hide IsRun;
    RunIsSlug(t);
    var all := t + [c] + s;
    assert forall i :: 0 <= i < |t| ==> all[i] == t[i];
    assert forall i :: |t| < i < |all| ==> all[i] == s[i - |t| - 1];
    hide IsAlphanumeric;
  }

  lemma {:induction false} JoinedIsSlug(s: string, runs: seq<string>, between: string)
    requires JoinedRuns(s, runs, between)
    ensures IsSlug(s)
    decreases |between|
  {
    hide IsSlug;
    if between == "" {
      RunIsSlug(s);
    } else {
      assert JoinedRuns(Joined(runs[1..], between[1..]), runs[1..], between[1..]);
      JoinedIsSlug(Joined(runs[1..], between[1..]), runs[1..], between[1..]);
      JoinIsSlug(runs[0], between[0], Joined(runs[1..], between[1..]));
    }
  }

  /** The place of the first character that is no letter or digit. */
  lemma {:induction false} FirstJoint(s: string) returns (k: nat)
    ensures k <= |s| && (forall i :: 0 <= i < k ==> IsAlphanumeric(s[i])) && (k < |s| ==> !IsAlphanumeric(s[k]))
  {
    if s == "" || !IsAlphanumeric(s[0]) {
      k := 0;
    } else {
      var more := FirstJoint(s[1..]);
      k := more + 1;
    }
  }

  lemma RestIsSlug(s: string, k: nat)
    requires IsSlug(s) && k < |s| && !IsAlphanumeric(s[k])
    ensures 0 < k < |s| - 1 && IsSlug(s[k + 1..]) && (s[k] == '-' || s[k] == '_')
  {
    assert s[k + 1..][0] == s[k + 1];
    var rest := s[k + 1..];
    assert forall i :: 0 <= i < |rest| ==> rest[i] == s[k + 1 + i];
    hide IsAlphanumeric;
  }

  lemma {:induction false} SlugIsJoined(s: string) returns (runs: seq<string>, between: string)
    requires IsSlug(s)
    ensures JoinedRuns(s, runs, between)
    decreases |s|
  {
    var k := FirstJoint(s);
    if k == |s| {
      AlphanumericIsRun(s);
      runs, between := [s], "";
    } else {
      RestIsSlug(s, k);
      AlphanumericIsRun(s[..k]);
      hide IsSlug, IsRun;
      var moreRuns, more := SlugIsJoined(s[k + 1..]);
      runs, between := [s[..k]] + moreRuns, [s[k]] + more;
      assert runs[1..] == moreRuns && between[1..] == more;
      assert s == s[..k] + [s[k]] + s[k + 1..];
    }
  }

  /** A code is accepted exactly if it is runs of small letters and digits, joined by single hyphens or underscores. */
  lemma SlugIffJoinedRuns(s: string)
    ensures IsSlug(s) <==> exists runs, between :: JoinedRuns(s, runs, between)
  {
    hide IsSlug, JoinedRuns;
    if IsSlug(s) { var runs, between := SlugIsJoined(s); }
    if runs, between :| JoinedRuns(s, runs, between) { JoinedIsSlug(s, runs, between); }
  }

  // ---------- what the refusals of a menu mean ----------

  /** Each refusal of a menu names a fault that is there. */
  lemma ProblemsAreReal(rows: Rows, m: Menu, creating: bool, error: MenuError)
    requires Problem(rows, m, creating) == Some(error)
    ensures match error
            case CodeInvalid => !IsSlug(m.code)
            case NameRequired => TrimSpace(m.name) == ""
            case SortOrderInvalid => m.sortOrder < 0
            case Cycle => m.parent.Some? && !ReachesRoot(rows, m.parent.value, {m.id})
            case ParentInvalid => m.parent.Some? && ReachesMissing(rows, m.parent.value, {m.id})
            case RouteRequired => m.route == "" && !creating && forall c :: c in rows && rows[c].parent == Some(m.id) ==> rows[c].deleted
            case RouteInvalid => m.route != "" && m.route[0] != '/'
            case CodeTaken => exists j :: j in rows && j != m.id && !rows[j].deleted && rows[j].code == m.code
            case RouteTaken => exists j :: j in rows && j != m.id && !rows[j].deleted && rows[j].route == m.route
            case _ => false
  {
    hide IsSlug, TrimSpace, RootAfter, MissingAfter;
    if m.parent == Some(m.id) { AvoidedNever(rows, m.id); }
  }

  lemma AvoidedNever(rows: Rows, id: string)
    ensures !ReachesRoot(rows, id, {id})
  {}

  /** A deletion is refused with the first fault that is there. */
  lemma DeletionAnswers(rows: Rows, id: string, stores: bool)
    ensures var r := Answer(rows, Op.Delete(id, stores));
            && (r == Err(IdRequired) <==> Stripped(id, ""))
            && (r == Err(NotFound) <==> exists i :: Stripped(id, i) && i != "" && !(i in rows && !rows[i].deleted))
            && (r == Err(HasChildren) <==>
                  exists i, c :: Stripped(id, i) && i != "" && i in rows && !rows[i].deleted
                                 && c in rows && !rows[c].deleted && rows[c].parent == Some(i))
            && (r.Ok? <==>
                  exists i :: Stripped(id, i) && i != "" && i in rows && !rows[i].deleted && stores
                              && forall c :: c in rows && !rows[c].deleted ==> rows[c].parent != Some(i))
  {
    hide TrimSpace, Stripped;
    var i := TrimSpace(id);
    TrimSpaceIsStripped(id, i);
    forall j ensures Stripped(id, j) <==> j == i { TrimSpaceIsStripped(id, j); }
  }

  /** What is written has none of these faults. */
  lemma AcceptedMenuIs(rows: Rows, m: Menu, creating: bool)
    requires Problem(rows, m, creating) == None
    ensures IsSlug(m.code) && TrimSpace(m.name) != "" && m.sortOrder >= 0
    ensures m.parent.Some? ==> m.parent.value != m.id && ReachesRoot(rows, m.parent.value, {m.id})
    ensures m.route == "" ==> creating || exists c :: c in rows && !rows[c].deleted && rows[c].parent == Some(m.id)
    ensures m.route != "" ==> m.route[0] == '/'
    ensures forall j :: j in rows && j != m.id && !rows[j].deleted ==>
              rows[j].code != m.code && (m.route != "" ==> rows[j].route != m.route)
  {
    hide IsSlug, TrimSpace, ReachesRoot, ReachesMissing;
  }

  /** An update is answered with a missing menu exactly if there is no live one with the id, and a valid row fails only in the store. */
  lemma UpdateAnswers(rows: Rows, id: string, changes: UpdateRequest, stores: bool)
    ensures var r := Answer(rows, Op.Update(id, changes, stores));
            && (r == Err(NotFound) <==> exists i :: Stripped(id, i) && !(i in rows && !rows[i].deleted))
            && (r.Ok? ==> stores)
  {
    hide TrimSpace, Stripped, IsSlug, ReachesRoot, ReachesMissing, Clashes;
    var i := TrimSpace(id);
    forall j ensures Stripped(id, j) <==> j == i { TrimSpaceIsStripped(id, j); }
  }

  lemma StoreAnswers(rows: Rows, m: Menu, creating: bool, stores: bool)
    requires Problem(rows, m, creating) == None
    ensures Saved(rows, m, creating, stores) == Err(StorageFailed) <==> !stores
    ensures Saved(rows, m, creating, stores) == Ok(m)
            <==> stores && forall j :: j in rows && j != m.id ==> rows[j].code != m.code && (m.route != "" ==> rows[j].route != m.route)
  {
    hide Problem;
  }
}
