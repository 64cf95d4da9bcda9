/** The list's state: cached rows that every public operation keeps equal to a fresh rebuild, and a
    cursor that it keeps on a selectable row. */
module ListApp {
  import opened Basics
  import opened Ordering
  import opened Sessions
  import opened RowModel
  import opened RowCursor
  import opened RowPartition
  import opened IgnoreCase

  type SessionKey = (BackendKind, string)

  type Ribbons = map<SessionKey, string>

  function KeyOfSession(s: Session): SessionKey {
    (s.backend, s.id)
  }

  function ActivityOf(ribbons: Ribbons): Session -> Option<string> {
    (s: Session) => if KeyOfSession(s) in ribbons then Some(ribbons[KeyOfSession(s)]) else None
  }

  function NoActivity(): Session -> Option<string> {
    (s: Session) => None
  }

  function HiddenCount(view: View, sessions: seq<Session>): nat {
    if IncludesAll(view) then 0 else |Retain(sessions, (s: Session) => s.hidden || s.companion)|
  }

  function Cleaned(env: Env, sessions: seq<Session>): seq<Session> {
    seq(|sessions|, i requires 0 <= i < |sessions| => sessions[i].(title := env.clean(sessions[i].title)))
  }

  /** By default every session is either included or counted as hidden; with everything included
      none is. */
  lemma HiddenOrIncluded(env: Env, view: View, sessions: seq<Session>)
    requires LowersAscii(env)
    ensures IncludesAll(view) ==> HiddenCount(view, sessions) == 0
    ensures !IncludesAll(view) ==>
              |Retain(sessions, IsIncluded(env, view))| + HiddenCount(view, sessions) == |sessions|
  {
    if !IncludesAll(view) {
      assert IsAscii("") && env.lower(view.filter) == "";
      RetainParts(sessions, IsIncluded(env, view), (s: Session) => s.hidden || s.companion);
    }
  }

  lemma {:induction false} RetainParts<T>(s: seq<T>, p: T -> bool, q: T -> bool)
    requires forall i :: 0 <= i < |s| ==> (p(s[i]) <==> !q(s[i]))
    ensures |Retain(s, p)| + |Retain(s, q)| == |s|
  {
    if s != [] {
      RetainParts(s[1..], p, q);
    }
  }

  /** How a session row is drawn: with its own ribbon, and with its project's label exactly by state. */
  predicate DrawnRight(env: Env, mode: GroupMode, activity: Session -> Option<string>, row: Row) {
    row.SessionRow? ==>
      && row.activity == activity(row.session)
      && row.project == match mode
                        case ByState => Some(env.projectLabel(env.projectRoot(row.session.cwd)))
                        case ByProject => None
  }

  lemma {:induction false} RowsAreDrawnRight(env: Env, mode: GroupMode, activity: Session -> Option<string>,
      groups: seq<Group>, collapsed: set<GroupKey>)
    ensures forall row :: row in Render(env, mode, activity, groups, collapsed) ==> DrawnRight(env, mode, activity, row)
  {
    if groups != [] {
      RowsAreDrawnRight(env, mode, activity, groups[..|groups| - 1], collapsed);
      GroupIsDrawnRight(env, mode, activity, groups[|groups| - 1], groups[|groups| - 1].key in collapsed);
    }
  }

  lemma GroupIsDrawnRight(env: Env, mode: GroupMode, activity: Session -> Option<string>, group: Group, folded: bool)
    ensures forall row :: row in GroupRows(env, mode, activity, group, folded) ==> DrawnRight(env, mode, activity, row)
  {
  }

  predicate Known(sessions: seq<Session>, key: SessionKey) {
    exists s :: s in sessions && KeyOfSession(s) == key
  }

  // ---------------------------------------------------------------- activity ribbons

  function WithActivity(row: Row, activity: Session -> Option<string>): Row {
    if row.SessionRow? then row.(activity := activity(row.session)) else row
  }

  /** `other` is `rows` with other ribbons. */
  predicate Redrawn(rows: seq<Row>, other: seq<Row>, activity: Session -> Option<string>) {
    |rows| == |other| && forall i :: 0 <= i < |rows| ==> other[i] == WithActivity(rows[i], activity)
  }

  lemma RedrawnAppend(a: seq<Row>, b: seq<Row>, a': seq<Row>, b': seq<Row>, activity: Session -> Option<string>)
    requires Redrawn(a, a', activity) && Redrawn(b, b', activity)
    ensures Redrawn(a + b, a' + b', activity)
  {
    hide WithActivity;
  }

  /** Rows drawn without ribbons and then given them are the rows drawn with them. */
  lemma {:induction false} RibbonsAreIndependent(env: Env, mode: GroupMode, a: Session -> Option<string>,
      b: Session -> Option<string>, groups: seq<Group>, collapsed: set<GroupKey>)
    ensures Redrawn(Render(env, mode, a, groups, collapsed), Render(env, mode, b, groups, collapsed), b)
  {
    if groups != [] {
      hide GroupRows, Redrawn;
      var last := groups[|groups| - 1];
      var rows := Render(env, mode, a, groups[..|groups| - 1], collapsed);
      var other := Render(env, mode, b, groups[..|groups| - 1], collapsed);
      RibbonsAreIndependent(env, mode, a, b, groups[..|groups| - 1], collapsed);
      GroupRibbons(env, mode, a, b, last, last.key in collapsed);
      SpacerRibbons(rows, other, b);
      RedrawnAppend(rows + (if rows == [] then [] else [Spacer]), GroupRows(env, mode, a, last, last.key in collapsed),
                    other + (if other == [] then [] else [Spacer]),
                    GroupRows(env, mode, b, last, last.key in collapsed), b);
    }
  }

  lemma SpacerRibbons(rows: seq<Row>, other: seq<Row>, activity: Session -> Option<string>)
    requires Redrawn(rows, other, activity)
    ensures Redrawn(rows + (if rows == [] then [] else [Spacer]), other + (if other == [] then [] else [Spacer]),
                    activity)
  {
  }

  lemma GroupRibbons(env: Env, mode: GroupMode, a: Session -> Option<string>, b: Session -> Option<string>,
      group: Group, folded: bool)
    ensures Redrawn(GroupRows(env, mode, a, group, folded), GroupRows(env, mode, b, group, folded), b)
  {
  }

  // ---------------------------------------------------------------- where a header stands

  predicate HasHeader(rows: seq<Row>, key: GroupKey) {
    exists i :: 0 <= i < |rows| && HeaderKey(rows[i]) == Some(key)
  }

  lemma HeaderAppend(a: seq<Row>, b: seq<Row>, key: GroupKey)
    ensures HasHeader(a + b, key) <==> HasHeader(a, key) || HasHeader(b, key)
  {
    if HasHeader(a, key) {
      var i :| 0 <= i < |a| && HeaderKey(a[i]) == Some(key);
      assert (a + b)[i] == a[i];
    }
    if HasHeader(b, key) {
      var i :| 0 <= i < |b| && HeaderKey(b[i]) == Some(key);
      assert (a + b)[|a| + i] == b[i];
    }
  }

  /** A group has a header whether or not any group is collapsed. */
  lemma {:induction false} HeaderIffGroup(env: Env, mode: GroupMode, activity: Session -> Option<string>,
      groups: seq<Group>, collapsed: set<GroupKey>, key: GroupKey)
    ensures HasHeader(Render(env, mode, activity, groups, collapsed), key) <==> HasGroup(groups, key)
  {
    if groups != [] {
      hide Render, HasHeader, HasGroup, BlockOf;
      var init, last := groups[..|groups| - 1], groups[|groups| - 1];
      assert groups == init + [last];
      HeaderIffGroup(env, mode, activity, init, collapsed, key);
      RenderOneMore(env, mode, activity, init, last, collapsed);
      GroupIsBlock(env, mode, activity, collapsed, last);
      var block := BlockOf(env, mode, activity, collapsed, last);
      var rows := Render(env, mode, activity, init, collapsed);
      BlockHeader(block, last.key, key);
      OneMoreHasGroup(init, last, key);
      SpacerHeader(rows, key);
      HeaderAppend(if rows == [] then [] else rows + [Spacer], [block.header] + block.rows, key);
      AddAssociates(if rows == [] then [] else rows + [Spacer], [block.header], block.rows);
      assert [] + [block.header] == [block.header];
    }
  }

  lemma BlockHeader(block: Block, own: GroupKey, key: GroupKey)
    requires HeaderKey(block.header) == Some(own)
    requires forall i :: 0 <= i < |block.rows| ==> block.rows[i].SessionRow?
    ensures HasHeader([block.header] + block.rows, key) <==> key == own
  {
    assert ([block.header] + block.rows)[0] == block.header;
  }

  lemma SpacerHeader(rows: seq<Row>, key: GroupKey)
    ensures HasHeader(if rows == [] then [] else rows + [Spacer], key) <==> HasHeader(rows, key)
  {
  }

  lemma {:induction false} HeadersAreUnique(env: Env, mode: GroupMode, activity: Session -> Option<string>,
      groups: seq<Group>, collapsed: set<GroupKey>)
    requires forall i, j :: 0 <= i < j < |groups| ==> groups[i].key != groups[j].key
    ensures UniqueHeaders(Render(env, mode, activity, groups, collapsed))
  {
    if groups != [] {
      hide Render, HasGroup, BlockOf;
      var init, last := groups[..|groups| - 1], groups[|groups| - 1];
      assert groups == init + [last];
      HeadersAreUnique(env, mode, activity, init, collapsed);
      RenderOneMore(env, mode, activity, init, last, collapsed);
      GroupIsBlock(env, mode, activity, collapsed, last);
      HeaderIffGroup(env, mode, activity, init, collapsed, last.key);
      OneMoreHasGroup(init, last, last.key);
      UniqueWithBlock(Render(env, mode, activity, init, collapsed), BlockOf(env, mode, activity, collapsed, last),
                      last.key);
    }
  }

  predicate UniqueHeaders(rows: seq<Row>) {
    forall i, j :: 0 <= i < j < |rows| && HeaderKey(rows[i]).Some? ==> HeaderKey(rows[i]) != HeaderKey(rows[j])
  }

  lemma UniqueWithBlock(rows: seq<Row>, block: Block, key: GroupKey)
    requires UniqueHeaders(rows) && !HasHeader(rows, key) && HeaderKey(block.header) == Some(key)
    requires forall i :: 0 <= i < |block.rows| ==> block.rows[i].SessionRow?
    ensures UniqueHeaders((if rows == [] then [block.header] else rows + [Spacer] + [block.header]) + block.rows)
  {
  }

  /** The place of the first header with this key. */
  function HeaderPlace(rows: seq<Row>, key: GroupKey): (place: Option<nat>)
    ensures place.Some? <==> HasHeader(rows, key)
    ensures place.Some? ==> place.value < |rows| && HeaderKey(rows[place.value]) == Some(key)
  {
    ScanIsFirst(rows, 0, 1, (row: Row) => HeaderKey(row) == Some(key));
    Scan(rows, 0, 1, (row: Row) => HeaderKey(row) == Some(key))
  }

  function SessionPlace(rows: seq<Row>, key: SessionKey): (place: Option<nat>)
    ensures place.Some? ==> place.value < |rows| && rows[place.value].SessionRow?
                            && KeyOfSession(rows[place.value].session) == key
  {
    Scan(rows, 0, 1, (row: Row) => row.SessionRow? && KeyOfSession(row.session) == key)
  }

  /** Both are the first such place, and are missing only if there is none. */
  lemma PlacesAreFirst(rows: seq<Row>, header: GroupKey, key: SessionKey, i: nat)
    requires i < |rows|
    ensures HeaderKey(rows[i]) == Some(header) ==>
              HeaderPlace(rows, header).Some? && HeaderPlace(rows, header).value <= i
    ensures rows[i].SessionRow? && KeyOfSession(rows[i].session) == key ==>
              SessionPlace(rows, key).Some? && SessionPlace(rows, key).value <= i
  {
    hide Scan;
    ScanIsFirst(rows, 0, 1, (row: Row) => HeaderKey(row) == Some(header));
    ScanIsFirst(rows, 0, 1, (row: Row) => row.SessionRow? && KeyOfSession(row.session) == key);
  }

  datatype RowAnchor = SessionAnchor(session: SessionKey) | HeaderAnchor(group: GroupKey)

  function AnchorOf(row: Row): Option<RowAnchor> {
    if row.SessionRow? then Some(SessionAnchor(KeyOfSession(row.session)))
    else if HeaderKey(row).Some? then Some(HeaderAnchor(HeaderKey(row).value))
    else None
  }

  /** The anchors of the first `n` rows, the nearest first. */
  function AnchorsAbove(rows: seq<Row>, n: nat): seq<RowAnchor>
    requires n <= |rows|
  {
    if n == 0 then []
    else (if AnchorOf(rows[n - 1]).Some? then [AnchorOf(rows[n - 1]).value] else []) + AnchorsAbove(rows, n - 1)
  }

  function AnchorPlace(rows: seq<Row>, anchor: RowAnchor): (place: Option<nat>)
    ensures place.Some? ==> place.value < |rows| && AnchorOf(rows[place.value]) == Some(anchor)
  {
    match anchor
    case SessionAnchor(key) => SessionPlace(rows, key)
    case HeaderAnchor(key) => HeaderPlace(rows, key)
  }

  /** Where the first of the anchors that is still there stands. */
  function FirstPlace(rows: seq<Row>, anchors: seq<RowAnchor>): (place: Option<nat>)
    ensures place.Some? ==> place.value < |rows| && AnchorOf(rows[place.value]).Some?
  {
    if anchors == [] then None
    else OrElse(AnchorPlace(rows, anchors[0]), FirstPlace(rows, anchors[1..]))
  }

  /** Where the row at `k` stood, seen from the rows as they are now. */
  function Survivor(before: seq<Row>, k: nat, rows: seq<Row>): Option<nat>
    requires k < |before|
  {
    if AnchorOf(before[k]).Some? then AnchorPlace(rows, AnchorOf(before[k]).value) else None
  }

  lemma AnchorsStep(before: seq<Row>, n: nat, rows: seq<Row>)
    requires n < |before|
    ensures FirstPlace(rows, AnchorsAbove(before, 0)) == None
    ensures FirstPlace(rows, AnchorsAbove(before, n + 1)) ==
            OrElse(Survivor(before, n, rows), FirstPlace(rows, AnchorsAbove(before, n)))
  {
    hide AnchorOf, AnchorPlace;
    var rest := AnchorsAbove(before, n);
    if AnchorOf(before[n]).Some? {
      assert ([AnchorOf(before[n]).value] + rest)[1..] == rest;
    } else {
      assert [] + rest == rest;
    }
  }

  /** The anchors are tried from the nearest row up: the first that is still there belongs to the last
      row above whose session or header is. */
  lemma {:induction false} NearestSurvives(before: seq<Row>, n: nat, rows: seq<Row>)
    requires n <= |before|
    ensures var place := FirstPlace(rows, AnchorsAbove(before, n));
            if place.None? then forall k :: 0 <= k < n ==> Survivor(before, k, rows) == None
            else exists m :: 0 <= m < n && Survivor(before, m, rows) == place
                             && forall k :: m < k < n ==> Survivor(before, k, rows) == None
  {
    hide FirstPlace, AnchorsAbove, Survivor;
    if n > 0 {
      NearestSurvives(before, n - 1, rows);
      AnchorsStep(before, n - 1, rows);
    } else if before != [] {
      AnchorsStep(before, 0, rows);
    } else {
      NoAnchors(rows);
    }
  }

  lemma NoAnchors(rows: seq<Row>)
    ensures FirstPlace(rows, AnchorsAbove([], 0)) == None
  {
  }

  lemma {:induction false} SessionsInHas(rows: seq<Row>, i: nat)
    requires i < |rows| && rows[i].SessionRow?
    ensures rows[i].session in SessionsIn(rows)
  {
    if i < |rows| - 1 {
      SessionsInHas(rows[..|rows| - 1], i);
    }
  }

  /** Every session row shows a listed session. */
  lemma RowsShowSessions(env: Env, view: View, activity: Session -> Option<string>, sessions: seq<Session>,
      collapsed: set<GroupKey>, i: nat)
    requires var rows := Rows(env, view, activity, sessions, collapsed); i < |rows| && rows[i].SessionRow?
    ensures Known(sessions, KeyOfSession(Rows(env, view, activity, sessions, collapsed)[i].session))
  {
    hide Rows, SessionsIn, Included, IsHoldTitle, KeyOf;
    var rows := Rows(env, view, activity, sessions, collapsed);
    SessionsInHas(rows, i);
    RowsPartitionSessions(env, view, activity, sessions, collapsed, rows[i].session);
    assert rows[i].session in multiset(SessionsIn(rows));
    assert rows[i].session in multiset(sessions);
  }

  /** No title is shown as it was read: every session row shows a listed session with its title cleaned. */
  lemma RowsShowCleanTitles(env: Env, view: View, activity: Session -> Option<string>, listed: seq<Session>,
      collapsed: set<GroupKey>, i: nat)
    requires var rows := Rows(env, view, activity, Cleaned(env, listed), collapsed); i < |rows| && rows[i].SessionRow?
    ensures exists s :: s in listed && Rows(env, view, activity, Cleaned(env, listed), collapsed)[i].session
                                       == s.(title := env.clean(s.title))
  {
    hide Rows, SessionsIn, Included, IsHoldTitle, KeyOf;
    var sessions := Cleaned(env, listed);
    var rows := Rows(env, view, activity, sessions, collapsed);
    SessionsInHas(rows, i);
    RowsPartitionSessions(env, view, activity, sessions, collapsed, rows[i].session);
    assert rows[i].session in multiset(SessionsIn(rows));
    assert rows[i].session in multiset(sessions);
    var k :| 0 <= k < |sessions| && sessions[k] == rows[i].session;
    assert listed[k] in listed;
  }

  function Toggled(collapsed: set<GroupKey>, key: GroupKey): set<GroupKey> {
    if key in collapsed then collapsed - {key} else collapsed + {key}
  }

  /** Collapsing a group and expanding it again, or the other way round, gives back the same rows,
      and the cursor has stayed on the group's header. */
  lemma TogglingTwiceRestores(env: Env, view: View, activity: Session -> Option<string>, sessions: seq<Session>,
      collapsed: set<GroupKey>, selected: nat, key: GroupKey)
    requires var rows := Rows(env, view, activity, sessions, collapsed);
             selected < |rows| && HeaderKey(rows[selected]) == Some(key)
    ensures var once := Rows(env, view, activity, sessions, Toggled(collapsed, key));
            var twice := Rows(env, view, activity, sessions, Toggled(Toggled(collapsed, key), key));
            && HeaderPlace(once, key).Some?
            && twice == Rows(env, view, activity, sessions, collapsed)
            && HeaderPlace(twice, key) == Some(selected)
  {
    hide Groups, Render, Rank, RootLeq;
    var groups := Groups(env, view, sessions);
    assert Toggled(Toggled(collapsed, key), key) == collapsed;
    HeaderIffGroup(env, view.mode, activity, groups, collapsed, key);
    HeaderIffGroup(env, view.mode, activity, groups, Toggled(collapsed, key), key);
    GroupsAreOrdered(env, view, sessions);
    HeadersAreUnique(env, view.mode, activity, groups, collapsed);
  }

  // ---------------------------------------------------------------- the state and its operations

  class App {
    const env: Env
    var sessions: seq<Session>
    var selected: nat
    var filter: string
    var showAll: bool
    var groupMode: GroupMode
    var rows: seq<Row>
    var ribbons: Ribbons
    var rootCache: map<string, string>
    var hiddenRows: nat
    var collapsed: set<GroupKey>

    function ViewNow(): View
      reads this`filter, this`showAll, this`groupMode
    {
      View(filter, showAll, groupMode)
    }

    /** What a rebuild would show. */
    function RowsNow(): seq<Row>
      reads this`filter, this`showAll, this`groupMode, this`sessions, this`ribbons, this`collapsed
    {
      Rows(env, ViewNow(), ActivityOf(ribbons), sessions, collapsed)
    }

    ghost predicate CacheIsSound()
      reads this`rootCache
    {
      forall cwd :: cwd in rootCache ==> rootCache[cwd] == env.projectRoot(cwd)
    }

    ghost predicate Cached()
      reads this`filter, this`showAll, this`groupMode, this`sessions, this`ribbons, this`collapsed
      reads this`rows, this`hiddenRows, this`rootCache
    {
      rows == RowsNow() && hiddenRows == HiddenCount(ViewNow(), sessions) && CacheIsSound()
    }

    ghost predicate Valid()
      reads this
    {
      LowersAscii(env) && Cached() && WellPlaced(rows, selected)
    }

    constructor (env: Env, listed: seq<Session>)
      requires LowersAscii(env)
      ensures Valid() && this.env == env && sessions == Cleaned(env, listed)
      ensures ViewNow() == View("", false, ByProject) && collapsed == {} && ribbons == map[]
      ensures selected == Clamped(rows, 0)
    {
      hide Rows, HiddenCount, Clamped, WellPlaced, LowersAscii;
      this.env := env;
      sessions, selected, filter, showAll, groupMode := Cleaned(env, listed), 0, "", false, ByProject;
      rows, ribbons, rootCache, hiddenRows, collapsed := [], map[], map[], 0, {};
      new;
      RebuildRows();
      ClampSelection();
    }

    method RootOf(cwd: string) returns (root: string)
      requires CacheIsSound()
      modifies this`rootCache
      ensures CacheIsSound() && root == env.projectRoot(cwd)
    {
      if cwd in rootCache {
        return rootCache[cwd];
      }
      root := env.projectRoot(cwd);
      rootCache := rootCache[cwd := root];
    }

    function CachedRoot(cwd: string): (root: string)
      requires CacheIsSound()
      reads this`rootCache
      ensures root == env.projectRoot(cwd)
    {
      if cwd in rootCache then rootCache[cwd] else env.projectRoot(cwd)
    }

    /** Appends one group to the list: a spacer unless it is the first, its header, its members. */
    method PushGroup(built: seq<Row>, mode: GroupMode, key: GroupKey, members: seq<Session>, ghost groups: seq<Group>)
      returns (more: seq<Row>)
      requires CacheIsSound() && built == Render(env, mode, NoActivity(), groups, collapsed)
      ensures more == Render(env, mode, NoActivity(), groups + [Group(key, members)], collapsed)
    {
      hide Render, HeaderKey;
      RenderOneMore(env, mode, NoActivity(), groups, Group(key, members), collapsed);
      more := built;
      if more != [] {
        more := more + [Spacer];
      }
      more := more + [Header(key, |members|, key in collapsed)];
      if key !in collapsed {
        ghost var above := more;
        for i := 0 to |members|
          invariant more == above + SessionRows(env, mode, NoActivity(), members[..i])
        {
          var project := if mode == ByState then Some(env.projectLabel(CachedRoot(members[i].cwd))) else None;
          SessionRowsOneMore(env, mode, NoActivity(), members, i);
          AddAssociates(above, SessionRows(env, mode, NoActivity(), members[..i]),
                        [RowFor(env, mode, NoActivity(), members[i])]);
          more := more + [SessionRow(members[i], project, None)];
        }
        assert members[..|members|] == members;
      }
    }

    method BuildStateRows(visible: seq<Session>, ghost recent: seq<Session>) returns (built: seq<Row>)
      requires CacheIsSound() && visible == Retain(recent, IsShown())
      ensures built == Render(env, ByState, NoActivity(), StateGroups(env, recent, SECTIONS), collapsed)
    {
      hide Render, Sort, Retain;
      built := [];
      NothingToRender(env, ByState, collapsed);
      for i := 0 to |SECTIONS|
        invariant built == Render(env, ByState, NoActivity(), StateGroups(env, recent, SECTIONS[..i]), collapsed)
      {
        var section := SECTIONS[i];
        var members := Sort(StateLeq, Retain(visible, InGroup(env, ByState, State(section))));
        assert SECTIONS[..i + 1][..i] == SECTIONS[..i];
        ghost var before := StateGroups(env, recent, SECTIONS[..i]);
        if members == [] {
          assert before + [] == before;
          continue;
        }
        built := PushGroup(built, ByState, State(section), members, before);
      }
      assert SECTIONS[..|SECTIONS|] == SECTIONS;
    }

    method BuildProjectRows(recent: seq<Session>) returns (built: seq<Row>)
      requires CacheIsSound()
      modifies this`rootCache
      ensures CacheIsSound()
      ensures built == Render(env, ByProject, NoActivity(),
                              ProjectGroups(env, recent, Sort(RootOrder(env), RootsOf(env, recent))), collapsed)
    {
      hide Render, Sort, Retain, Collected, RootsOf, ProjectMembers;
      var order, byRoot := GroupByRoot(recent);
      ghost var collected := byRoot;
      order := Sort(RootOrder(env), order);
      SortKeeps(RootOrder(env), RootsOf(env, recent));
      byRoot := map root | root in byRoot :: Sort(ProjectLeq, byRoot[root]);
      built := [];
      NothingToRender(env, ByProject, collapsed);
      for i := 0 to |order|
        invariant CacheIsSound()
        invariant built == Render(env, ByProject, NoActivity(), ProjectGroups(env, recent, order[..i]), collapsed)
      {
        var root := order[i];
        CollectedAt(env, recent, collected, root);
        var visible := Retain(byRoot[root], IsShown());
        assert order[..i + 1][..i] == order[..i];
        built := PushGroup(built, ByProject, Project(root), visible, ProjectGroups(env, recent, order[..i]));
      }
      assert order[..|order|] == order;
    }

    method GroupByRoot(recent: seq<Session>) returns (order: seq<string>, byRoot: map<string, seq<Session>>)
      requires CacheIsSound()
      modifies this`rootCache
      ensures CacheIsSound()
      ensures order == RootsOf(env, recent) && Collected(env, recent, byRoot)
      ensures forall root :: root in order <==> root in byRoot
    {
      hide Collected;
      order, byRoot := [], map[];
      NothingCollected(env);
      for i := 0 to |recent|
        invariant CacheIsSound()
        invariant order == RootsOf(env, recent[..i]) && Collected(env, recent[..i], byRoot)
        invariant forall root :: root in order <==> root in byRoot
      {
        var s := recent[i];
        var root := RootOf(s.cwd);
        assert recent[..i + 1][..i] == recent[..i] && recent[..i + 1] == recent[..i] + [s];
        CollectedOneMore(env, recent[..i], byRoot, s);
        if root !in byRoot {
          order := order + [root];
        }
        byRoot := byRoot[root := (if root in byRoot then byRoot[root] else []) + [s]];
      }
      assert recent[..|recent|] == recent;
    }

    /** The sessions that the exclusions and the filter leave. */
    method IncludedSessions() returns (included: seq<Session>)
      requires LowersAscii(env)
      ensures included == Retain(sessions, IsIncluded(env, ViewNow()))
    {
      hide Retain, LowersAscii, Matches, LowerAscii;
      var needle := env.lower(filter);
      LoweredIsLower(env, filter);
      included := [];
      RetainNone(sessions[..0], IsIncluded(env, ViewNow()));
      for i := 0 to |sessions|
        invariant included == Retain(sessions[..i], IsIncluded(env, ViewNow()))
      {
        var s := sessions[i];
        RetainOneMore(sessions, i, IsIncluded(env, ViewNow()));
        if IncludesAll(ViewNow()) || !(s.hidden || s.companion) {
          var matches := MatchesNeedle(env, needle, s);
          if matches {
            included := included + [s];
          }
        }
      }
      assert sessions[..|sessions|] == sessions;
    }

    /** Recomputes the cached rows. */
    method RebuildRows()
      requires LowersAscii(env) && CacheIsSound()
      modifies this`rows, this`hiddenRows, this`rootCache
      ensures Cached()
    {
      hide Render, Sort, Retain, LowersAscii;
      var view := ViewNow();
      var included := IncludedSessions();
      var recent := Sort(UpdatedLeq, included);
      hiddenRows := HiddenCount(view, sessions);
      if groupMode == ByState {
        rows := BuildStateRows(Retain(recent, IsShown()), recent);
      } else {
        rows := BuildProjectRows(recent);
      }
      ghost var groups, plain := Groups(env, view, sessions), rows;
      RibbonsAreIndependent(env, groupMode, NoActivity(), ActivityOf(ribbons), groups, collapsed);
      for i := 0 to |rows|
        invariant |rows| == |plain| && CacheIsSound() && hiddenRows == HiddenCount(view, sessions)
        invariant forall j :: 0 <= j < i ==> rows[j] == WithActivity(plain[j], ActivityOf(ribbons))
        invariant forall j :: i <= j < |rows| ==> rows[j] == plain[j]
      {
        if rows[i].SessionRow? {
          rows := rows[i := rows[i].(activity := ActivityOf(ribbons)(rows[i].session))];
        }
      }
    }

    method ScanFrom(start: int, step: int, pred: Row -> bool) returns (found: Option<nat>)
      requires step == 1 || step == -1
      ensures found == Scan(rows, start, step, pred)
    {
      var i := start;
      while 0 <= i < |rows|
        invariant Scan(rows, start, step, pred) == Scan(rows, i, step, pred)
        decreases if step == 1 then |rows| - i else i
      {
        if pred(rows[i]) {
          return Some(i);
        }
        i := i + step;
      }
      return None;
    }

    method ClampSelection()
      modifies this`selected
      ensures selected == Clamped(rows, old(selected)) && WellPlaced(rows, selected)
    {
      hide Scan, WellPlaced;
      ClampedIsWellPlaced(rows, selected);
      if rows == [] {
        selected := 0;
        return;
      }
      if selected >= |rows| {
        selected := |rows| - 1;
      }
      if !rows[selected].SessionRow? {
        var here: int := selected;
        var found := ScanFrom(here, 1, IsSession());
        if found.None? { found := ScanFrom(here - 1, -1, IsSession()); }
        if found.None? { found := ScanFrom(here, 1, IsSelectable()); }
        if found.None? { found := ScanFrom(here - 1, -1, IsSelectable()); }
        if found.Some? {
          selected := found.value;
        }
      }
    }

    method MoveSelection(delta: int)
      requires Valid()
      modifies this`selected
      ensures Valid() && selected == Moved(rows, old(selected), delta)
    {
      hide Cached, Scan, WellPlaced, LowersAscii;
      MovedIsWellPlaced(rows, selected, delta);
      if rows == [] {
        selected := 0;
        return;
      }
      var step := Step(delta);
      var target := Clamp(selected + delta, 0, |rows| - 1);
      var chosen := ScanFrom(target, step, IsSelectable());
      if chosen.None? { chosen := ScanFrom(target, -step, IsSelectable()); }
      if chosen.Some? {
        if delta == step && chosen.value == selected {
          var wrapped := ScanFrom(if step > 0 then 0 else |rows| - 1, step, IsSelectable());
          selected := if wrapped.Some? then wrapped.value else chosen.value;
        } else {
          selected := chosen.value;
        }
      }
    }

    method SelectVisibleIndex(index: nat) returns (changed: bool)
      requires Valid()
      modifies this`selected
      ensures Valid() && changed == Selectable(rows, index)
      ensures selected == if changed then index else old(selected)
    {
      changed := index < |rows| && rows[index] != Spacer;
      if changed {
        selected := index;
      }
    }

    method ToggleShowAll()
      requires Valid()
      modifies this
      ensures Valid() && ViewNow() == old(ViewNow()).(showAll := !old(showAll))
              && selected == Clamped(rows, old(selected))
      ensures (sessions, collapsed, ribbons) == old((sessions, collapsed, ribbons))
    {
      hide Rows, HiddenCount, Clamped, WellPlaced, LowersAscii;
      showAll := !showAll;
      RebuildRows();
      ClampSelection();
    }

    method ToggleGroupMode()
      requires Valid()
      modifies this
      ensures Valid() && selected == Clamped(rows, old(selected))
      ensures ViewNow() == old(ViewNow()).(mode := if old(groupMode) == ByState then ByProject else ByState)
      ensures (sessions, collapsed, ribbons) == old((sessions, collapsed, ribbons))
    {
      hide Rows, HiddenCount, Clamped, WellPlaced, LowersAscii;
      groupMode := match groupMode case ByState => ByProject case ByProject => ByState;
      RebuildRows();
      ClampSelection();
    }

    method SetCollapsed(groups: set<GroupKey>)
      requires Valid()
      modifies this
      ensures Valid() && collapsed == groups && selected == Clamped(rows, old(selected))
      ensures (sessions, ViewNow(), ribbons) == old((sessions, ViewNow(), ribbons))
    {
      hide Rows, HiddenCount, Clamped, WellPlaced, LowersAscii;
      collapsed := groups;
      RebuildRows();
      ClampSelection();
    }

    method SetFilter(text: string)
      requires Valid()
      modifies this
      ensures Valid() && ViewNow() == old(ViewNow()).(filter := text) && selected == Clamped(rows, old(selected))
      ensures (sessions, collapsed, ribbons) == old((sessions, collapsed, ribbons))
    {
      hide Rows, HiddenCount, Clamped, WellPlaced, LowersAscii;
      filter := text;
      RebuildRows();
      ClampSelection();
    }

    method SelectHeader(key: GroupKey) returns (found: bool)
      modifies this`selected
      ensures found == HasHeader(rows, key)
      ensures selected == if found then HeaderPlace(rows, key).value else old(selected)
      ensures found ==> Selectable(rows, selected)
    {
      var place := HeaderPlace(rows, key);
      if place.Some? {
        selected := place.value;
      }
      found := place.Some?;
    }

    method SelectByKey(key: SessionKey) returns (found: bool)
      modifies this`selected
      ensures found == SessionPlace(rows, key).Some?
      ensures selected == if found then SessionPlace(rows, key).value else old(selected)
      ensures found ==> Selectable(rows, selected)
    {
      var place := SessionPlace(rows, key);
      if place.Some? {
        selected := place.value;
      }
      found := place.Some?;
    }

    function SelectedHeaderKey(): Option<GroupKey>
      reads this
    {
      if selected < |rows| then HeaderKey(rows[selected]) else None
    }

    /** Folds or unfolds the group under the cursor, which stays on its header. */
    method ToggleSelectedGroup() returns (toggled: Option<(GroupKey, bool)>)
      requires Valid()
      modifies this
      ensures Valid() && (sessions, ViewNow(), ribbons) == old((sessions, ViewNow(), ribbons))
      ensures toggled.None? <==> old(SelectedHeaderKey()).None?
      ensures toggled.None? ==> (rows, selected, collapsed) == old((rows, selected, collapsed))
      ensures toggled.Some? ==>
                && old(SelectedHeaderKey()) == Some(toggled.value.0) == SelectedHeaderKey()
                && toggled.value.1 == (toggled.value.0 !in old(collapsed)) == (toggled.value.0 in collapsed)
                && collapsed == Toggled(old(collapsed), toggled.value.0)
                && HeaderPlace(rows, toggled.value.0) == Some(selected)
    {
      hide HiddenCount, Groups, Render, LowersAscii;
      var key := SelectedHeaderKey();
      if key.None? {
        return None;
      }
      ghost var groups := Groups(env, ViewNow(), sessions);
      HeaderIffGroup(env, groupMode, ActivityOf(ribbons), groups, collapsed, key.value);
      var nowCollapsed := key.value !in collapsed;
      collapsed := if nowCollapsed then collapsed + {key.value} else collapsed - {key.value};
      HeaderIffGroup(env, groupMode, ActivityOf(ribbons), groups, collapsed, key.value);
      RebuildRows();
      var found := SelectHeader(key.value);
      toggled := Some((key.value, nowCollapsed));
    }

    function SelectedSessionKey(): Option<SessionKey>
      reads this
    {
      if selected < |rows| && rows[selected].SessionRow? then Some(KeyOfSession(rows[selected].session)) else None
    }

    lemma SelectedIsKnown()
      requires Valid()
      ensures CacheIsSound()
      ensures SelectedSessionKey().Some? ==> Known(sessions, SelectedSessionKey().value)
    {
      hide Rows, Known;
      if SelectedSessionKey().Some? {
        RowsShowSessions(env, ViewNow(), ActivityOf(ribbons), sessions, collapsed, selected);
      }
    }

    /** Replaces the sessions. The cursor stays on its session or header if that is still shown; if
        its session is still there but no longer shown it goes to the nearest row above that is; else
        it is clamped. */
    method SetSessions(listed: seq<Session>)
      requires Valid()
      modifies this
      ensures Valid() && sessions == Cleaned(env, listed) && (collapsed, ViewNow()) == old((collapsed, ViewNow()))
      ensures ribbons == map key | key in old(ribbons) && Known(sessions, key) :: old(ribbons)[key]
      ensures var session, header := old(SelectedSessionKey()), old(SelectedHeaderKey());
              var above := FirstPlace(rows, AnchorsAbove(old(rows), Min(old(selected), |old(rows)|)));
              selected ==
              if session.Some? && SessionPlace(rows, session.value).Some? then SessionPlace(rows, session.value).value
              else if header.Some? && HasHeader(rows, header.value) then HeaderPlace(rows, header.value).value
              else if session.Some? && Known(sessions, session.value) && above.Some? then above.value
              else Clamped(rows, old(selected))
    {
      hide LowersAscii, Cached, CacheIsSound, Clamped, Scan, Known, SessionPlace, HeaderPlace, HeaderKey, FirstPlace,
           WellPlaced, Selectable, AnchorOf, AnchorsAbove, Cleaned;
      SelectedIsKnown();
      var sessionAnchor := SelectedSessionKey();
      if sessionAnchor.Some? && !Known(sessions, sessionAnchor.value) {
        sessionAnchor := None;
      }
      var headerAnchor := SelectedHeaderKey();
      var preceding := AnchorsAbove(rows, Min(selected, |rows|));
      sessions := Cleaned(env, listed);
      ribbons := map key | key in ribbons && Known(sessions, key) :: ribbons[key];
      RebuildRows();
      Restore(sessionAnchor, headerAnchor, sessionAnchor.Some? && Known(sessions, sessionAnchor.value), preceding);
    }

    /** Puts the cursor back on the first of its anchors that is still there. */
    method Restore(session: Option<SessionKey>, header: Option<GroupKey>, retained: bool, preceding: seq<RowAnchor>)
      modifies this`selected
      ensures WellPlaced(rows, selected)
      ensures selected ==
              if session.Some? && SessionPlace(rows, session.value).Some? then SessionPlace(rows, session.value).value
              else if header.Some? && HasHeader(rows, header.value) then HeaderPlace(rows, header.value).value
              else if retained && FirstPlace(rows, preceding).Some? then FirstPlace(rows, preceding).value
              else Clamped(rows, old(selected))
    {
      hide Clamped, Scan, SessionPlace, HeaderPlace, HeaderKey, FirstPlace, WellPlaced, Selectable, AnchorOf;
      PlacesAreRows(rows);
      if session.Some? {
        var found := SelectByKey(session.value);
        if found {
          return;
        }
      }
      if header.Some? {
        var found := SelectHeader(header.value);
        if found {
          return;
        }
      }
      if retained {
        var found := SelectFirst(preceding);
        if found {
          return;
        }
      }
      ClampSelection();
    }

    method SelectFirst(anchors: seq<RowAnchor>) returns (found: bool)
      modifies this`selected
      ensures found == FirstPlace(rows, anchors).Some?
      ensures selected == if found then FirstPlace(rows, anchors).value else old(selected)
    {
      hide SessionPlace, HeaderPlace;
      for i := 0 to |anchors|
        invariant FirstPlace(rows, anchors) == FirstPlace(rows, anchors[i..]) && selected == old(selected)
      {
        assert anchors[i..][1..] == anchors[i + 1..];
        match anchors[i] {
          case SessionAnchor(key) => found := SelectByKey(key);
          case HeaderAnchor(key) => found := SelectHeader(key);
        }
        if found {
          return;
        }
      }
      found := false;
    }

    /** The ribbon changes in place, and the rows are again what a rebuild would show. */
    method SetActivityRibbon(key: SessionKey, ribbon: Option<string>)
      requires Valid()
      modifies this`ribbons, this`rows
      ensures Valid()
      ensures ribbons == if ribbon.Some? then old(ribbons)[key := ribbon.value] else old(ribbons) - {key}
    {
      hide HiddenCount, Groups, Render, LowersAscii;
      ghost var before, groups := ActivityOf(ribbons), Groups(env, ViewNow(), sessions);
      ghost var was := rows;
      ribbons := if ribbon.Some? then ribbons[key := ribbon.value] else ribbons - {key};
      RibbonsAreIndependent(env, groupMode, before, ActivityOf(ribbons), groups, collapsed);
      RibbonsAreIndependent(env, groupMode, before, before, groups, collapsed);
      ghost var after := ribbons;
      for i := 0 to |rows|
        invariant |rows| == |was| && ribbons == after
        invariant forall j :: 0 <= j < i ==> rows[j] == WithActivity(was[j], ActivityOf(ribbons))
        invariant forall j :: i <= j < |rows| ==> rows[j] == was[j]
      {
        if rows[i].SessionRow? && KeyOfSession(rows[i].session) == key {
          rows := rows[i := rows[i].(activity := ribbon)];
        }
      }
      assert rows == RowsNow();
      assert forall i :: Selectable(was, i) <==> Selectable(rows, i);
    }
  }

  /** Wherever an anchor is found the cursor may stand. */
  lemma PlacesAreRows(rows: seq<Row>)
    ensures forall key :: SessionPlace(rows, key).Some? ==> WellPlaced(rows, SessionPlace(rows, key).value)
    ensures forall key :: HeaderPlace(rows, key).Some? ==> WellPlaced(rows, HeaderPlace(rows, key).value)
    ensures forall anchors :: FirstPlace(rows, anchors).Some? ==> WellPlaced(rows, FirstPlace(rows, anchors).value)
  {
  }

  /** The table holds the sessions of each root, in order. */
  ghost predicate Collected(env: Env, recent: seq<Session>, byRoot: map<string, seq<Session>>) {
    forall root :: (if root in byRoot then byRoot[root] else []) ==
        Retain(recent, InGroup(env, ByProject, Project(root)))
  }

  lemma NothingCollected(env: Env)
    ensures Collected(env, [], map[])
  {
  }

  lemma CollectedAt(env: Env, recent: seq<Session>, byRoot: map<string, seq<Session>>, root: string)
    requires Collected(env, recent, byRoot) && root in byRoot
    ensures Sort(ProjectLeq, byRoot[root]) == ProjectMembers(env, recent, root)
  {
  }

  lemma CollectedOneMore(env: Env, recent: seq<Session>, byRoot: map<string, seq<Session>>, s: Session)
    requires Collected(env, recent, byRoot)
    ensures var root := env.projectRoot(s.cwd);
            Collected(env, recent + [s], byRoot[root := (if root in byRoot then byRoot[root] else []) + [s]])
  {
    hide Retain, InGroup;
    forall root
      ensures Retain(recent + [s], InGroup(env, ByProject, Project(root))) ==
              Retain(recent, InGroup(env, ByProject, Project(root)))
              + if env.projectRoot(s.cwd) == root then [s] else []
    {
      CollectedUnder(env, recent, s, root);
    }
  }

  lemma CollectedUnder(env: Env, recent: seq<Session>, s: Session, root: string)
    ensures Retain(recent + [s], InGroup(env, ByProject, Project(root))) ==
            Retain(recent, InGroup(env, ByProject, Project(root)))
            + if env.projectRoot(s.cwd) == root then [s] else []
  {
    RetainAppend(recent, [s], InGroup(env, ByProject, Project(root)));
  }

  lemma RetainOneMore<T>(s: seq<T>, i: nat, keep: T -> bool)
    requires i < |s|
    ensures Retain(s[..i + 1], keep) == Retain(s[..i], keep) + if keep(s[i]) then [s[i]] else []
  {
    RetainAppend(s[..i], [s[i]], keep);
    assert s[..i + 1] == s[..i] + [s[i]];
  }

  lemma NothingToRender(env: Env, mode: GroupMode, collapsed: set<GroupKey>)
    ensures Render(env, mode, NoActivity(), [], collapsed) == []
  {
  }

  lemma SessionRowsOneMore(env: Env, mode: GroupMode, activity: Session -> Option<string>, members: seq<Session>,
      i: nat)
    requires i < |members|
    ensures SessionRows(env, mode, activity, members[..i + 1]) ==
            SessionRows(env, mode, activity, members[..i]) + [RowFor(env, mode, activity, members[i])]
  {
  }
}
