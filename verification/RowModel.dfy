/** The list's rows as a function of the sessions, the view settings and the collapsed groups. */
module RowModel {
  import opened Basics
  import opened Ordering
  import opened Sessions

  datatype Section = NeedsInputSection | WorkingSection | IdleSection | DoneSection

  datatype GroupMode = ByState | ByProject

  datatype GroupKey = Project(root: string) | State(section: Section)

  /** The fields that decide where a session is shown. */
  datatype Session = Session(backend: BackendKind, id: string, title: string, cwd: string, status: Status,
                             createdAtMs: int, updatedAtMs: int, hidden: bool, companion: bool)

  datatype Row =
    | SectionHeader(section: Section, count: nat, collapsed: bool)
    | ProjectHeader(root: string, count: nat, collapsed: bool)
    | SessionRow(session: Session, project: Option<string>, activity: Option<string>)
    | Spacer

  /** Unicode lower-casing, the project a directory belongs to, a project's short label, and titles made
      safe to show. */
  datatype Env = Env(lower: string -> string, projectRoot: string -> string, projectLabel: string -> string,
                     clean: string -> string)

  datatype View = View(filter: string, showAll: bool, mode: GroupMode)

  // ---------------------------------------------------------------- which sessions, in which group

  predicate Occurs(needle: string, haystack: string) {
    exists i :: 0 <= i <= |haystack| && needle <= haystack[i..]
  }

  predicate Matches(env: Env, needle: string, s: Session) {
    needle == "" || Occurs(needle, env.lower(s.title)) || Occurs(needle, env.lower(s.cwd))
  }

  function AsciiLower(c: char): char {
    if 'A' <= c <= 'Z' then c + 32 as char else c
  }

  predicate IsHoldTitle(title: string) {
    |title| == 4 && AsciiLower(title[0]) == 'h' && AsciiLower(title[1]) == 'o'
    && AsciiLower(title[2]) == 'l' && AsciiLower(title[3]) == 'd'
  }

  predicate IncludesAll(view: View) {
    view.showAll || view.filter != ""
  }

  predicate Included(env: Env, view: View, s: Session) {
    (IncludesAll(view) || !(s.hidden || s.companion)) && Matches(env, env.lower(view.filter), s)
  }

  function SectionOf(status: Status): Section {
    match status
    case NeedsInput(_) => NeedsInputSection
    case Working => WorkingSection
    case Idle => IdleSection
    case Unknown => IdleSection
    case Done => DoneSection
    case Error => DoneSection
  }

  function KeyOf(env: Env, mode: GroupMode, s: Session): GroupKey {
    if mode == ByState then State(SectionOf(s.status)) else Project(env.projectRoot(s.cwd))
  }

  predicate UpdatedLeq(a: Session, b: Session) {
    a.updatedAtMs <= b.updatedAtMs
  }

  function BackendRank(backend: BackendKind): nat {
    match backend
    case Codex => 0
    case Claude => 1
    case Grok => 2
  }

  predicate StateLeq(a: Session, b: Session) {
    || a.createdAtMs < b.createdAtMs
    || (a.createdAtMs == b.createdAtMs
        && (|| BackendRank(a.backend) < BackendRank(b.backend)
            || (a.backend == b.backend && TextLeq(a.id, b.id))))
  }

  predicate ProjectLeq(a: Session, b: Session) {
    a.createdAtMs < b.createdAtMs || (a.createdAtMs == b.createdAtMs && b.updatedAtMs <= a.updatedAtMs)
  }

  predicate RootLeq(env: Env, a: string, b: string) {
    if env.lower(a) == env.lower(b) then TextLeq(a, b) else TextLeq(env.lower(a), env.lower(b))
  }

  function RootOrder(env: Env): (string, string) -> bool {
    (a, b) => RootLeq(env, a, b)
  }

  function IsIncluded(env: Env, view: View): Session -> bool {
    s => Included(env, view, s)
  }

  function IsShown(): Session -> bool {
    (s: Session) => !IsHoldTitle(s.title)
  }

  function InGroup(env: Env, mode: GroupMode, key: GroupKey): Session -> bool {
    s => KeyOf(env, mode, s) == key
  }

  /** The included sessions, least recently updated first. */
  function Recent(env: Env, view: View, sessions: seq<Session>): seq<Session> {
    Sort(UpdatedLeq, Retain(sessions, IsIncluded(env, view)))
  }

  // ---------------------------------------------------------------- groups

  datatype Group = Group(key: GroupKey, members: seq<Session>)

  const SECTIONS: seq<Section> := [NeedsInputSection, WorkingSection, IdleSection, DoneSection]

  function StateMembers(env: Env, recent: seq<Session>, section: Section): seq<Session> {
    Sort(StateLeq, Retain(Retain(recent, IsShown()), InGroup(env, ByState, State(section))))
  }

  function StateGroups(env: Env, recent: seq<Session>, sections: seq<Section>): seq<Group> {
    if sections == [] then []
    else
      var last := sections[|sections| - 1];
      var members := StateMembers(env, recent, last);
      StateGroups(env, recent, sections[..|sections| - 1]) + if members == [] then [] else [Group(State(last), members)]
  }

  /** The roots in the order in which they first occur. */
  function RootsOf(env: Env, recent: seq<Session>): seq<string> {
    if recent == [] then []
    else
      var before := RootsOf(env, recent[..|recent| - 1]);
      var root := env.projectRoot(recent[|recent| - 1].cwd);
      if root in before then before else before + [root]
  }

  function ProjectMembers(env: Env, recent: seq<Session>, root: string): seq<Session> {
    Sort(ProjectLeq, Retain(recent, InGroup(env, ByProject, Project(root))))
  }

  function ProjectGroups(env: Env, recent: seq<Session>, roots: seq<string>): seq<Group> {
    if roots == [] then []
    else
      var last := roots[|roots| - 1];
      ProjectGroups(env, recent, roots[..|roots| - 1])
      + [Group(Project(last), Retain(ProjectMembers(env, recent, last), IsShown()))]
  }

  function Groups(env: Env, view: View, sessions: seq<Session>): seq<Group> {
    var recent := Recent(env, view, sessions);
    if view.mode == ByState then StateGroups(env, recent, SECTIONS)
    else ProjectGroups(env, recent, Sort(RootOrder(env), RootsOf(env, recent)))
  }

  // ---------------------------------------------------------------- rows

  function Header(key: GroupKey, count: nat, collapsed: bool): Row {
    match key
    case State(section) => SectionHeader(section, count, collapsed)
    case Project(root) => ProjectHeader(root, count, collapsed)
  }

  function HeaderKey(row: Row): Option<GroupKey> {
    match row
    case SectionHeader(section, _, _) => Some(State(section))
    case ProjectHeader(root, _, _) => Some(Project(root))
    case _ => None
  }

  /** How one session is drawn: its project label by state, and its activity ribbon. */
  function RowFor(env: Env, mode: GroupMode, activity: Session -> Option<string>, s: Session): Row {
    SessionRow(s, if mode == ByState then Some(env.projectLabel(env.projectRoot(s.cwd))) else None, activity(s))
  }

  function SessionRows(env: Env, mode: GroupMode, activity: Session -> Option<string>,
      members: seq<Session>): seq<Row> {
    seq(|members|, i requires 0 <= i < |members| => RowFor(env, mode, activity, members[i]))
  }

  function GroupRows(env: Env, mode: GroupMode, activity: Session -> Option<string>, group: Group,
      collapsed: bool): seq<Row> {
    [Header(group.key, |group.members|, collapsed)]
    + if collapsed then [] else SessionRows(env, mode, activity, group.members)
  }

  function Render(env: Env, mode: GroupMode, activity: Session -> Option<string>, groups: seq<Group>,
      collapsed: set<GroupKey>): seq<Row>
  {
    if groups == [] then []
    else
      var before := Render(env, mode, activity, groups[..|groups| - 1], collapsed);
      var last := groups[|groups| - 1];
      before + (if before == [] then [] else [Spacer]) + GroupRows(env, mode, activity, last, last.key in collapsed)
  }

  function Rows(env: Env, view: View, activity: Session -> Option<string>, sessions: seq<Session>,
      collapsed: set<GroupKey>): seq<Row>
  {
    Render(env, view.mode, activity, Groups(env, view, sessions), collapsed)
  }

  // ---------------------------------------------------------------- reading the rows back

  /** A header and the session rows that stand under it. */
  datatype Block = Block(header: Row, rows: seq<Row>)

  /** The blocks of a list that starts with a header, has one spacer before every other header and
      no other spacer. Anything else is not a list. */
  function Parse(rows: seq<Row>): Option<seq<Block>> {
    if rows == [] then Some([])
    else
      var last, init := rows[|rows| - 1], rows[..|rows| - 1];
      if HeaderKey(last).Some? then
        if init == [] then Some([Block(last, [])])
        else if init[|init| - 1] != Spacer || |init| == 1 then None
        else
          var blocks := Parse(init[..|init| - 1]);
          if blocks.None? || blocks.value == [] then None else Some(blocks.value + [Block(last, [])])
      else if last.SessionRow? then
        var blocks := Parse(init);
        if blocks.None? || blocks.value == [] then None
        else
          var block := blocks.value[|blocks.value| - 1];
          Some(blocks.value[..|blocks.value| - 1] + [block.(rows := block.rows + [last])])
      else None
  }

  function BlockOf(env: Env, mode: GroupMode, activity: Session -> Option<string>, collapsed: set<GroupKey>,
      group: Group): Block {
    Block(Header(group.key, |group.members|, group.key in collapsed),
          if group.key in collapsed then [] else SessionRows(env, mode, activity, group.members))
  }

  function BlocksOf(env: Env, mode: GroupMode, activity: Session -> Option<string>, collapsed: set<GroupKey>,
      groups: seq<Group>): seq<Block> {
    seq(|groups|, i requires 0 <= i < |groups| => BlockOf(env, mode, activity, collapsed, groups[i]))
  }

  lemma ParseHeader(rows: seq<Row>, header: Row, blocks: seq<Block>)
    requires HeaderKey(header).Some? && Parse(rows) == Some(blocks) && (rows == [] <==> blocks == [])
    ensures Parse(if rows == [] then [header] else rows + [Spacer] + [header]) == Some(blocks + [Block(header, [])])
  {
    if rows == [] {
      assert [header][..0] == [];
      assert blocks + [Block(header, [])] == [Block(header, [])];
    } else {
      var all := rows + [Spacer] + [header];
      var init := all[..|all| - 1];
      assert init == rows + [Spacer];
      assert init[..|init| - 1] == rows;
    }
  }

  lemma ParseSession(rows: seq<Row>, last: Row, before: seq<Block>, block: Block)
    requires Parse(rows) == Some(before + [block]) && last.SessionRow?
    ensures Parse(rows + [last]) == Some(before + [block.(rows := block.rows + [last])])
  {
    var all := rows + [last];
    assert all[..|all| - 1] == rows && all[|all| - 1] == last;
    assert (before + [block])[..|before|] == before;
  }

  lemma {:induction false} ParseSessions(rows: seq<Row>, more: seq<Row>, before: seq<Block>, block: Block)
    requires Parse(rows) == Some(before + [block])
    requires forall i :: 0 <= i < |more| ==> more[i].SessionRow?
    ensures Parse(rows + more) == Some(before + [block.(rows := block.rows + more)])
  {
    hide Parse;
    if more == [] {
      assert rows + more == rows && block.rows + more == block.rows;
    } else {
      var init, last := more[..|more| - 1], more[|more| - 1];
      ParseSessions(rows, init, before, block);
      ParseSession(rows + init, last, before, block.(rows := block.rows + init));
      assert init + [last] == more;
      AddAssociates(rows, init, [last]);
      AddAssociates(block.rows, init, [last]);
    }
  }

  lemma ParseBlock(rows: seq<Row>, block: Block, blocks: seq<Block>)
    requires HeaderKey(block.header).Some? && Parse(rows) == Some(blocks) && (rows == [] <==> blocks == [])
    requires forall i :: 0 <= i < |block.rows| ==> block.rows[i].SessionRow?
    ensures Parse((if rows == [] then [block.header] else rows + [Spacer] + [block.header]) + block.rows) ==
            Some(blocks + [block])
  {
    hide Parse;
    ParseHeader(rows, block.header, blocks);
    ParseSessions(if rows == [] then [block.header] else rows + [Spacer] + [block.header], block.rows,
                  blocks, Block(block.header, []));
    assert [] + block.rows == block.rows;
  }

  /** One more group: its header, behind a spacer unless it is the first, and then its members. */
  lemma RenderOneMore(env: Env, mode: GroupMode, activity: Session -> Option<string>, init: seq<Group>, last: Group,
      collapsed: set<GroupKey>)
    ensures var rows := Render(env, mode, activity, init, collapsed);
            var block := BlockOf(env, mode, activity, collapsed, last);
            Render(env, mode, activity, init + [last], collapsed) ==
            (if rows == [] then [block.header] else rows + [Spacer] + [block.header]) + block.rows
  {
  }

  lemma GroupIsBlock(env: Env, mode: GroupMode, activity: Session -> Option<string>, collapsed: set<GroupKey>,
      group: Group)
    ensures var block := BlockOf(env, mode, activity, collapsed, group);
            GroupRows(env, mode, activity, group, group.key in collapsed) == [block.header] + block.rows
    ensures var block := BlockOf(env, mode, activity, collapsed, group);
            && HeaderKey(block.header) == Some(group.key)
            && forall i :: 0 <= i < |block.rows| ==> block.rows[i].SessionRow?
  {
  }

  lemma BlocksOneMore(env: Env, mode: GroupMode, activity: Session -> Option<string>, collapsed: set<GroupKey>,
      init: seq<Group>, last: Group)
    ensures BlocksOf(env, mode, activity, collapsed, init + [last]) ==
            BlocksOf(env, mode, activity, collapsed, init) + [BlockOf(env, mode, activity, collapsed, last)]
  {
  }

  /** The list can be read back: it is the groups, in order, each under its own header, with all
      its members unless it is collapsed, the full count either way, and spacers only between. */
  lemma {:induction false} RowsReadBack(env: Env, mode: GroupMode, activity: Session -> Option<string>,
      groups: seq<Group>, collapsed: set<GroupKey>)
    ensures Parse(Render(env, mode, activity, groups, collapsed)) ==
            Some(BlocksOf(env, mode, activity, collapsed, groups))
    ensures Render(env, mode, activity, groups, collapsed) == [] <==> groups == []
  {
    hide BlockOf, GroupRows;
    if groups == [] {
      assert BlocksOf(env, mode, activity, collapsed, groups) == [];
    } else {
      hide Parse, Render;
      var init, last := groups[..|groups| - 1], groups[|groups| - 1];
      RowsReadBack(env, mode, activity, init, collapsed);
      RenderOneMore(env, mode, activity, init, last, collapsed);
      BlocksOneMore(env, mode, activity, collapsed, init, last);
      GroupIsBlock(env, mode, activity, collapsed, last);
      assert init + [last] == groups;
      var rows := Render(env, mode, activity, init, collapsed);
      var blocks := BlocksOf(env, mode, activity, collapsed, init);
      var block := BlockOf(env, mode, activity, collapsed, last);
      ParseBlock(rows, block, blocks);
    }
  }
}
