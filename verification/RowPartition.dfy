/** The groups, and so the rows, partition the sessions to be shown. */
module RowPartition {
  import opened Basics
  import opened Ordering
  import opened Sessions
  import opened RowModel

  // ---------------------------------------------------------------- the orders are orders

  lemma StateOrderIsTotal()
    ensures TotalPreorder(StateLeq)
  {
    forall x, y ensures StateLeq(x, y) || StateLeq(y, x) {
      TextTotal(x.id, y.id);
    }
    forall x, y, z | StateLeq(x, y) && StateLeq(y, z) ensures StateLeq(x, z) {
      if TextLeq(x.id, y.id) && TextLeq(y.id, z.id) {
        TextTransitive(x.id, y.id, z.id);
      }
    }
  }

  lemma RootOrderIsTotal(env: Env)
    ensures TotalPreorder(RootOrder(env))
  {
    forall x, y ensures RootOrder(env)(x, y) || RootOrder(env)(y, x) {
      TextTotal(x, y);
      TextTotal(env.lower(x), env.lower(y));
    }
    forall x, y, z | RootOrder(env)(x, y) && RootOrder(env)(y, z) ensures RootOrder(env)(x, z) {
      RootOrderChains(env, x, y, z);
    }
  }

  lemma RootOrderChains(env: Env, x: string, y: string, z: string)
    requires RootLeq(env, x, y) && RootLeq(env, y, z)
    ensures RootLeq(env, x, z)
  {
    var a, b, c := env.lower(x), env.lower(y), env.lower(z);
    if a == b == c {
      TextTransitive(x, y, z);
    } else if a != b && b != c {
      TextTransitive(a, b, c);
      TextTotal(a, b);
    }
  }

  // ---------------------------------------------------------------- counting

  lemma RecentCounts(env: Env, view: View, sessions: seq<Session>, s: Session)
    ensures multiset(Recent(env, view, sessions))[s] == if Included(env, view, s) then multiset(sessions)[s] else 0
  {
    hide Included, Sort, Retain;
    RetainCounts(sessions, IsIncluded(env, view), s);
    SortKeeps(UpdatedLeq, Retain(sessions, IsIncluded(env, view)));
  }

  lemma RecentMembers(env: Env, view: View, sessions: seq<Session>)
    ensures forall s :: s in Recent(env, view, sessions) <==> s in sessions && Included(env, view, s)
  {
    hide Included, Recent;
    forall s ensures s in Recent(env, view, sessions) <==> s in sessions && Included(env, view, s) {
      RecentCounts(env, view, sessions, s);
      assert s in sessions <==> s in multiset(sessions);
      assert s in Recent(env, view, sessions) <==> s in multiset(Recent(env, view, sessions));
    }
  }

  /** How often a session stands in the group with this key. */
  function Share(env: Env, mode: GroupMode, recent: seq<Session>, key: GroupKey, s: Session): nat {
    if !IsHoldTitle(s.title) && KeyOf(env, mode, s) == key then multiset(recent)[s] else 0
  }

  lemma StateMembersCount(env: Env, recent: seq<Session>, section: Section, s: Session)
    ensures multiset(StateMembers(env, recent, section))[s] == Share(env, ByState, recent, State(section), s)
  {
    hide IsHoldTitle, KeyOf, Sort, Retain;
    var shown := Retain(recent, IsShown());
    RetainCounts(recent, IsShown(), s);
    RetainCounts(shown, InGroup(env, ByState, State(section)), s);
    SortKeeps(StateLeq, Retain(shown, InGroup(env, ByState, State(section))));
  }

  lemma ProjectMembersCount(env: Env, recent: seq<Session>, root: string, s: Session)
    ensures multiset(Retain(ProjectMembers(env, recent, root), IsShown()))[s] ==
            Share(env, ByProject, recent, Project(root), s)
  {
    hide IsHoldTitle, KeyOf, Sort, Retain;
    var group := Retain(recent, InGroup(env, ByProject, Project(root)));
    RetainCounts(recent, InGroup(env, ByProject, Project(root)), s);
    SortKeeps(ProjectLeq, group);
    RetainCounts(ProjectMembers(env, recent, root), IsShown(), s);
  }

  // ---------------------------------------------------------------- by state

  function Rank(section: Section): nat {
    match section
    case NeedsInputSection => 0
    case WorkingSection => 1
    case IdleSection => 2
    case DoneSection => 3
  }

  /** What is right about one group, whichever way the list is grouped. */
  ghost predicate RightMembers(env: Env, mode: GroupMode, recent: seq<Session>, g: Group) {
    && (forall s :: multiset(g.members)[s] == Share(env, mode, recent, g.key, s))
    && SortedBy(if mode == ByState then StateLeq else ProjectLeq, g.members)
  }

  predicate Increasing(sections: seq<Section>) {
    forall i, j :: 0 <= i < j < |sections| ==> Rank(sections[i]) < Rank(sections[j])
  }

  predicate GroupsIncrease(groups: seq<Group>) {
    && (forall g :: g in groups ==> g.key.State?)
    && forall i, j :: 0 <= i < j < |groups| ==> Rank(groups[i].key.section) < Rank(groups[j].key.section)
  }

  /** There is a group for just the sections that have members, with these members. */
  lemma {:induction false} StateGroupsAreSections(env: Env, recent: seq<Session>, sections: seq<Section>)
    ensures forall g :: g in StateGroups(env, recent, sections) <==>
              (g.key.State? && g.key.section in sections && g.members != []
               && g.members == StateMembers(env, recent, g.key.section))
  {
    hide StateMembers;
    if sections != [] {
      var init, last := sections[..|sections| - 1], sections[|sections| - 1];
      StateGroupsAreSections(env, recent, init);
      assert sections == init + [last];
    }
  }

  lemma {:induction false} StateGroupsInOrder(env: Env, recent: seq<Session>, sections: seq<Section>)
    requires Increasing(sections)
    ensures GroupsIncrease(StateGroups(env, recent, sections))
  {
    hide StateMembers, Rank, GroupsIncrease, Increasing;
    if sections == [] {
      NoGroupsIncrease();
    } else {
      var init, last := sections[..|sections| - 1], sections[|sections| - 1];
      FrontIncreases(sections);
      StateGroupsInOrder(env, recent, init);
      StateGroupsAreSections(env, recent, init);
      var before := StateGroups(env, recent, init);
      assert before + [] == before;
      OneMoreIncreases(before, Group(State(last), StateMembers(env, recent, last)));
    }
  }

  lemma NoGroupsIncrease()
    ensures GroupsIncrease([])
  {
  }

  lemma FrontIncreases(sections: seq<Section>)
    requires Increasing(sections) && sections != []
    ensures Increasing(sections[..|sections| - 1])
    ensures forall section :: section in sections[..|sections| - 1] ==> Rank(section) < Rank(sections[|sections| - 1])
  {
  }

  lemma OneMoreIncreases(groups: seq<Group>, last: Group)
    requires GroupsIncrease(groups) && last.key.State?
    requires forall g :: g in groups ==> Rank(g.key.section) < Rank(last.key.section)
    ensures GroupsIncrease(groups + [last])
  {
    hide Rank;
  }

  lemma StateMembersAreRight(env: Env, recent: seq<Session>, section: Section)
    ensures RightMembers(env, ByState, recent, Group(State(section), StateMembers(env, recent, section)))
  {
    hide StateLeq, Share, Sort, Retain;
    forall s ensures multiset(StateMembers(env, recent, section))[s] == Share(env, ByState, recent, State(section), s) {
      StateMembersCount(env, recent, section, s);
    }
    StateOrderIsTotal();
    SortSorts(StateLeq, Retain(Retain(recent, IsShown()), InGroup(env, ByState, State(section))));
  }

  // ---------------------------------------------------------------- by project

  lemma {:induction false} RetainMembers<T>(s: seq<T>, keep: T -> bool)
    ensures forall x :: x in Retain(s, keep) <==> x in s && keep(x)
  {
    if s != [] {
      RetainMembers(s[1..], keep);
      assert s == [s[0]] + s[1..];
    }
  }

  lemma {:induction false} RetainSorts<T(!new)>(leq: (T, T) -> bool, s: seq<T>, keep: T -> bool)
    requires SortedBy(leq, s)
    ensures SortedBy(leq, Retain(s, keep))
  {
    if s != [] {
      var rest := Retain(s[1..], keep);
      RetainSorts(leq, s[1..], keep);
      RetainMembers(s[1..], keep);
      forall i | 0 <= i < |rest| ensures leq(s[0], rest[i]) {
        assert rest[i] in s[1..];
        var k :| 0 <= k < |s| - 1 && s[1..][k] == rest[i];
        assert s[k + 1] == rest[i];
      }
    }
  }

  lemma ProjectMembersAreRight(env: Env, recent: seq<Session>, root: string)
    ensures RightMembers(env, ByProject, recent,
                         Group(Project(root), Retain(ProjectMembers(env, recent, root), IsShown())))
  {
    hide ProjectLeq, Share, Sort, Retain;
    forall s
      ensures multiset(Retain(ProjectMembers(env, recent, root), IsShown()))[s] ==
              Share(env, ByProject, recent, Project(root), s)
    {
      ProjectMembersCount(env, recent, root, s);
    }
    ProjectOrderIsTotal();
    SortSorts(ProjectLeq, Retain(recent, InGroup(env, ByProject, Project(root))));
    RetainSorts(ProjectLeq, ProjectMembers(env, recent, root), IsShown());
  }

  lemma ProjectOrderIsTotal()
    ensures TotalPreorder(ProjectLeq)
  {
  }

  predicate Distinct<T(==)>(s: seq<T>) {
    forall i, j :: 0 <= i < j < |s| ==> s[i] != s[j]
  }

  lemma {:induction false} RootsAreTheRoots(env: Env, recent: seq<Session>)
    ensures Distinct(RootsOf(env, recent))
    ensures forall root :: root in RootsOf(env, recent) <==> exists s :: s in recent && env.projectRoot(s.cwd) == root
  {
    if recent != [] {
      var init, last := recent[..|recent| - 1], recent[|recent| - 1];
      RootsAreTheRoots(env, init);
      assert recent == init + [last];
      forall root ensures root in RootsOf(env, recent) <==> exists s :: s in recent && env.projectRoot(s.cwd) == root {
        assert root == env.projectRoot(last.cwd) ==> last in recent;
      }
    }
  }

  /** A sequence without repetition stays so when it is rearranged. */
  lemma DistinctByCounts<T>(a: seq<T>, b: seq<T>)
    requires multiset(a) == multiset(b) && Distinct(a)
    ensures Distinct(b)
  {
    forall i, j | 0 <= i < j < |b| ensures b[i] != b[j] {
      if b[i] == b[j] {
        assert b == b[..i] + [b[i]] + b[i + 1..j] + [b[j]] + b[j + 1..];
        assert multiset(b)[b[i]] >= 2;
        DistinctOnce(a, b[i]);
        assert false;
      }
    }
  }

  lemma {:induction false} DistinctOnce<T>(a: seq<T>, x: T)
    requires Distinct(a)
    ensures multiset(a)[x] <= 1
  {
    if a != [] {
      DistinctOnce(a[1..], x);
      assert a == [a[0]] + a[1..];
      assert a[0] !in a[1..];
    }
  }

  lemma {:induction false} ProjectGroupsAreRoots(env: Env, recent: seq<Session>, roots: seq<string>)
    ensures |ProjectGroups(env, recent, roots)| == |roots|
    ensures forall i :: 0 <= i < |roots| ==>
              ProjectGroups(env, recent, roots)[i] ==
              Group(Project(roots[i]), Retain(ProjectMembers(env, recent, roots[i]), IsShown()))
  {
    hide ProjectMembers, Retain;
    if roots != [] {
      ProjectGroupsAreRoots(env, recent, roots[..|roots| - 1]);
    }
  }

  // ---------------------------------------------------------------- all groups

  /** The sessions that belong under a header: included, not on hold, and with its key. */
  function Belonging(env: Env, view: View, sessions: seq<Session>, key: GroupKey): seq<Session> {
    Retain(sessions, (s: Session) => Included(env, view, s) && !IsHoldTitle(s.title) && KeyOf(env, view.mode, s) == key)
  }

  function MemberOrder(mode: GroupMode): (Session, Session) -> bool {
    if mode == ByState then StateLeq else ProjectLeq
  }

  lemma MembersBelong(env: Env, view: View, sessions: seq<Session>, g: Group)
    requires RightMembers(env, view.mode, Recent(env, view, sessions), g)
    ensures multiset(g.members) == multiset(Belonging(env, view, sessions, g.key))
    ensures SortedBy(MemberOrder(view.mode), g.members)
  {
    hide Included, IsHoldTitle, KeyOf, Recent, StateLeq, ProjectLeq;
    var belonging := Belonging(env, view, sessions, g.key);
    forall s ensures multiset(g.members)[s] == multiset(belonging)[s] {
      RecentCounts(env, view, sessions, s);
      RetainCounts(sessions, (s: Session) => Included(env, view, s) && !IsHoldTitle(s.title)
                                             && KeyOf(env, view.mode, s) == g.key, s);
    }
  }

  lemma GroupsAreRight(env: Env, view: View, sessions: seq<Session>, g: Group)
    requires g in Groups(env, view, sessions)
    ensures multiset(g.members) == multiset(Belonging(env, view, sessions, g.key))
    ensures SortedBy(MemberOrder(view.mode), g.members)
  {
    hide Belonging, StateMembers, ProjectMembers, Recent, RightMembers, Sort, Retain, StateGroups, ProjectGroups,
        RootsOf;
    var recent := Recent(env, view, sessions);
    if view.mode == ByState {
      StateGroupsAreSections(env, recent, SECTIONS);
      StateMembersAreRight(env, recent, g.key.section);
    } else {
      var roots := Sort(RootOrder(env), RootsOf(env, recent));
      ProjectGroupsAreRoots(env, recent, roots);
      var i :| 0 <= i < |roots| && ProjectGroups(env, recent, roots)[i] == g;
      ProjectMembersAreRight(env, recent, roots[i]);
    }
    MembersBelong(env, view, sessions, g);
  }

  /** Within a group the oldest session comes first. Sessions created together go by backend and id in a
      section, and under a project the one updated last comes first. */
  lemma MembersGoByAge(env: Env, view: View, sessions: seq<Session>, g: Group, i: nat, j: nat)
    requires g in Groups(env, view, sessions) && i < j < |g.members|
    ensures var a, b := g.members[i], g.members[j];
            && a.createdAtMs <= b.createdAtMs
            && (a.createdAtMs == b.createdAtMs && view.mode == ByProject ==> a.updatedAtMs >= b.updatedAtMs)
            && (a.createdAtMs == b.createdAtMs && view.mode == ByState ==>
                  && (a.backend == b.backend ==> TextLeq(a.id, b.id))
                  && (a.backend.Grok? ==> b.backend.Grok?) && (b.backend.Codex? ==> a.backend.Codex?))
  {
    hide Groups, Belonging;
    GroupsAreRight(env, view, sessions, g);
  }

  lemma {:induction false} RetainTwice<T>(s: seq<T>, p: T -> bool, q: T -> bool, both: T -> bool)
    requires forall x :: both(x) <==> p(x) && q(x)
    ensures Retain(Retain(s, p), q) == Retain(s, both)
  {
    if s != [] {
      RetainTwice(s[1..], p, q, both);
      RetainAppend([s[0]], s[1..], p);
      RetainAppend(Retain([s[0]], p), Retain(s[1..], p), q);
      assert s == [s[0]] + s[1..];
    }
  }

  /** Sessions that nothing in either order tells apart from `x`. */
  function TiedWith(mode: GroupMode, x: Session): Session -> bool {
    (y: Session) => MemberOrder(mode)(x, y) && MemberOrder(mode)(y, x) && y.updatedAtMs == x.updatedAtMs
  }

  lemma TiesAreTied(mode: GroupMode, x: Session)
    ensures AreTied(MemberOrder(mode), TiedWith(mode, x)) && AreTied(UpdatedLeq, TiedWith(mode, x))
  {
    StateOrderIsTotal();
    ProjectOrderIsTotal();
  }

  lemma RetainSwaps<T>(s: seq<T>, p: T -> bool, q: T -> bool)
    ensures Retain(Retain(s, p), q) == Retain(Retain(s, q), p)
  {
    RetainTwice(s, p, q, x => p(x) && q(x));
    RetainTwice(s, q, p, x => p(x) && q(x));
  }

  lemma RecentTies(env: Env, view: View, sessions: seq<Session>, tied: Session -> bool)
    requires AreTied(UpdatedLeq, tied)
    ensures Retain(Recent(env, view, sessions), tied) == Retain(Retain(sessions, IsIncluded(env, view)), tied)
  {
    SortIsStable(UpdatedLeq, Retain(sessions, IsIncluded(env, view)), tied);
  }

  lemma MemberTies(env: Env, mode: GroupMode, recent: seq<Session>, g: Group, tied: Session -> bool)
    requires AreTied(MemberOrder(mode), tied)
    requires g.members == if mode == ByState then
                            Sort(StateLeq, Retain(Retain(recent, IsShown()), InGroup(env, mode, g.key)))
                          else Retain(Sort(ProjectLeq, Retain(recent, InGroup(env, mode, g.key))), IsShown())
    ensures Retain(g.members, tied) == Retain(Retain(Retain(recent, tied), IsShown()), InGroup(env, mode, g.key))
  {
    hide Sort, Retain;
    var group := InGroup(env, mode, g.key);
    if mode == ByState {
      SortIsStable(StateLeq, Retain(Retain(recent, IsShown()), group), tied);
      RetainSwaps(Retain(recent, IsShown()), group, tied);
      RetainSwaps(recent, IsShown(), tied);
    } else {
      RetainSwaps(Sort(ProjectLeq, Retain(recent, group)), IsShown(), tied);
      SortIsStable(ProjectLeq, Retain(recent, group), tied);
      RetainSwaps(recent, group, tied);
      RetainSwaps(Retain(recent, tied), group, IsShown());
    }
  }

  lemma GroupForm(env: Env, view: View, sessions: seq<Session>, g: Group)
    requires g in Groups(env, view, sessions)
    ensures var recent := Recent(env, view, sessions);
            g.members == if view.mode == ByState then
                           Sort(StateLeq, Retain(Retain(recent, IsShown()), InGroup(env, view.mode, g.key)))
                         else Retain(Sort(ProjectLeq, Retain(recent, InGroup(env, view.mode, g.key))), IsShown())
  {
    hide Recent, Sort, Retain, StateGroups, ProjectGroups, RootsOf, InGroup;
    var recent := Recent(env, view, sessions);
    if view.mode == ByState {
      StateGroupsAreSections(env, recent, SECTIONS);
    } else {
      ProjectGroupsAreRoots(env, recent, Sort(RootOrder(env), RootsOf(env, recent)));
    }
  }

  /** The order is stable: sessions that tie stand in the order in which they were listed. */
  lemma TiesKeepTheirOrder(env: Env, view: View, sessions: seq<Session>, g: Group, x: Session)
    requires g in Groups(env, view, sessions)
    ensures Retain(g.members, TiedWith(view.mode, x)) ==
            Retain(Belonging(env, view, sessions, g.key), TiedWith(view.mode, x))
  {
    hide Recent, Sort, Retain, Groups, TiedWith, MemberOrder, Included, IsHoldTitle, KeyOf;
    var recent, tied, group := Recent(env, view, sessions), TiedWith(view.mode, x), InGroup(env, view.mode, g.key);
    var included := Retain(sessions, IsIncluded(env, view));
    TiesAreTied(view.mode, x);
    GroupForm(env, view, sessions, g);
    MemberTies(env, view.mode, recent, g, tied);
    RecentTies(env, view, sessions, tied);
    RetainSwaps(included, tied, IsShown());
    RetainSwaps(Retain(included, IsShown()), tied, group);
    RetainTwice(sessions, IsIncluded(env, view), IsShown(), s => Included(env, view, s) && !IsHoldTitle(s.title));
    RetainTwice(sessions, s => Included(env, view, s) && !IsHoldTitle(s.title), group,
                (s: Session) => Included(env, view, s) && !IsHoldTitle(s.title) && KeyOf(env, view.mode, s) == g.key);
  }

  function TiedInGroup(mode: GroupMode, x: Session): Session -> bool {
    (y: Session) => MemberOrder(mode)(x, y) && MemberOrder(mode)(y, x)
  }

  /** Entries for one and the same session in a section go by their last update. */
  lemma TiesGoByUpdate(env: Env, view: View, sessions: seq<Session>, g: Group, x: Session, i: nat, j: nat)
    requires g in Groups(env, view, sessions)
    requires var tied := Retain(g.members, TiedInGroup(view.mode, x)); i < j < |tied|
    ensures var tied := Retain(g.members, TiedInGroup(view.mode, x)); tied[i].updatedAtMs <= tied[j].updatedAtMs
  {
    hide Groups, Sort, Retain;
    var recent, tied := Recent(env, view, sessions), TiedInGroup(view.mode, x);
    StateOrderIsTotal();
    ProjectOrderIsTotal();
    GroupForm(env, view, sessions, g);
    MemberTies(env, view.mode, recent, g, tied);
    SortSorts(UpdatedLeq, Retain(sessions, IsIncluded(env, view)));
    RetainSorts(UpdatedLeq, recent, tied);
    RetainSorts(UpdatedLeq, Retain(recent, tied), IsShown());
    RetainSorts(UpdatedLeq, Retain(Retain(recent, tied), IsShown()), InGroup(env, view.mode, g.key));
  }

  /** Who is listed: unless on hold, every session that contains the filter in its title or directory, and
      a hidden or companion one only on request. */
  lemma ListedExactly(env: Env, view: View, sessions: seq<Session>, s: Session)
    ensures (exists g :: g in Groups(env, view, sessions) && s in g.members) <==>
              && s in sessions && !IsHoldTitle(s.title)
              && (s.hidden || s.companion ==> view.showAll || view.filter != "")
              && var needle := env.lower(view.filter);
                 needle == "" || Occurs(needle, env.lower(s.title)) || Occurs(needle, env.lower(s.cwd))
  {
    hide Groups, IsHoldTitle, Occurs, KeyOf, Belonging;
    var key := KeyOf(env, view.mode, s);
    var belongs := s in sessions && Included(env, view, s) && !IsHoldTitle(s.title);
    forall g | g in Groups(env, view, sessions)
      ensures s in g.members <==> belongs && g.key == key
    {
      GroupsAreRight(env, view, sessions, g);
      BelongsThere(env, view, sessions, g.key, s);
      assert s in g.members <==> s in multiset(g.members);
      assert s in Belonging(env, view, sessions, g.key) <==> s in multiset(Belonging(env, view, sessions, g.key));
    }
    HeadersThatExist(env, view, sessions, key);
  }

  lemma BelongsThere(env: Env, view: View, sessions: seq<Session>, key: GroupKey, s: Session)
    ensures s in Belonging(env, view, sessions, key) <==>
            s in sessions && Included(env, view, s) && !IsHoldTitle(s.title) && KeyOf(env, view.mode, s) == key
  {
    hide Included, IsHoldTitle, KeyOf;
    RetainMembers(sessions, (s: Session) => Included(env, view, s) && !IsHoldTitle(s.title)
                                            && KeyOf(env, view.mode, s) == key);
  }

  /** Under which header: its project's, or that of the section for its state. */
  lemma MembersBelongThere(env: Env, view: View, sessions: seq<Session>, g: Group, s: Session)
    requires g in Groups(env, view, sessions) && s in g.members
    ensures view.mode == ByProject ==> g.key == Project(env.projectRoot(s.cwd))
    ensures view.mode == ByState ==>
              match s.status
              case NeedsInput(_) => g.key == State(NeedsInputSection)
              case Working => g.key == State(WorkingSection)
              case Idle => g.key == State(IdleSection)
              case Unknown => g.key == State(IdleSection)
              case Done => g.key == State(DoneSection)
              case Error => g.key == State(DoneSection)
  {
    hide Groups, IsHoldTitle, Included, Belonging;
    GroupsAreRight(env, view, sessions, g);
    assert s in multiset(g.members);
    assert s in multiset(Belonging(env, view, sessions, g.key));
    BelongsThere(env, view, sessions, g.key, s);
  }

  /** `a` stands before `b`: sections in their fixed order, projects by path whatever the case. */
  predicate KeyBefore(env: Env, a: GroupKey, b: GroupKey) {
    a != b && match (a, b)
              case (State(x), State(y)) => Rank(x) < Rank(y)
              case (Project(x), Project(y)) =>
                TextLeq(env.lower(x), env.lower(y)) && (env.lower(x) == env.lower(y) ==> TextLeq(x, y))
              case _ => false
  }

  lemma GroupsAreOrdered(env: Env, view: View, sessions: seq<Session>)
    ensures var groups := Groups(env, view, sessions);
            forall i, j :: 0 <= i < j < |groups| ==> KeyBefore(env, groups[i].key, groups[j].key)
  {
    hide StateMembers, ProjectMembers, Recent, RootsOf, RootLeq, Retain, Sort;
    var recent := Recent(env, view, sessions);
    if view.mode == ByState {
      StateGroupsInOrder(env, recent, SECTIONS);
    } else {
      var roots := Sort(RootOrder(env), RootsOf(env, recent));
      ProjectGroupsAreRoots(env, recent, roots);
      RootsAreTheRoots(env, recent);
      RootOrderIsTotal(env);
      SortSorts(RootOrder(env), RootsOf(env, recent));
      SortKeeps(RootOrder(env), RootsOf(env, recent));
      DistinctByCounts(RootsOf(env, recent), roots);
      forall i, j | 0 <= i < j < |roots|
        ensures KeyBefore(env, Project(roots[i]), Project(roots[j]))
      {
        RootsByPath(env, roots[i], roots[j]);
      }
    }
  }

  lemma RootsByPath(env: Env, a: string, b: string)
    requires RootLeq(env, a, b)
    ensures TextLeq(env.lower(a), env.lower(b)) && (env.lower(a) == env.lower(b) ==> TextLeq(a, b))
  {
    TextTotal(env.lower(a), env.lower(a));
  }

  predicate HasGroup(groups: seq<Group>, key: GroupKey) {
    exists g :: g in groups && g.key == key
  }

  /** Which headers there are: a section with something to show, a project with anything included,
      if only sessions on hold. */
  lemma HeadersThatExist(env: Env, view: View, sessions: seq<Session>, key: GroupKey)
    ensures HasGroup(Groups(env, view, sessions), key) <==>
            exists s :: s in sessions && Included(env, view, s) && KeyOf(env, view.mode, s) == key
                        && (view.mode == ByState ==> !IsHoldTitle(s.title))
  {
    var recent := Recent(env, view, sessions);
    RecentMembers(env, view, sessions);
    if view.mode == ByState {
      StateHeaders(env, recent, key);
    } else {
      ProjectHeaders(env, recent, key);
    }
  }

  lemma StateHeaders(env: Env, recent: seq<Session>, key: GroupKey)
    ensures HasGroup(StateGroups(env, recent, SECTIONS), key) <==>
            exists s :: s in recent && KeyOf(env, ByState, s) == key && !IsHoldTitle(s.title)
  {
    hide StateMembers, Retain, IsHoldTitle, StateGroups;
    StateGroupsAreSections(env, recent, SECTIONS);
    if key.State? {
      var members := StateMembers(env, recent, key.section);
      forall s ensures s in members <==> s in recent && KeyOf(env, ByState, s) == key && !IsHoldTitle(s.title) {
        StateMembersCount(env, recent, key.section, s);
        assert s in members <==> s in multiset(members);
        assert s in recent <==> s in multiset(recent);
      }
      if members != [] {
        assert members[0] in members;
        assert Group(key, members) in StateGroups(env, recent, SECTIONS);
      }
    }
  }

  lemma ProjectHeaders(env: Env, recent: seq<Session>, key: GroupKey)
    ensures HasGroup(ProjectGroups(env, recent, Sort(RootOrder(env), RootsOf(env, recent))), key) <==>
            exists s :: s in recent && KeyOf(env, ByProject, s) == key
  {
    hide ProjectMembers, Retain, Sort, ProjectGroups, RootsOf;
    var roots := Sort(RootOrder(env), RootsOf(env, recent));
    var groups := ProjectGroups(env, recent, roots);
    ProjectGroupsAreRoots(env, recent, roots);
    RootsAreTheRoots(env, recent);
    SortKeeps(RootOrder(env), RootsOf(env, recent));
    if key.Project? && key.root in roots {
      var i :| 0 <= i < |roots| && roots[i] == key.root;
      assert groups[i] in groups;
    }
    if HasGroup(groups, key) {
      var i :| 0 <= i < |groups| && groups[i].key == key;
      assert roots[i] in roots;
    }
  }

  // ---------------------------------------------------------------- the rows

  /** A block with the right header, count and members in order, or no member if it is collapsed. */
  ghost predicate RightBlock(env: Env, view: View, activity: Session -> Option<string>, sessions: seq<Session>,
      collapsed: set<GroupKey>, block: Block)
  {
    exists key, members: seq<Session> ::
      && block.header == Header(key, |Belonging(env, view, sessions, key)|, key in collapsed)
      && block.rows == (if key in collapsed then [] else SessionRows(env, view.mode, activity, members))
      && multiset(members) == multiset(Belonging(env, view, sessions, key))
      && SortedBy(MemberOrder(view.mode), members)
  }

  /** The list reads back as right blocks in the order of their keys. */
  lemma ListIsRight(env: Env, view: View, activity: Session -> Option<string>, sessions: seq<Session>,
      collapsed: set<GroupKey>)
    ensures var blocks := Parse(Rows(env, view, activity, sessions, collapsed));
            && blocks.Some?
            && (forall b :: b in blocks.value ==> RightBlock(env, view, activity, sessions, collapsed, b))
            && forall i, j :: 0 <= i < j < |blocks.value| ==>
                 var a, b := HeaderKey(blocks.value[i].header), HeaderKey(blocks.value[j].header);
                 a.Some? && b.Some? && KeyBefore(env, a.value, b.value)
  {
    hide Groups, Render, Parse, Belonging, SessionRows, KeyBefore;
    var groups := Groups(env, view, sessions);
    RowsReadBack(env, view.mode, activity, groups, collapsed);
    GroupsAreOrdered(env, view, sessions);
    var blocks := BlocksOf(env, view.mode, activity, collapsed, groups);
    forall i | 0 <= i < |groups| ensures RightBlock(env, view, activity, sessions, collapsed, blocks[i]) {
      BlockIsRight(env, view, activity, sessions, collapsed, groups[i]);
    }
    assert forall i :: 0 <= i < |groups| ==> HeaderKey(blocks[i].header) == Some(groups[i].key);
  }

  lemma BlockIsRight(env: Env, view: View, activity: Session -> Option<string>, sessions: seq<Session>,
      collapsed: set<GroupKey>, g: Group)
    requires g in Groups(env, view, sessions)
    ensures RightBlock(env, view, activity, sessions, collapsed, BlockOf(env, view.mode, activity, collapsed, g))
  {
    hide Groups, Belonging, SessionRows, Header, MemberOrder;
    GroupsAreRight(env, view, sessions, g);
    assert |multiset(g.members)| == |multiset(Belonging(env, view, sessions, g.key))|;
  }

  function SessionsIn(rows: seq<Row>): seq<Session> {
    if rows == [] then []
    else
      var last := rows[|rows| - 1];
      SessionsIn(rows[..|rows| - 1]) + if last.SessionRow? then [last.session] else []
  }

  lemma {:induction false} SessionsInAppend(a: seq<Row>, b: seq<Row>)
    ensures SessionsIn(a + b) == SessionsIn(a) + SessionsIn(b)
  {
    if b == [] {
      assert a + b == a;
    } else {
      assert (a + b)[..|a + b| - 1] == a + b[..|b| - 1];
      SessionsInAppend(a, b[..|b| - 1]);
    }
  }

  lemma {:induction false} SessionsInSessions(env: Env, mode: GroupMode, activity: Session -> Option<string>,
      members: seq<Session>)
    ensures SessionsIn(SessionRows(env, mode, activity, members)) == members
  {
    if members != [] {
      var init := members[..|members| - 1];
      SessionsInSessions(env, mode, activity, init);
      var rows := SessionRows(env, mode, activity, members);
      assert rows[..|rows| - 1] == SessionRows(env, mode, activity, init);
    }
  }

  /** How often the open groups hold a session. */
  function OpenCount(groups: seq<Group>, collapsed: set<GroupKey>, s: Session): nat {
    if groups == [] then 0
    else
      var last := groups[|groups| - 1];
      OpenCount(groups[..|groups| - 1], collapsed, s) + if last.key in collapsed then 0 else multiset(last.members)[s]
  }

  lemma {:induction false} ShownByGroups(env: Env, mode: GroupMode, activity: Session -> Option<string>,
      groups: seq<Group>, collapsed: set<GroupKey>, s: Session)
    ensures multiset(SessionsIn(Render(env, mode, activity, groups, collapsed)))[s] == OpenCount(groups, collapsed, s)
  {
    hide GroupRows, SessionsIn, Render;
    if groups == [] {
      NothingShown(env, mode, activity, collapsed);
    } else {
      var init, last := groups[..|groups| - 1], groups[|groups| - 1];
      ShownByGroups(env, mode, activity, init, collapsed, s);
      assert groups == init + [last];
      OneGroupShown(env, mode, activity, init, last, collapsed);
      CountsAdd(SessionsIn(Render(env, mode, activity, init, collapsed)),
                if last.key in collapsed then [] else last.members, s);
    }
  }

  lemma NothingShown(env: Env, mode: GroupMode, activity: Session -> Option<string>, collapsed: set<GroupKey>)
    ensures SessionsIn(Render(env, mode, activity, [], collapsed)) == []
  {
  }

  lemma {:induction false} CountedOnce(groups: seq<Group>, collapsed: set<GroupKey>, s: Session, key: GroupKey,
      count: nat)
    requires forall i, j :: 0 <= i < j < |groups| ==> groups[i].key != groups[j].key
    requires forall i :: 0 <= i < |groups|
                 ==> multiset(groups[i].members)[s] == if groups[i].key == key then count else 0
    ensures OpenCount(groups, collapsed, s) == if HasGroup(groups, key) && key !in collapsed then count else 0
  {
    if groups != [] {
      hide HasGroup;
      var init, last := groups[..|groups| - 1], groups[|groups| - 1];
      CountedOnce(init, collapsed, s, key, count);
      assert groups == init + [last];
      OneMoreHasGroup(init, last, key);
    }
  }

  lemma CountsAdd<T>(a: seq<T>, b: seq<T>, x: T)
    ensures multiset(a + b)[x] == multiset(a)[x] + multiset(b)[x]
  {
  }

  lemma OneMoreHasGroup(init: seq<Group>, last: Group, key: GroupKey)
    ensures HasGroup(init + [last], key) <==> HasGroup(init, key) || last.key == key
    ensures (forall i :: 0 <= i < |init| ==> init[i].key != last.key) && last.key == key ==> !HasGroup(init, key)
  {
  }

  lemma OneGroupShown(env: Env, mode: GroupMode, activity: Session -> Option<string>, init: seq<Group>, last: Group,
      collapsed: set<GroupKey>)
    ensures SessionsIn(Render(env, mode, activity, init + [last], collapsed)) ==
            SessionsIn(Render(env, mode, activity, init, collapsed))
            + if last.key in collapsed then [] else last.members
  {
    hide Render, SessionRows;
    RenderOneMore(env, mode, activity, init, last, collapsed);
    var rows := Render(env, mode, activity, init, collapsed);
    var block := BlockOf(env, mode, activity, collapsed, last);
    var above := if rows == [] then [block.header] else rows + [Spacer] + [block.header];
    SessionsInAppend(above, block.rows);
    if rows != [] {
      SessionsInAppend(rows + [Spacer], [block.header]);
      SessionsInAppend(rows, [Spacer]);
    }
    SessionsInSessions(env, mode, activity, last.members);
  }

  /** Each session to be shown stands in the list exactly as often as it was listed, unless its
      group is collapsed; sessions on hold and excluded ones never do. */
  lemma RowsPartitionSessions(env: Env, view: View, activity: Session -> Option<string>, sessions: seq<Session>,
      collapsed: set<GroupKey>, s: Session)
    ensures multiset(SessionsIn(Rows(env, view, activity, sessions, collapsed)))[s] ==
            if Included(env, view, s) && !IsHoldTitle(s.title) && KeyOf(env, view.mode, s) !in collapsed
            then multiset(sessions)[s] else 0
  {
    hide Included, IsHoldTitle, KeyOf, Groups, Render, SessionsIn, Rank, RootLeq;
    var groups, key := Groups(env, view, sessions), KeyOf(env, view.mode, s);
    var shown := Included(env, view, s) && !IsHoldTitle(s.title);
    var count := if shown then multiset(sessions)[s] else 0;
    GroupsAreOrdered(env, view, sessions);
    forall g | g in groups ensures multiset(g.members)[s] == if g.key == key then count else 0 {
      GroupsAreRight(env, view, sessions, g);
      RetainCounts(sessions, (s: Session) => Included(env, view, s) && !IsHoldTitle(s.title)
                                             && KeyOf(env, view.mode, s) == g.key, s);
    }
    ShownByGroups(env, view.mode, activity, groups, collapsed, s);
    CountedOnce(groups, collapsed, s, key, count);
    HeadersThatExist(env, view, sessions, key);
    assert s in sessions <==> s in multiset(sessions);
  }

  /** Collapsing a group changes nothing but its own block, and there hides just the rows. */
  lemma CollapseIsLocal(env: Env, view: View, activity: Session -> Option<string>, sessions: seq<Session>,
      collapsed: set<GroupKey>, key: GroupKey)
    ensures var open := Parse(Rows(env, view, activity, sessions, collapsed - {key}));
            var folded := Parse(Rows(env, view, activity, sessions, collapsed + {key}));
            && open.Some? && folded.Some? && |open.value| == |folded.value|
            && forall i :: 0 <= i < |open.value| ==>
                 && HeaderKey(open.value[i].header) == HeaderKey(folded.value[i].header)
                 && if HeaderKey(open.value[i].header) != Some(key) then open.value[i] == folded.value[i]
                    else folded.value[i].rows == []
                         && folded.value[i].header == open.value[i].header.(collapsed := true)
  {
    hide Groups, Render, Parse, SessionRows;
    RowsReadBack(env, view.mode, activity, Groups(env, view, sessions), collapsed - {key});
    RowsReadBack(env, view.mode, activity, Groups(env, view, sessions), collapsed + {key});
  }
}
