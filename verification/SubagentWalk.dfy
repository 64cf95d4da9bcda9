/** Gathering the activity of everything a Claude agent has spawned, directly or not. */
module SubagentWalk {
  import opened Basics

  type AgentId = string

  /** What a transcript's metadata file says; an empty parent counts as no metadata. */
  datatype Meta = Meta(spawnDepth: nat, parent: AgentId)

  /** One `.jsonl` file of the directory: its name without the extension, its metadata if that can
      be read, and the turns in its window if the file can be read. */
  datatype Transcript = Transcript(stem: string, meta: Option<Meta>, activity: Option<seq<int>>)
  {
    function Id(): Option<AgentId> {
      if "agent-" < stem then Some(stem[|"agent-"|..]) else None
    }

    /** Whether `parent` names this file's owner as its child. */
    predicate ChildOf(parent: AgentId) {
      Id().Some? && meta.Some? && meta.value.spawnDepth >= 2 && meta.value.parent == parent
    }
  }

  /** File names in a directory are distinct. */
  predicate IsDirectory(files: seq<Transcript>) {
    forall i, j :: 0 <= i < j < |files| ==> files[i].stem != files[j].stem
  }

  lemma IdsAreDistinct(files: seq<Transcript>, a: Transcript, b: Transcript)
    requires IsDirectory(files) && a in files && b in files
    requires a.Id().Some? && a.Id() == b.Id()
    ensures a == b
  {
    assert a.stem == "agent-" + a.Id().value;
    assert b.stem == "agent-" + b.Id().value;
  }

  function Ids(files: seq<Transcript>): set<AgentId> {
    set f | f in files && f.Id().Some? :: f.Id().value
  }

  // ---------------------------------------------------------------- descent, by chains

  /** Parent links from `start` down to `chain`'s last file. */
  ghost predicate IsChain(files: seq<Transcript>, start: AgentId, chain: seq<Transcript>) {
    && chain != []
    && (forall i :: 0 <= i < |chain| ==> chain[i] in files && chain[i].Id().Some?)
    && chain[0].ChildOf(start)
    && forall i :: 0 < i < |chain| ==> chain[i].ChildOf(chain[i - 1].Id().value)
  }

  ghost predicate Descends(files: seq<Transcript>, start: AgentId, file: Transcript) {
    exists chain :: IsChain(files, start, chain) && chain[|chain| - 1] == file
  }

  lemma ChildOfStart(files: seq<Transcript>, start: AgentId, child: Transcript)
    requires child in files && child.ChildOf(start)
    ensures Descends(files, start, child)
  {
    assert IsChain(files, start, [child]);
  }

  /** A set of agents that has `start` and every child of a member has every descendant of `start`. */
  lemma {:induction false} ClosedHoldsChain(files: seq<Transcript>, start: AgentId, closed: set<AgentId>,
      chain: seq<Transcript>)
    requires start in closed && IsChain(files, start, chain)
    requires forall f :: f in files && f.Id().Some?
                 ==> forall p :: p in closed && f.ChildOf(p) ==> f.Id().value in closed
    ensures chain[|chain| - 1].Id().value in closed
  {
    if |chain| > 1 {
      ClosedHoldsChain(files, start, closed, chain[..|chain| - 1]);
    }
  }

  lemma ChildDescends(files: seq<Transcript>, start: AgentId, parent: Transcript, child: Transcript)
    requires child in files && parent.Id().Some? && child.ChildOf(parent.Id().value)
    requires Descends(files, start, parent)
    ensures Descends(files, start, child)
  {
    var chain :| IsChain(files, start, chain) && chain[|chain| - 1] == parent;
    var longer := chain + [child];
    assert IsChain(files, start, longer);
  }

  // ---------------------------------------------------------------- the children table

  function Children(files: seq<Transcript>, parent: AgentId): seq<Transcript> {
    if files == [] then []
    else
      var init, last := files[..|files| - 1], files[|files| - 1];
      Children(init, parent) + if last.ChildOf(parent) then [last] else []
  }

  lemma {:induction false} ChildrenAreChildren(files: seq<Transcript>, parent: AgentId)
    ensures forall f :: f in Children(files, parent) <==> f in files && f.ChildOf(parent)
    ensures forall f :: f in Children(files, parent) ==> f.Id().Some?
  {
    if files != [] {
      ChildrenAreChildren(files[..|files| - 1], parent);
      assert files == files[..|files| - 1] + [files[|files| - 1]];
    }
  }

  method BuildChildren(files: seq<Transcript>) returns (children: map<AgentId, seq<Transcript>>)
    ensures forall p :: (if p in children then children[p] else []) == Children(files, p)
  {
    hide Transcript.Id;
    children := map[];
    for i := 0 to |files|
      invariant forall p :: (if p in children then children[p] else []) == Children(files[..i], p)
    {
      var file := files[i];
      assert files[..i + 1][..i] == files[..i];
      if file.Id().Some? && file.meta.Some? && file.meta.value.spawnDepth >= 2 {
        var parent := file.meta.value.parent;
        children := children[parent := (if parent in children then children[parent] else []) + [file]];
      }
    }
    assert files[..|files|] == files;
  }

  // ---------------------------------------------------------------- the walk

  /** The turns of the listed files, one file after another; a file that cannot be read adds none. */
  function Activity(order: seq<Transcript>): seq<int> {
    if order == [] then []
    else
      var last := order[|order| - 1].activity;
      Activity(order[..|order| - 1]) + if last.Some? then last.value else []
  }

  /** The turns of a list are those of its parts, and those of one file are its own. */
  lemma {:induction false} ActivityAdds(first: seq<Transcript>, second: seq<Transcript>)
    ensures Activity(first + second) == Activity(first) + Activity(second)
    ensures |second| == 1 ==> Activity(second) == if second[0].activity.Some? then second[0].activity.value else []
  {
    if second == [] {
      assert first + second == first;
    } else {
      var init, last := second[..|second| - 1], second[|second| - 1];
      ActivityAdds(first, init);
      assert (first + second)[..|first + second| - 1] == first + init;
      AddAssociates(Activity(first), Activity(init), if last.activity.Some? then last.activity.value else []);
    }
  }

  /** The files of `order` descend from `start`, each has its own id, none is `start`, and `visited`
      holds just these ids and `start`. */
  ghost predicate Visits(files: seq<Transcript>, start: AgentId, order: seq<Transcript>, visited: set<AgentId>) {
    && (forall f :: f in order ==> f in files && f.Id().Some? && f.Id() != Some(start) && Descends(files, start, f))
    && (forall i, j :: 0 <= i < j < |order| ==> order[i].Id() != order[j].Id())
    && visited == Ids(order) + {start}
  }

  /** The children of every visited agent outside `pending` have been visited. */
  ghost predicate Explored(files: seq<Transcript>, visited: set<AgentId>, pending: seq<AgentId>) {
    forall p, f :: p in visited && p !in pending && f in files && f.ChildOf(p) ==> f.Id().value in visited
  }

  lemma DescendsByVisit(files: seq<Transcript>, start: AgentId, order: seq<Transcript>, visited: set<AgentId>,
      parent: AgentId, child: Transcript)
    requires Visits(files, start, order, visited)
    requires parent in visited && child in files && child.ChildOf(parent)
    ensures Descends(files, start, child)
  {
    hide Descends;
    if parent == start {
      ChildOfStart(files, start, child);
    } else {
      var file :| file in order && file.Id() == Some(parent);
      ChildDescends(files, start, file, child);
    }
  }

  lemma IdIsThere(files: seq<Transcript>, file: Transcript)
    requires file in files && file.Id().Some?
    ensures file.Id().value in Ids(files)
  {
  }

  lemma IdsOfOneMore(files: seq<Transcript>, last: Transcript)
    requires last.Id().Some?
    ensures Ids(files + [last]) == Ids(files) + {last.Id().value}
  {
  }

  lemma VisitOne(files: seq<Transcript>, start: AgentId, order: seq<Transcript>, visited: set<AgentId>,
      parent: AgentId, child: Transcript)
    requires Visits(files, start, order, visited)
    requires parent in visited && child in files && child.ChildOf(parent) && child.Id().Some?
             && child.Id().value !in visited
    ensures Visits(files, start, order + [child], visited + {child.Id().value})
  {
    hide Descends, Transcript.Id, Transcript.ChildOf, Ids;
    DescendsByVisit(files, start, order, visited, parent, child);
    IdsOfOneMore(order, child);
    var id, longer := child.Id(), order + [child];
    assert forall f :: f in longer <==> f in order || f == child;
    forall i | 0 <= i < |order| ensures order[i].Id() != id {
      assert order[i] in order;
      IdIsThere(order, order[i]);
    }
  }

  lemma VisitsAreDistinct(files: seq<Transcript>, start: AgentId, order: seq<Transcript>, visited: set<AgentId>)
    requires Visits(files, start, order, visited)
    ensures forall i, j :: 0 <= i < j < |order| ==> order[i] != order[j]
    ensures visited <= Ids(files) + {start}
    ensures forall f :: f in order ==> f in files && f.Id() != Some(start) && Descends(files, start, f)
  {
  }

  lemma WalkIsComplete(files: seq<Transcript>, start: AgentId, order: seq<Transcript>, visited: set<AgentId>,
      file: Transcript)
    requires IsDirectory(files)
    requires Visits(files, start, order, visited) && Explored(files, visited, [])
    requires file.Id() != Some(start) && Descends(files, start, file)
    ensures file in order
  {
    var chain :| IsChain(files, start, chain) && chain[|chain| - 1] == file;
    ClosedHoldsChain(files, start, visited, chain);
    var same :| same in order && same.Id() == file.Id();
    IdsAreDistinct(files, same, file);
  }

  /** Once the children of the agent taken off the list are visited, everything outside the list is explored. */
  lemma ParentIsExplored(files: seq<Transcript>, before: set<AgentId>, after: set<AgentId>, parent: AgentId,
      pending0: seq<AgentId>, pending: seq<AgentId>, descendants: seq<Transcript>)
    requires before <= after && Explored(files, before, pending0)
    requires forall p :: p in pending0 && p != parent ==> p in pending
    requires forall p :: p in after && p !in before ==> p in pending
    requires forall f :: f in files && f.ChildOf(parent) ==> f in descendants
    requires forall c :: 0 <= c < |descendants| ==> descendants[c].Id().Some? && descendants[c].Id().value in after
    ensures Explored(files, after, pending)
  {
  }

  lemma ActivityOfOneMore(timestamps: seq<int>, order: seq<Transcript>, last: Transcript)
    ensures timestamps + Activity(order + [last]) ==
            timestamps + Activity(order) + if last.activity.Some? then last.activity.value else []
  {
  }

  lemma StartVisits(files: seq<Transcript>, start: AgentId)
    ensures Visits(files, start, [], {start}) && Explored(files, {start}, [start])
    ensures Activity([]) == []
  {
  }

  /** Every file that descends from `start` once, no other file, and never `start` itself. */
  ghost predicate IsDescent(files: seq<Transcript>, start: AgentId, order: seq<Transcript>) {
    && (forall i, j :: 0 <= i < j < |order| ==> order[i] != order[j])
    && forall f :: f in order <==> f in files && f.Id() != Some(start) && Descends(files, start, f)
  }

  lemma WalkIsDescent(files: seq<Transcript>, start: AgentId, order: seq<Transcript>, visited: set<AgentId>)
    requires IsDirectory(files)
    requires Visits(files, start, order, visited) && Explored(files, visited, [])
    ensures IsDescent(files, start, order)
  {
    hide Visits, Explored, Descends, Transcript.Id;
    VisitsAreDistinct(files, start, order, visited);
    forall f: Transcript | f in files && f.Id() != Some(start) && Descends(files, start, f) ensures f in order {
      WalkIsComplete(files, start, order, visited, f);
    }
  }

  /** Depth first from `start`, whatever cycles the parent links form. Every file that descends from
      `start` adds its turns exactly once, no other file does, and `start` itself never does. */
  method WalkDescendants(files: seq<Transcript>, start: AgentId, timestamps: seq<int>)
    returns (extended: seq<int>)
    requires IsDirectory(files)
    ensures exists order :: IsDescent(files, start, order) && extended == timestamps + Activity(order)
  {
    hide *;
    var children := BuildChildren(files);
    var pending, visited := [start], {start};
    extended := timestamps;
    ghost var order: seq<Transcript> := [];
    StartVisits(files, start);
    while pending != []
      invariant Visits(files, start, order, visited)
      invariant forall p :: p in pending ==> p in visited
      invariant Explored(files, visited, pending)
      invariant extended == timestamps + Activity(order)
      decreases Ids(files) + {start} - visited, |pending|
    {
      ghost var pending0 := pending;
      var parent := pending[|pending| - 1];
      var descendants := if parent in children then children[parent] else [];
      ChildrenAreChildren(files, parent);
      pending := pending[..|pending| - 1];
      ghost var before := visited;
      for k := 0 to |descendants|
        invariant Visits(files, start, order, visited)
        invariant before <= visited && (visited == before ==> |pending| == |pending0| - 1)
        invariant forall p :: p in pending ==> p in visited
        invariant forall p :: p in pending0 && p != parent ==> p in pending
        invariant forall p :: p in visited && p !in before ==> p in pending
        invariant forall c :: 0 <= c < k ==> descendants[c].Id().value in visited
        invariant extended == timestamps + Activity(order)
      {
        var child := descendants[k];
        assert child in descendants;
        var childId := child.Id().value;
        if childId !in visited {
          VisitOne(files, start, order, visited, parent, child);
          visited := visited + {childId};
          if child.activity.Some? {
            extended := extended + child.activity.value;
          }
          ActivityOfOneMore(timestamps, order, child);
          order := order + [child];
          pending := pending + [childId];
        }
      }
      VisitsAreDistinct(files, start, order, visited);
      ParentIsExplored(files, before, visited, parent, pending0, pending, descendants);
    }
    WalkIsDescent(files, start, order, visited);
  }

  /** For a main session every transcript beside it counts; for a subagent only its descendants. */
  method ExtendDescendantActivity(files: seq<Transcript>, agent: Option<AgentId>, timestamps: seq<int>)
    returns (extended: seq<int>)
    requires IsDirectory(files)
    ensures agent.None? ==> extended == timestamps + Activity(files)
    ensures agent.Some? ==>
              exists order :: IsDescent(files, agent.value, order) && extended == timestamps + Activity(order)
  {
    hide *;
    if agent.Some? {
      extended := WalkDescendants(files, agent.value, timestamps);
      return;
    }
    extended := timestamps;
    StartVisits(files, "");
    for i := 0 to |files|
      invariant extended == timestamps + Activity(files[..i])
    {
      if files[i].activity.Some? {
        extended := extended + files[i].activity.value;
      }
      ActivityOfOneMore(timestamps, files[..i], files[i]);
      assert files[..i] + [files[i]] == files[..i + 1];
    }
    assert files[..|files|] == files;
  }
}
