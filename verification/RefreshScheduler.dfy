/** The branch-PR refresh scheduler: each pass runs at most one command, alternating between kinds
    and taking the key whose last attempt is oldest. */
module RefreshSchedulers {
  import opened Basics
  import opened Ordering
  import opened RefreshTables

  const PRUNE_INTERVAL_MS: i64 := 60_000

  datatype Kind = IdentityKind | RepositoryKind

  /** What a pass ran: `git rev-parse` in a directory, or `gh pr list` in a repository's root. */
  datatype Command = RevParse(cwd: string) | PrList(commonDir: string, root: string)

  // ---------------------------------------------------------------- what counts as an identity

  predicate IsControl(c: char) {
    c < ' ' || '\U{7f}' <= c <= '\U{9f}'
  }

  predicate SafeText(s: string) {
    forall c :: c in s ==> !IsControl(c)
  }

  predicate ValidAbsolutePath(s: string) {
    s != "" && SafeText(s) && s[0] == '/'
  }

  datatype ValidIdentity = ValidIdentity(root: string, branch: Option<string>, commonDir: string)

  function Validated(row: Row<Identity>): Option<ValidIdentity> {
    if row.success <= 0 || row.data.root.None? || row.data.commonDir.None? then None
    else if !ValidAbsolutePath(row.data.root.value) || !ValidAbsolutePath(row.data.commonDir.value) then None
    else
      match row.data.branch
      case None => Some(ValidIdentity(row.data.root.value, None, row.data.commonDir.value))
      case Some(branch) =>
        if branch != "" && SafeText(branch) && branch != "HEAD"
        then Some(ValidIdentity(row.data.root.value, Some(branch), row.data.commonDir.value)) else None
  }

  /** The three lines of `git rev-parse`: top level, branch and common directory. */
  function ParseIdentity(lines: seq<string>): Option<Identity> {
    if |lines| != 3 || !ValidAbsolutePath(lines[0]) || !ValidAbsolutePath(lines[2]) || !SafeText(lines[1]) then None
    else
      var branch := if lines[1] != "" && lines[1] != "HEAD" then Some(lines[1]) else None;
      Some(Identity(Some(lines[0]), branch, Some(lines[2])))
  }

  /** What the parser lets through, the cache will accept again. */
  lemma ParsedIdentityIsValid(lines: seq<string>, success: i64, attempt: i64, busyUntil: i64)
    requires ParseIdentity(lines).Some? && success > 0
    ensures Validated(Row(ParseIdentity(lines).value, success, attempt, busyUntil))
            == Some(ValidIdentity(lines[0], ParseIdentity(lines).value.branch, lines[2]))
  {
  }

  /** Parsing loses nothing but how git names a missing branch. */
  lemma ParsedIdentityReadsBack(lines: seq<string>)
    ensures ParseIdentity(lines).Some? ==>
              var identity := ParseIdentity(lines).value;
              && |lines| == 3 && identity.root == Some(lines[0]) && identity.commonDir == Some(lines[2])
              && (if identity.branch.Some? then lines[1] == identity.branch.value else lines[1] in ["", "HEAD"])
  {
  }

  /** The cache's checks and the parser's are written apart. A row is believed exactly if it has
      succeeded and some answer parses to what it holds. */
  lemma ValidIffParsable(row: Row<Identity>)
    ensures Validated(row).Some? <==> row.success > 0 && exists lines :: ParseIdentity(lines) == Some(row.data)
    ensures Validated(row).Some? ==>
              (Some(Validated(row).value.root), Validated(row).value.branch, Some(Validated(row).value.commonDir))
              == (row.data.root, row.data.branch, row.data.commonDir)
  {
    if Validated(row).Some? {
      var identity := row.data;
      var lines := [identity.root.value, if identity.branch.Some? then identity.branch.value else "",
                    identity.commonDir.value];
      assert ParseIdentity(lines) == Some(row.data);
    }
  }

  // ---------------------------------------------------------------- candidates

  datatype Candidate = Candidate(attempt: i64, key: string)

  predicate CandidateLeq(a: Candidate, b: Candidate) {
    a.attempt < b.attempt || (a.attempt == b.attempt && TextLeq(a.key, b.key))
  }

  lemma CandidatesOrdered()
    ensures TotalPreorder(CandidateLeq)
    ensures forall a, b :: CandidateLeq(a, b) && CandidateLeq(b, a) ==> a == b
  {
    forall a, b
      ensures CandidateLeq(a, b) || CandidateLeq(b, a)
      ensures CandidateLeq(a, b) && CandidateLeq(b, a) ==> a == b
    {
      TextTotal(a.key, b.key);
    }
    forall a, b, c | CandidateLeq(a, b) && CandidateLeq(b, c)
      ensures CandidateLeq(a, c)
    {
      if a.attempt == b.attempt == c.attempt { TextTransitive(a.key, b.key, c.key); }
    }
  }

  function AttemptOf<P>(t: Table<P>, key: string): i64 {
    if key in t then t[key].attempt else 0
  }

  predicate IsDue<P>(t: Table<P>, key: string, now: i64) {
    key !in t || RowIsDue(t[key], now)
  }

  function DueKeys<P>(keys: seq<string>, t: Table<P>, now: i64): seq<Candidate> {
    if keys == [] then []
    else (if IsDue(t, keys[0], now) then [Candidate(AttemptOf(t, keys[0]), keys[0])] else [])
         + DueKeys(keys[1..], t, now)
  }

  function Candidates<P>(keys: seq<string>, t: Table<P>, now: i64): seq<Candidate> {
    Sort(CandidateLeq, DueKeys(keys, t, now))
  }

  lemma {:induction false} DueKeysExact<P>(keys: seq<string>, t: Table<P>, now: i64, c: Candidate)
    ensures c in DueKeys(keys, t, now) <==> c.key in keys && IsDue(t, c.key, now) && c.attempt == AttemptOf(t, c.key)
  {
    if keys != [] { DueKeysExact(keys[1..], t, now, c); }
  }

  /** The first candidate is a due key that was attempted longest ago, by name among equals; and
      there is one whenever any key is due. */
  lemma FirstCandidate<P>(keys: seq<string>, t: Table<P>, now: i64)
    ensures Candidates(keys, t, now) != [] <==> exists key :: key in keys && IsDue(t, key, now)
    ensures Candidates(keys, t, now) != [] ==>
              var first := Candidates(keys, t, now)[0];
              && first.key in keys && IsDue(t, first.key, now) && first.attempt == AttemptOf(t, first.key)
              && forall key :: key in keys && IsDue(t, key, now)
                     ==> CandidateLeq(first, Candidate(AttemptOf(t, key), key))
  {
    var due, sorted := DueKeys(keys, t, now), Candidates(keys, t, now);
    CandidatesOrdered();
    SortKeeps(CandidateLeq, due);
    SortSorts(CandidateLeq, due);
    forall c
      ensures c in sorted <==> c.key in keys && IsDue(t, c.key, now) && c.attempt == AttemptOf(t, c.key)
    {
      DueKeysExact(keys, t, now, c);
    }
    forall key | key in keys && IsDue(t, key, now)
      ensures sorted != [] && CandidateLeq(sorted[0], Candidate(AttemptOf(t, key), key))
    {
      assert Candidate(AttemptOf(t, key), key) in sorted;
    }
    if sorted != [] { assert sorted[0] in sorted; }
  }

  // ---------------------------------------------------------------- repositories and their roots

  /** The checkouts of `dir` with a branch, among the directories listed. */
  predicate Roots(cwds: seq<string>, identities: Table<Identity>, dir: string, root: string) {
    exists cwd :: cwd in cwds && cwd in identities
                  && Validated(identities[cwd]).Some? && Validated(identities[cwd]).value.branch.Some?
                  && Validated(identities[cwd]).value.commonDir == dir && Validated(identities[cwd]).value.root == root
  }

  function RootsFrom(cwds: seq<string>, identities: Table<Identity>): map<string, string> {
    if cwds == [] then map[]
    else
      var cwd := cwds[|cwds| - 1];
      AddRoot(RootsFrom(cwds[..|cwds| - 1], identities), if cwd in identities then Validated(identities[cwd]) else None)
  }

  function AddRoot(roots: map<string, string>, identity: Option<ValidIdentity>): map<string, string> {
    if identity.None? || identity.value.branch.None? then roots
    else
      var dir, root := identity.value.commonDir, identity.value.root;
      if dir in roots && !(root != roots[dir] && TextLeq(root, roots[dir])) then roots else roots[dir := root]
  }

  /** A repository is listed exactly if some checkout with a branch names it, under the least root,
      whatever order the checkouts come in. */
  lemma {:induction false} RootsAreLeast(cwds: seq<string>, identities: Table<Identity>, dir: string)
    ensures dir in RootsFrom(cwds, identities) <==> exists root :: Roots(cwds, identities, dir, root)
    ensures dir in RootsFrom(cwds, identities) ==>
              && Roots(cwds, identities, dir, RootsFrom(cwds, identities)[dir])
              && forall root :: Roots(cwds, identities, dir, root) ==> TextLeq(RootsFrom(cwds, identities)[dir], root)
  {
    if cwds != [] {
      var front, cwd := cwds[..|cwds| - 1], cwds[|cwds| - 1];
      RootsAreLeast(front, identities, dir);
      assert cwds == front + [cwd];
      var before, roots := RootsFrom(front, identities), RootsFrom(cwds, identities);
      var named := cwd in identities && Validated(identities[cwd]).Some?
          && Validated(identities[cwd]).value.branch.Some?
                   && Validated(identities[cwd]).value.commonDir == dir;
      forall root
        ensures Roots(cwds, identities, dir, root) <==>
                Roots(front, identities, dir, root) || (named && Validated(identities[cwd]).value.root == root)
      {
        if Roots(cwds, identities, dir, root) {
          var c :| c in cwds && c in identities && Validated(identities[c]).Some?
              && Validated(identities[c]).value.branch.Some?
                   && Validated(identities[c]).value.commonDir == dir && Validated(identities[c]).value.root == root;
          if c != cwd { assert c in front; }
        }
      }
      if named {
        var root := Validated(identities[cwd]).value.root;
        assert Roots(cwds, identities, dir, root);
        TextTotal(root, root);
        if dir in before { TextTotal(root, before[dir]); }
        forall other | Roots(cwds, identities, dir, other)
          ensures TextLeq(roots[dir], other)
        {
          if Roots(front, identities, dir, other) { TextTransitive(roots[dir], before[dir], other); }
        }
      } else {
        assert dir in roots <==> dir in before;
        assert dir in roots ==> roots[dir] == before[dir];
      }
    }
  }

  method RepositoryRoots(cwds: seq<string>, identities: Table<Identity>) returns (roots: map<string, string>)
    ensures roots == RootsFrom(cwds, identities)
  {
    roots := map[];
    for i := 0 to |cwds|
      invariant roots == RootsFrom(cwds[..i], identities)
    {
      assert cwds[..i + 1][..i] == cwds[..i];
      var cwd := cwds[i];
      if cwd in identities {
        var identity := Validated(identities[cwd]);
        if identity.Some? && identity.value.branch.Some? {
          var dir, root := identity.value.commonDir, identity.value.root;
          if dir !in roots {
            roots := roots[dir := root];
          } else if root != roots[dir] && TextLeq(root, roots[dir]) {
            roots := roots[dir := root];
          }
        }
      }
    }
    assert cwds[..|cwds|] == cwds;
  }

  /** The keys of the root map, each once. */
  function DirsOf(cwds: seq<string>, identities: Table<Identity>): seq<string> {
    if cwds == [] then []
    else
      var front, cwd := DirsOf(cwds[..|cwds| - 1], identities), cwds[|cwds| - 1];
      var identity := if cwd in identities then Validated(identities[cwd]) else None;
      if identity.None? || identity.value.branch.None? || identity.value.commonDir in front then front
      else front + [identity.value.commonDir]
  }

  lemma {:induction false} DirsAreRootKeys(cwds: seq<string>, identities: Table<Identity>)
    ensures forall dir :: dir in DirsOf(cwds, identities) <==> dir in RootsFrom(cwds, identities)
  {
    if cwds != [] { DirsAreRootKeys(cwds[..|cwds| - 1], identities); }
  }

  // ---------------------------------------------------------------- one pass

  datatype World = World(identities: Table<Identity>, repositories: Table<Option<string>>, nextKind: Kind,
                         lastPrune: Option<i64>)

  /** What a pass meets outside: two clock readings, what the commands print, and the directories
      that are missing when it plans a prune and when it commits it. */
  datatype PassInput = PassInput(claimNow: i64, doneNow: i64, revParse: string -> Option<seq<string>>,
                                 prList: string -> Option<string>, gone: set<string>, goneAtCommit: set<string>)

  function Keys(kind: Kind, cwds: seq<string>, w: World): seq<string> {
    if kind.IdentityKind? then cwds else DirsOf(cwds, w.identities)
  }

  predicate Due(kind: Kind, w: World, key: string, now: i64) {
    if kind.IdentityKind? then IsDue(w.identities, key, now) else IsDue(w.repositories, key, now)
  }

  function Attempt(kind: Kind, w: World, key: string): i64 {
    if kind.IdentityKind? then AttemptOf(w.identities, key) else AttemptOf(w.repositories, key)
  }

  function Queue(kind: Kind, cwds: seq<string>, w: World, now: i64): seq<Candidate> {
    if kind.IdentityKind? then Candidates(cwds, w.identities, now)
    else Candidates(DirsOf(cwds, w.identities), w.repositories, now)
  }

  function Other(kind: Kind): Kind {
    if kind.IdentityKind? then RepositoryKind else IdentityKind
  }

  function Selected(cwds: seq<string>, w: World, now: i64): Option<Kind> {
    var identities, repositories := Queue(IdentityKind, cwds, w, now), Queue(RepositoryKind, cwds, w, now);
    if identities != [] && repositories != [] then Some(w.nextKind)
    else if identities != [] then Some(IdentityKind)
    else if repositories != [] then Some(RepositoryKind)
    else None
  }

  predicate Wins(kind: Kind, w: World, key: string, now: i64) {
    if kind.IdentityKind? then ClaimWins(w.identities, key, now) else ClaimWins(w.repositories, key, now)
  }

  /** The key this pass runs a command for, if any. */
  function Served(cwds: seq<string>, w: World, input: PassInput): Option<(Kind, string)> {
    var kind := Selected(cwds, w, input.claimNow);
    if kind.None? then None
    else
      var queue := Queue(kind.value, cwds, w, input.claimNow);
      if queue == [] || !Wins(kind.value, w, queue[0].key, input.claimNow) then None
      else Some((kind.value, queue[0].key))
  }

  function RefreshedIdentities(t: Table<Identity>, cwd: string, input: PassInput): Table<Identity> {
    var claimed := Claimed(t, cwd, NO_IDENTITY, input.claimNow, GROK_IDENTITY_CLAIM_MS);
    var token := Token(cwd, input.claimNow);
    var lines := input.revParse(cwd);
    var identity := if lines.Some? then ParseIdentity(lines.value) else None;
    if identity.Some? then Completed(claimed, token, identity.value, input.doneNow)
    else Failed(claimed, token, input.doneNow)
  }

  function RefreshedRepositories(t: Table<Option<string>>, dir: string, input: PassInput): Table<Option<string>> {
    var claimed := Claimed(t, dir, None, input.claimNow, GROK_REPOSITORY_CLAIM_MS);
    var token := Token(dir, input.claimNow);
    var prs := input.prList(dir);
    if prs.Some? then Completed(claimed, token, prs, input.doneNow) else Failed(claimed, token, input.doneNow)
  }

  function Refreshed(cwds: seq<string>, w: World, input: PassInput): World {
    var served := Served(cwds, w, input);
    var kind := Selected(cwds, w, input.claimNow);
    var w' := if kind.Some? then w.(nextKind := Other(kind.value)) else w;
    if served.None? then w'
    else if served.value.0.IdentityKind? then
      w'.(identities := RefreshedIdentities(w.identities, served.value.1, input))
    else w'.(repositories := RefreshedRepositories(w.repositories, served.value.1, input))
  }

  predicate PruneIsDue(lastPrune: Option<i64>, now: i64) {
    lastPrune.None? || !(0 <= SatSub(now, lastPrune.value) < PRUNE_INTERVAL_MS)
  }

  function Pruned(w: World, now: i64, gone: set<string>, goneAtCommit: set<string>): World {
    if !PruneIsDue(w.lastPrune, now) then w
    else
      var plan := Planned(w.identities, w.repositories, now, gone);
      var identities := PrunedIdentities(w.identities, plan, now, goneAtCommit);
      w.(identities := identities, repositories := PrunedRepositories(identities, w.repositories, plan, now),
         lastPrune := Some(now))
  }

  function Pass(cwds: seq<string>, w: World, input: PassInput): World {
    if cwds == [] then w
    else Pruned(Refreshed(cwds, w, input), if Served(cwds, w, input).Some? then input.doneNow else input.claimNow,
                input.gone, input.goneAtCommit)
  }

  class GrokPrFallback {
    var nextKind: Kind
    var lastPrune: Option<i64>

    constructor ()
      ensures nextKind == IdentityKind && lastPrune == None
    {
      nextKind, lastPrune := IdentityKind, None;
    }

    function Contents(db: PrCache): World
      reads this, db
    {
      World(db.identities, db.repositories, nextKind, lastPrune)
    }

    /** `cwds` are the eligible rows' directories. No pass runs more than one command, and the one it
        runs is for the key the specification serves. */
    method AttachBranchPrRefs(db: PrCache, cwds: seq<string>, input: PassInput) returns (commands: seq<Command>)
      modifies this, db
      ensures Contents(db) == Pass(cwds, old(Contents(db)), input)
      ensures cwds == [] ==> commands == []
      ensures cwds != [] ==>
                var served := Served(cwds, old(Contents(db)), input);
                && |commands| == (if served.Some? then 1 else 0)
                && (served.Some? && served.value.0.IdentityKind? ==> commands == [RevParse(served.value.1)])
                && (served.Some? && served.value.0.RepositoryKind? ==>
                      && served.value.1 in RootsFrom(cwds, old(db.identities))
                      && commands == [PrList(served.value.1, RootsFrom(cwds, old(db.identities))[served.value.1])])
    {
      hide Candidates, RootsFrom, DirsOf, Completed, Failed, Planned, PrunedIdentities, PrunedRepositories, PruneIsDue;
      commands := [];
      if cwds == [] { return; }
      var now := input.claimNow;
      var maintenanceNow := now;
      var identityDue := Candidates(cwds, db.identities, now);
      var roots := RepositoryRoots(cwds, db.identities);
      var repositoryDue := Candidates(DirsOf(cwds, db.identities), db.repositories, now);
      ghost var w := Contents(db);
      assert Queue(IdentityKind, cwds, w, now) == identityDue && Queue(RepositoryKind, cwds, w, now) == repositoryDue;
      if identityDue != [] && (repositoryDue == [] || nextKind.IdentityKind?) {
        nextKind := RepositoryKind;
        var cwd := identityDue[0].key;
        var token := db.ClaimWorktreeIdentity(cwd, now);
        if token.Some? {
          commands := [RevParse(cwd)];
          var lines := input.revParse(cwd);
          maintenanceNow := input.doneNow;
          var identity := if lines.Some? then ParseIdentity(lines.value) else None;
          if identity.Some? {
            var _ := db.CompleteWorktreeIdentity(token.value, identity.value.root.value, identity.value.branch,
                                                 identity.value.commonDir.value, input.doneNow);
          } else {
            var _ := db.FailWorktreeIdentity(token.value, input.doneNow);
          }
        }
      } else if repositoryDue != [] {
        nextKind := IdentityKind;
        var dir := repositoryDue[0].key;
        FirstCandidate(DirsOf(cwds, db.identities), db.repositories, now);
        DirsAreRootKeys(cwds, db.identities);
        var token := db.ClaimRepositoryPrs(dir, now);
        if token.Some? {
          commands := [PrList(dir, roots[dir])];
          var prs := input.prList(dir);
          maintenanceNow := input.doneNow;
          if prs.Some? {
            var _ := db.CompleteRepositoryPrs(token.value, prs.value, input.doneNow);
          } else {
            var _ := db.FailRepositoryPrs(token.value, input.doneNow);
          }
        }
      }
      assert Contents(db) == Refreshed(cwds, w, input);
      if PruneIsDue(lastPrune, maintenanceNow) {
        lastPrune := Some(maintenanceNow);
        db.PruneGrokPrFallback(maintenanceNow, input.gone, input.goneAtCommit);
      }
    }
  }
}
