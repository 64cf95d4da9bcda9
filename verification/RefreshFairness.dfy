/** Fairness of the branch-PR refresh scheduler, for one viewer with an advancing clock. */
module RefreshFairness {
  import opened Basics
  import opened Ordering
  import opened RefreshTables
  import opened RefreshSchedulers

  // ---------------------------------------------------------------- what one pass does

  ghost predicate TableStamped<P>(t: Table<P>, now: i64) {
    forall key :: key in t ==> t[key].attempt < now && t[key].success >= 0
  }

  /** No success stamp is negative. The program stores none (`RefreshTables.StampsInRuns`). */
  ghost predicate NonNegative(w: World) {
    TableNonNegative(w.identities) && TableNonNegative(w.repositories)
  }

  ghost predicate TableNonNegative<P>(t: Table<P>) {
    forall key :: key in t ==> t[key].success >= 0
  }

  /** Every stored attempt lies before `now` as well. */
  ghost predicate Stamped(w: World, now: i64): (stamped: bool)
    ensures stamped ==> NonNegative(w)
  {
    TableStamped(w.identities, now) && TableStamped(w.repositories, now)
  }

  lemma QueueFacts(kind: Kind, cwds: seq<string>, w: World, now: i64)
    ensures Queue(kind, cwds, w, now) != [] <==> exists key :: key in Keys(kind, cwds, w) && Due(kind, w, key, now)
    ensures Queue(kind, cwds, w, now) != [] ==>
              var first := Queue(kind, cwds, w, now)[0];
              && first.key in Keys(kind, cwds, w) && Due(kind, w, first.key, now)
              && first.attempt == Attempt(kind, w, first.key)
              && forall key :: key in Keys(kind, cwds, w) && Due(kind, w, key, now)
                     ==> CandidateLeq(first, Candidate(Attempt(kind, w, key), key))
  {
    if kind.IdentityKind? {
      FirstCandidate(cwds, w.identities, now);
      assert forall key :: Due(kind, w, key, now) <==> IsDue(w.identities, key, now);
    } else {
      FirstCandidate(DirsOf(cwds, w.identities), w.repositories, now);
      assert forall key :: Due(kind, w, key, now) <==> IsDue(w.repositories, key, now);
    }
  }

  /** With non-negative stamps whatever the scheduler picks, the claim grants: a selected kind always
      runs its command, for its oldest due key. */
  lemma SelectedIsServed(cwds: seq<string>, w: World, input: PassInput)
    requires NonNegative(w)
    ensures var kind := Selected(cwds, w, input.claimNow);
            && (kind.None? ==> Served(cwds, w, input) == None)
            && (kind.Some? ==>
                  && Queue(kind.value, cwds, w, input.claimNow) != []
                  && Served(cwds, w, input) == Some((kind.value, Queue(kind.value, cwds, w, input.claimNow)[0].key)))
  {
    var kind := Selected(cwds, w, input.claimNow);
    if kind.Some? {
      QueueFacts(kind.value, cwds, w, input.claimNow);
      var key := Queue(kind.value, cwds, w, input.claimNow)[0].key;
      if kind.value.IdentityKind? && key in w.identities { DueIsClaimable(w.identities[key], input.claimNow); }
      if kind.value.RepositoryKind? && key in w.repositories { DueIsClaimable(w.repositories[key], input.claimNow); }
    }
  }

  /** If some key of a kind is due, the pass serves that kind or leaves it next in line. */
  lemma ServesOrYields(kind: Kind, cwds: seq<string>, w: World, input: PassInput, key: string)
    requires cwds != [] && NonNegative(w)
    requires key in Keys(kind, cwds, w) && Due(kind, w, key, input.claimNow)
    ensures var served := Served(cwds, w, input);
            && served.Some?
            && (served.value.0 == kind || (served.value.0 == Other(kind) && Pass(cwds, w, input).nextKind == kind))
            && (w.nextKind == kind ==> served.value.0 == kind)
            && (served.value.0 == kind ==>
                  && served.value.1 in Keys(kind, cwds, w) && Due(kind, w, served.value.1, input.claimNow)
                  && CandidateLeq(Candidate(Attempt(kind, w, served.value.1), served.value.1),
                                  Candidate(Attempt(kind, w, key), key)))
  {
    QueueFacts(kind, cwds, w, input.claimNow);
    QueueFacts(Other(kind), cwds, w, input.claimNow);
    SelectedIsServed(cwds, w, input);
  }

  lemma RefreshKeepsStamps(cwds: seq<string>, w: World, input: PassInput, later: i64)
    requires Stamped(w, input.claimNow) && 0 < input.claimNow < input.doneNow < later
    ensures Stamped(Pass(cwds, w, input), later)
  {
    hide Served, Selected, Pruned, RefreshedIdentities, RefreshedRepositories, TableStamped;
    var served := Served(cwds, w, input);
    LaterStamped(w, input.claimNow, later);
    if served.Some? {
      IdentitiesKeepStamps(w.identities, served.value.1, input, later);
      RepositoriesKeepStamps(w.repositories, served.value.1, input, later);
    }
    PruneKeepsStamps(Refreshed(cwds, w, input), if served.Some? then input.doneNow else input.claimNow, input.gone,
                     input.goneAtCommit, later);
  }

  lemma LaterStamped(w: World, now: i64, later: i64)
    requires Stamped(w, now) && now <= later
    ensures Stamped(w, later)
  {
  }

  lemma PruneKeepsStamps(w: World, now: i64, gone: set<string>, goneAtCommit: set<string>, later: i64)
    requires Stamped(w, later)
    ensures Stamped(Pruned(w, now, gone, goneAtCommit), later)
  {
  }

  lemma IdentitiesKeepStamps(t: Table<Identity>, cwd: string, input: PassInput, later: i64)
    requires TableStamped(t, input.claimNow) && 0 < input.claimNow < input.doneNow < later
    ensures TableStamped(RefreshedIdentities(t, cwd, input), later)
  {
  }

  lemma RepositoriesKeepStamps(t: Table<Option<string>>, dir: string, input: PassInput, later: i64)
    requires TableStamped(t, input.claimNow) && 0 < input.claimNow < input.doneNow < later
    ensures TableStamped(RefreshedRepositories(t, dir, input), later)
  {
  }

  /** A pass stamps the key it serves and touches no other attempt stamp, provided the listed
      directories exist: pruning spares their rows and the rows of the repositories they name. */
  lemma OthersKeepStamps(kind: Kind, cwds: seq<string>, w: World, input: PassInput, key: string)
    requires cwds != [] && NonNegative(w)
    requires forall cwd :: cwd in cwds ==> cwd !in input.goneAtCommit
    requires key in Keys(kind, cwds, Pass(cwds, w, input))
    ensures Attempt(kind, Pass(cwds, w, input), key)
            == if Served(cwds, w, input) == Some((kind, key)) then input.claimNow else Attempt(kind, w, key)
  {
    var served := Served(cwds, w, input);
    var now := if served.Some? then input.doneNow else input.claimNow;
    var r := Refreshed(cwds, w, input);
    RefreshStampsServed(kind, cwds, w, input, key);
    if PruneIsDue(r.lastPrune, now) {
      var plan := Planned(r.identities, r.repositories, now, input.gone);
      PruneIsSafe(r.identities, r.repositories, plan, now, input.goneAtCommit);
      if kind.RepositoryKind? { ListedDirIsNamed(cwds, Pass(cwds, w, input).identities, key); }
    }
  }

  lemma RefreshStampsServed(kind: Kind, cwds: seq<string>, w: World, input: PassInput, key: string)
    requires NonNegative(w)
    ensures Attempt(kind, Refreshed(cwds, w, input), key)
            == if Served(cwds, w, input) == Some((kind, key)) then input.claimNow else Attempt(kind, w, key)
  {
    SelectedIsServed(cwds, w, input);
  }

  lemma {:induction false} ListedDirIsNamed(cwds: seq<string>, identities: Table<Identity>, dir: string)
    requires dir in DirsOf(cwds, identities)
    ensures exists cwd :: cwd in cwds && cwd in identities && identities[cwd].data.commonDir == Some(dir)
  {
    var front, cwd := cwds[..|cwds| - 1], cwds[|cwds| - 1];
    if dir in DirsOf(front, identities) {
      ListedDirIsNamed(front, identities, dir);
    } else {
      assert cwd in cwds && identities[cwd].data.commonDir == Some(dir);
    }
  }

  // ---------------------------------------------------------------- runs of passes

  ghost predicate Passes(cwds: seq<string>, worlds: seq<World>, inputs: seq<PassInput>) {
    && cwds != [] && |worlds| == |inputs| + 1
    && forall i :: 0 <= i < |inputs| ==> worlds[i + 1] == Pass(cwds, worlds[i], inputs[i])
  }

  lemma PassStaysNonNegative(cwds: seq<string>, w: World, input: PassInput)
    requires NonNegative(w) && input.doneNow >= 0
    ensures NonNegative(Pass(cwds, w, input))
  {
    hide Served, Selected, Pruned, RefreshedIdentities, RefreshedRepositories, TableNonNegative;
    var served := Served(cwds, w, input);
    if served.Some? {
      IdentitiesStayNonNegative(w.identities, served.value.1, input);
      RepositoriesStayNonNegative(w.repositories, served.value.1, input);
    }
    PruneStaysNonNegative(Refreshed(cwds, w, input), if served.Some? then input.doneNow else input.claimNow, input.gone,
                       input.goneAtCommit);
  }

  lemma IdentitiesStayNonNegative(t: Table<Identity>, cwd: string, input: PassInput)
    requires TableNonNegative(t) && input.doneNow >= 0
    ensures TableNonNegative(RefreshedIdentities(t, cwd, input))
  {
    hide ParseIdentity;
  }

  lemma RepositoriesStayNonNegative(t: Table<Option<string>>, dir: string, input: PassInput)
    requires TableNonNegative(t) && input.doneNow >= 0
    ensures TableNonNegative(RefreshedRepositories(t, dir, input))
  {
  }

  lemma PruneStaysNonNegative(w: World, now: i64, gone: set<string>, goneAtCommit: set<string>)
    requires NonNegative(w)
    ensures NonNegative(Pruned(w, now, gone, goneAtCommit))
  {
  }

  /** Passes from empty tables, under any clock that reads no time before the epoch, however it jumps,
      always run a command for what they select. */
  lemma {:induction false} SelectedIsServedInRuns(cwds: seq<string>, worlds: seq<World>, inputs: seq<PassInput>, i: nat)
    requires Passes(cwds, worlds, inputs) && worlds[0].identities == map[] && worlds[0].repositories == map[]
    requires i < |worlds| && forall k :: 0 <= k < |inputs| ==> inputs[k].doneNow >= 0
    ensures NonNegative(worlds[i])
    ensures i < |inputs| ==>
              (Selected(cwds, worlds[i], inputs[i].claimNow).None? <==> Served(cwds, worlds[i], inputs[i]).None?)
  {
    hide Pass, Served, Selected;
    if i > 0 {
      SelectedIsServedInRuns(cwds, worlds, inputs, i - 1);
      PassStaysNonNegative(cwds, worlds[i - 1], inputs[i - 1]);
    }
    if i < |inputs| {
      SelectedIsServed(cwds, worlds[i], inputs[i]);
    }
  }

  /** One viewer's clock: every reading is later than the one before, and the first is later than
      every stamp already stored. The listed directories are there throughout. */
  ghost predicate Advancing(cwds: seq<string>, worlds: seq<World>, inputs: seq<PassInput>) {
    && |worlds| == |inputs| + 1
    && (forall i :: 0 <= i < |inputs| ==> 0 < inputs[i].claimNow < inputs[i].doneNow)
    && (forall i :: 0 <= i < |inputs| - 1 ==> inputs[i].doneNow < inputs[i + 1].claimNow)
    && (inputs != [] ==> Stamped(worlds[0], inputs[0].claimNow))
    && (forall i, cwd :: 0 <= i < |inputs| && cwd in cwds ==> cwd !in inputs[i].goneAtCommit)
  }

  lemma {:induction false} StaysStamped(cwds: seq<string>, worlds: seq<World>, inputs: seq<PassInput>, i: nat)
    requires Passes(cwds, worlds, inputs) && Advancing(cwds, worlds, inputs) && i < |inputs|
    ensures Stamped(worlds[i], inputs[i].claimNow)
  {
    if i > 0 {
      StaysStamped(cwds, worlds, inputs, i - 1);
      RefreshKeepsStamps(cwds, worlds[i - 1], inputs[i - 1], inputs[i].claimNow);
    }
  }

  /** The same keys of this kind are listed in every pass. */
  ghost predicate FixedKeys(kind: Kind, cwds: seq<string>, worlds: seq<World>) {
    forall i, j, key :: 0 <= i < |worlds| && 0 <= j < |worlds| && key in Keys(kind, cwds, worlds[i])
        ==> key in Keys(kind, cwds, worlds[j])
  }

  predicate Ahead(kind: Kind, w: World, key: string, target: string) {
    key != target && CandidateLeq(Candidate(Attempt(kind, w, key), key), Candidate(Attempt(kind, w, target), target))
  }

  predicate DueAhead(kind: Kind, w: World, key: string, target: string, now: i64) {
    Due(kind, w, key, now) && Ahead(kind, w, key, target)
  }

  ghost predicate Serves(kind: Kind, cwds: seq<string>, worlds: seq<World>, inputs: seq<PassInput>, i: nat,
      target: string)
    requires i < |inputs| <= |worlds|
  {
    Served(cwds, worlds[i], inputs[i]) == Some((kind, target))
  }

  ghost predicate Unserved(kind: Kind, cwds: seq<string>, worlds: seq<World>, inputs: seq<PassInput>, from: nat,
      to: nat, target: string)
    requires to <= |inputs| <= |worlds|
  {
    forall i :: from <= i < to ==> !Serves(kind, cwds, worlds, inputs, i, target)
  }

  lemma StaysBehindOnce(kind: Kind, cwds: seq<string>, w: World, input: PassInput, key: string, target: string)
    requires cwds != [] && Stamped(w, input.claimNow) && input.claimNow > 0
    requires forall cwd :: cwd in cwds ==> cwd !in input.goneAtCommit
    requires key in Keys(kind, cwds, Pass(cwds, w, input)) && target in Keys(kind, cwds, Pass(cwds, w, input))
    requires Served(cwds, w, input) != Some((kind, target)) && !Ahead(kind, w, key, target)
    ensures !Ahead(kind, Pass(cwds, w, input), key, target)
  {
    hide Served, Pass, Keys, Attempt, Stamped;
    OthersKeepStamps(kind, cwds, w, input, key);
    OthersKeepStamps(kind, cwds, w, input, target);
    AttemptBelow(kind, w, target, input.claimNow);
  }

  /** Nobody moves ahead of a target that is not being served. */
  lemma {:induction false} StaysBehind(kind: Kind, cwds: seq<string>, worlds: seq<World>, inputs: seq<PassInput>,
      i: nat, k: nat, key: string, target: string)
    requires Passes(cwds, worlds, inputs) && Advancing(cwds, worlds, inputs) && FixedKeys(kind, cwds, worlds)
    requires i <= k < |worlds| && key in Keys(kind, cwds, worlds[0]) && target in Keys(kind, cwds, worlds[0])
    requires Unserved(kind, cwds, worlds, inputs, i, k, target) && !Ahead(kind, worlds[i], key, target)
    ensures !Ahead(kind, worlds[k], key, target)
    decreases k - i
  {
    hide Served, Pass, Keys, Ahead, Stamped;
    if i < k {
      StaysBehind(kind, cwds, worlds, inputs, i, k - 1, key, target);
      StaysStamped(cwds, worlds, inputs, k - 1);
      assert !Serves(kind, cwds, worlds, inputs, k - 1, target);
      assert key in Keys(kind, cwds, worlds[k]) && target in Keys(kind, cwds, worlds[k]);
      StaysBehindOnce(kind, cwds, worlds[k - 1], inputs[k - 1], key, target);
    }
  }

  lemma AttemptBelow(kind: Kind, w: World, key: string, now: i64)
    requires Stamped(w, now) && now > 0
    ensures Attempt(kind, w, key) < now
  {
  }

  /** A key that is served falls behind every other listed key. */
  lemma DropsBehind(kind: Kind, cwds: seq<string>, w: World, input: PassInput, key: string, target: string)
    requires cwds != [] && Stamped(w, input.claimNow) && input.claimNow > 0
    requires forall cwd :: cwd in cwds ==> cwd !in input.goneAtCommit
    requires key in Keys(kind, cwds, Pass(cwds, w, input)) && target in Keys(kind, cwds, Pass(cwds, w, input))
    requires Served(cwds, w, input) == Some((kind, key)) && key != target
    ensures !Ahead(kind, Pass(cwds, w, input), key, target)
  {
    hide Served, Pass, Keys, Attempt;
    OthersKeepStamps(kind, cwds, w, input, key);
    OthersKeepStamps(kind, cwds, w, input, target);
    AttemptBelow(kind, w, target, input.claimNow);
  }

  /** One served rival: within two passes a due target is served itself, or a due key ahead of it is
      and from then on stays behind it. */
  lemma RivalServed(kind: Kind, cwds: seq<string>, worlds: seq<World>, inputs: seq<PassInput>, from: nat,
      target: string) returns (i: nat, key: string)
    requires Passes(cwds, worlds, inputs) && Advancing(cwds, worlds, inputs) && FixedKeys(kind, cwds, worlds)
    requires from + 2 <= |inputs| && target in Keys(kind, cwds, worlds[0])
    requires Due(kind, worlds[from], target, inputs[from].claimNow)
    requires !Serves(kind, cwds, worlds, inputs, from, target)
             ==> Due(kind, worlds[from + 1], target, inputs[from + 1].claimNow)
    ensures from <= i < from + 2 && Serves(kind, cwds, worlds, inputs, i, key)
    ensures key in Keys(kind, cwds, worlds[0]) && key in Keys(kind, cwds, worlds[i])
            && Due(kind, worlds[i], key, inputs[i].claimNow)
    ensures key != target ==>
              && Unserved(kind, cwds, worlds, inputs, from, i + 1, target)
              && Ahead(kind, worlds[i], key, target) && !Ahead(kind, worlds[i + 1], key, target)
  {
    hide Served, Pass, Keys, Attempt, Due, Stamped;
    StaysStamped(cwds, worlds, inputs, from);
    assert target in Keys(kind, cwds, worlds[from]) && target in Keys(kind, cwds, worlds[from + 1]);
    ServesOrYields(kind, cwds, worlds[from], inputs[from], target);
    i := from;
    if Served(cwds, worlds[from], inputs[from]).value.0 != kind {
      i := from + 1;
      StaysStamped(cwds, worlds, inputs, i);
      ServesOrYields(kind, cwds, worlds[i], inputs[i], target);
    }
    key := Served(cwds, worlds[i], inputs[i]).value.1;
    if key != target {
      assert key in Keys(kind, cwds, worlds[i + 1]) && target in Keys(kind, cwds, worlds[i + 1]);
      DropsBehind(kind, cwds, worlds[i], inputs[i], key, target);
    }
  }

  /** Fairness. Let `rivals` hold every key that is both due and ahead of the target at some pass of
      the window. A target that stays due is served within 2 * (|rivals| + 1) passes. */
  lemma {:induction false} ServedWithin(kind: Kind, cwds: seq<string>, worlds: seq<World>, inputs: seq<PassInput>,
      from: nat, target: string, rivals: set<string>) returns (i: nat)
    requires Passes(cwds, worlds, inputs) && Advancing(cwds, worlds, inputs) && FixedKeys(kind, cwds, worlds)
    requires target in Keys(kind, cwds, worlds[0])
    requires from + 2 * (|rivals| + 1) <= |inputs|
    requires forall p :: from <= p < from + 2 * (|rivals| + 1) && Unserved(kind, cwds, worlds, inputs, from, p, target)
                         ==> Due(kind, worlds[p], target, inputs[p].claimNow)
    requires forall p, key ::
               && from <= p < from + 2 * (|rivals| + 1) && Unserved(kind, cwds, worlds, inputs, from, p, target)
               && key in Keys(kind, cwds, worlds[p]) && DueAhead(kind, worlds[p], key, target, inputs[p].claimNow)
               ==> key in rivals
    ensures from <= i < from + 2 * (|rivals| + 1) && Serves(kind, cwds, worlds, inputs, i, target)
    decreases |rivals|
  {
    hide Served, Pass, Keys, Ahead, Due, Advancing, FixedKeys;
    assert Unserved(kind, cwds, worlds, inputs, from, from, target);
    assert !Serves(kind, cwds, worlds, inputs, from, target)
        ==> Unserved(kind, cwds, worlds, inputs, from, from + 1, target);
    var key;
    i, key := RivalServed(kind, cwds, worlds, inputs, from, target);
    if key != target {
      assert Unserved(kind, cwds, worlds, inputs, from, i, target);
      assert key in rivals;
      var rest := rivals - {key};
      forall p | i + 1 <= p < i + 1 + 2 * (|rest| + 1) && Unserved(kind, cwds, worlds, inputs, i + 1, p, target)
        ensures Unserved(kind, cwds, worlds, inputs, from, p, target) && !Ahead(kind, worlds[p], key, target)
      {
        assert forall q :: from <= q < p ==> !Serves(kind, cwds, worlds, inputs, q, target);
        StaysBehind(kind, cwds, worlds, inputs, i + 1, p, key, target);
      }
      i := ServedWithin(kind, cwds, worlds, inputs, i + 1, target, rest);
    }
  }

  ghost function AllAhead(kind: Kind, cwds: seq<string>, w: World, target: string): set<string> {
    set key | key in Keys(kind, cwds, w) && Ahead(kind, w, key, target)
  }

  /** With no assumption about the other keys: a target that stays due is served within twice the
      number of listed keys ahead of it, due or not, plus one. */
  lemma EveryDueKeyIsServed(kind: Kind, cwds: seq<string>, worlds: seq<World>, inputs: seq<PassInput>, target: string)
    returns (i: nat)
    requires Passes(cwds, worlds, inputs) && Advancing(cwds, worlds, inputs) && FixedKeys(kind, cwds, worlds)
    requires target in Keys(kind, cwds, worlds[0])
    requires |inputs| == 2 * (|AllAhead(kind, cwds, worlds[0], target)| + 1)
    requires forall p :: 0 <= p < |inputs| && Unserved(kind, cwds, worlds, inputs, 0, p, target)
                         ==> Due(kind, worlds[p], target, inputs[p].claimNow)
    ensures i < |inputs| && Serves(kind, cwds, worlds, inputs, i, target)
  {
    var rivals := AllAhead(kind, cwds, worlds[0], target);
    forall p, key | 0 <= p < |inputs| && Unserved(kind, cwds, worlds, inputs, 0, p, target)
        && key in Keys(kind, cwds, worlds[p])
                    && Ahead(kind, worlds[p], key, target)
      ensures key in rivals
    {
      if key !in rivals { StaysBehind(kind, cwds, worlds, inputs, 0, p, key, target); }
    }
    i := ServedWithin(kind, cwds, worlds, inputs, 0, target, rivals);
  }

  // ---------------------------------------------------------------- counting only the due keys is not enough

  ghost function DueAheadNow(kind: Kind, cwds: seq<string>, w: World, target: string, now: i64): set<string> {
    set key | key in Keys(kind, cwds, w) && DueAhead(kind, w, key, target, now)
  }

  /** If no other key ahead of the target comes due during the window, counting the keys that are
      due and ahead when it opens gives the bound. */
  lemma BoundByDueKeys(kind: Kind, cwds: seq<string>, worlds: seq<World>, inputs: seq<PassInput>, target: string)
    returns (i: nat)
    requires Passes(cwds, worlds, inputs) && Advancing(cwds, worlds, inputs) && FixedKeys(kind, cwds, worlds)
    requires target in Keys(kind, cwds, worlds[0]) && inputs != []
    requires |inputs| == 2 * (|DueAheadNow(kind, cwds, worlds[0], target, inputs[0].claimNow)| + 1)
    requires forall p :: 0 <= p < |inputs| && Unserved(kind, cwds, worlds, inputs, 0, p, target)
                         ==> Due(kind, worlds[p], target, inputs[p].claimNow)
    requires forall p, key :: 0 <= p < |inputs| && key in Keys(kind, cwds, worlds[p])
                              && DueAhead(kind, worlds[p], key, target, inputs[p].claimNow)
                              ==> Due(kind, worlds[0], key, inputs[0].claimNow)
    ensures i < |inputs| && Serves(kind, cwds, worlds, inputs, i, target)
  {
    var rivals := DueAheadNow(kind, cwds, worlds[0], target, inputs[0].claimNow);
    forall p, key | 0 <= p < |inputs| && Unserved(kind, cwds, worlds, inputs, 0, p, target)
        && key in Keys(kind, cwds, worlds[p])
                    && DueAhead(kind, worlds[p], key, target, inputs[p].claimNow)
      ensures key in rivals
    {
      assert key in Keys(kind, cwds, worlds[0]);
      if !Ahead(kind, worlds[0], key, target) { StaysBehind(kind, cwds, worlds, inputs, 0, p, key, target); }
    }
    i := ServedWithin(kind, cwds, worlds, inputs, 0, target, rivals);
  }

  const LATE: seq<string> := ["/a", "/b"]

  /** `git rev-parse` works in "/a" only; no listing of pull requests does, and nothing is missing. */
  function LateInput(claimNow: i64, doneNow: i64): PassInput {
    PassInput(claimNow, doneNow, cwd => if cwd == "/a" then Some(["/a", "m", "/g"]) else None, dir => None, {}, {})
  }

  const LATE_INPUTS: seq<PassInput> :=
    [LateInput(1, 2), LateInput(3, 4), LateInput(5, 6), LateInput(60_001, 60_002), LateInput(60_003, 60_004)]

  const A_ROW: Row<Identity> := Row(Identity(Some("/a"), Some("m"), Some("/g")), 2, 1, 0)
  const B_ROW: Row<Identity> := Row(NO_IDENTITY, 0, 5, 5_006)
  const G_ROW: Row<Option<string>> := Row(None, 0, 3, 5_004)

  /** The tables before each of the first four passes, from empty ones: "/a" is identified, its
      repository fails, "/b" fails. */
  const LATE_0: World := World(map[], map[], IdentityKind, None)
  const LATE_1: World := World(map["/a" := A_ROW], map[], RepositoryKind, Some(2))
  const LATE_2: World := World(map["/a" := A_ROW], map["/g" := G_ROW], IdentityKind, Some(2))
  const LATE_3: World := World(map["/a" := A_ROW, "/b" := B_ROW], map["/g" := G_ROW], RepositoryKind, Some(2))

  /** Without that proviso the smaller bound fails, on tables that passes from empty ones have filled.
      When the window opens, at the fourth pass, no key is due and ahead of "/b", yet two passes go by
      without serving it: the first runs the other kind's command, and by the second "/a" has come
      due with its older stamp. */
  lemma LateComerOvertakes() returns (worlds: seq<World>, inputs: seq<PassInput>)
    ensures |inputs| == 5 && Passes(LATE, worlds, inputs) && Advancing(LATE, worlds, inputs)
    ensures worlds[0] == World(map[], map[], IdentityKind, None)
    ensures FixedKeys(IdentityKind, LATE, worlds) && "/b" in Keys(IdentityKind, LATE, worlds[3])
    ensures DueAheadNow(IdentityKind, LATE, worlds[3], "/b", inputs[3].claimNow) == {}
    ensures forall p :: 3 <= p < 5 ==> Due(IdentityKind, worlds[p], "/b", inputs[p].claimNow)
    ensures Unserved(IdentityKind, LATE, worlds, inputs, 3, 5, "/b")
  {
    hide Pass, Served;
    inputs := LATE_INPUTS;
    var w4 := Pass(LATE, LATE_3, inputs[3]);
    worlds := [LATE_0, LATE_1, LATE_2, LATE_3, w4, Pass(LATE, w4, inputs[4])];
    LatePass0();
    LatePass1();
    LatePass2();
    LatePass3();
    LatePass4(w4);
    assert Stamped(LATE_0, 1);
  }

  lemma LatePass0()
    ensures Pass(LATE, LATE_0, LateInput(1, 2)) == LATE_1
  {
    hide DirsOf, Candidates;
    var input := LateInput(1, 2);
    QueueFacts(IdentityKind, LATE, LATE_0, 1);
    assert DirsOf(LATE, map[]) == [] by { NoDirs(); }
    QueueFacts(RepositoryKind, LATE, LATE_0, 1);
    assert "/a" in LATE && Due(IdentityKind, LATE_0, "/a", 1);
    SelectedIsServed(LATE, LATE_0, input);
    assert Served(LATE, LATE_0, input) == Some((IdentityKind, "/a"));
    assert Refreshed(LATE, LATE_0, input) == LATE_1.(lastPrune := None);
    NothingGone(LATE_1.(lastPrune := None), 2);
  }

  lemma NoDirs()
    ensures DirsOf(LATE, map[]) == []
  {
  }

  lemma LateDirs(identities: Table<Identity>)
    requires "/a" in identities && identities["/a"] == A_ROW && ("/b" in identities ==> identities["/b"] == B_ROW)
    ensures DirsOf(LATE, identities) == ["/g"]
  {
    assert Validated(A_ROW) == Some(ValidIdentity("/a", Some("m"), "/g")) && Validated(B_ROW) == None;
    assert LATE[..1] == ["/a"] && ["/a"][..0] == [];
    assert DirsOf(["/a"], identities) == ["/g"];
  }

  lemma LatePass1()
    ensures Pass(LATE, LATE_1, LateInput(3, 4)) == LATE_2
  {
    hide DirsOf, Candidates;
    var input := LateInput(3, 4);
    LateDirs(LATE_1.identities);
    QueueFacts(IdentityKind, LATE, LATE_1, 3);
    QueueFacts(RepositoryKind, LATE, LATE_1, 3);
    assert "/b" in LATE && Due(IdentityKind, LATE_1, "/b", 3);
    assert "/g" in Keys(RepositoryKind, LATE, LATE_1) && Due(RepositoryKind, LATE_1, "/g", 3);
    SelectedIsServed(LATE, LATE_1, input);
  }

  lemma LatePass2()
    ensures Pass(LATE, LATE_2, LateInput(5, 6)) == LATE_3
  {
    hide DirsOf, Candidates;
    var input := LateInput(5, 6);
    LateDirs(LATE_2.identities);
    QueueFacts(IdentityKind, LATE, LATE_2, 5);
    QueueFacts(RepositoryKind, LATE, LATE_2, 5);
    assert "/b" in LATE && Due(IdentityKind, LATE_2, "/b", 5);
    SelectedIsServed(LATE, LATE_2, input);
  }

  lemma LatePass3()
    ensures var input := LateInput(60_001, 60_002);
            && Served(LATE, LATE_3, input) == Some((RepositoryKind, "/g"))
            && Pass(LATE, LATE_3, input).identities == LATE_3.identities
  {
    hide DirsOf, Candidates;
    var input := LateInput(60_001, 60_002);
    LateDirs(LATE_3.identities);
    QueueFacts(IdentityKind, LATE, LATE_3, 60_001);
    QueueFacts(RepositoryKind, LATE, LATE_3, 60_001);
    assert "/b" in LATE && Due(IdentityKind, LATE_3, "/b", 60_001);
    assert "/g" in Keys(RepositoryKind, LATE, LATE_3) && Due(RepositoryKind, LATE_3, "/g", 60_001);
    SelectedIsServed(LATE, LATE_3, input);
    NothingGone(Refreshed(LATE, LATE_3, input), 60_002);
  }

  lemma LatePass4(w: World)
    requires w.identities == LATE_3.identities
    ensures Served(LATE, w, LateInput(60_003, 60_004)) != Some((IdentityKind, "/b"))
  {
    QueueFacts(IdentityKind, LATE, w, 60_003);
    assert Due(IdentityKind, w, "/a", 60_003) && "/a" in LATE;
  }

  lemma NothingGone(w: World, now: i64)
    ensures Pruned(w, now, {}, {}).identities == w.identities
  {
  }
}
