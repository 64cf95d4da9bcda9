/** The branch-PR refresh tables: one row per working directory and one per repository, each claimed
    by at most one refresher at a time under a token made of the key and the claim's clock stamp. */
module RefreshTables {
  import opened Basics

  const GROK_PR_SUCCESS_FRESHNESS_MS: i64 := 60_000
  const GROK_IDENTITY_CLAIM_MS: i64 := 2_000
  const GROK_REPOSITORY_CLAIM_MS: i64 := 10_000
  const GROK_PR_RETRY_MS: i64 := 5_000

  datatype Identity = Identity(root: Option<string>, branch: Option<string>, commonDir: Option<string>)

  const NO_IDENTITY: Identity := Identity(None, None, None)

  /** A row of either table; `data` is what the last success stored. */
  datatype Row<P> = Row(data: P, success: i64, attempt: i64, busyUntil: i64)

  type Table<P> = map<string, Row<P>>

  datatype Token = Token(key: string, attempt: i64)

  // ---------------------------------------------------------------- when a row may be refreshed

  /** The scheduler's test, in Rust. */
  predicate SuccessIsFresh(success: i64, now: i64) {
    success > 0 && 0 <= SatSub(now, success) < GROK_PR_SUCCESS_FRESHNESS_MS
  }

  predicate RowIsDue<P>(row: Row<P>, now: i64) {
    row.busyUntil <= now && !SuccessIsFresh(row.success, now)
  }

  /** The claim's own condition, in SQL. */
  predicate Claimable<P>(row: Row<P>, now: i64) {
    row.busyUntil <= now
    && (row.success == 0 || row.success > now || row.success <= SatSub(now, GROK_PR_SUCCESS_FRESHNESS_MS))
  }

  /** The two tests are written apart. They agree on every row and clock reading except for one
      family: a negative success stamp less than a minute old. */
  lemma DueIsClaimable<P>(row: Row<P>, now: i64)
    ensures Claimable(row, now) ==> RowIsDue(row, now)
    ensures (RowIsDue(row, now) <==> Claimable(row, now))
            <==> row.busyUntil > now
                 || !(row.success < 0 && SatSub(now, GROK_PR_SUCCESS_FRESHNESS_MS) < row.success <= now)
  {
  }

  /** Such a row can be written down, though no run of the program stores one (`StampsInRuns`). */
  lemma DueButNotClaimable()
    ensures exists row: Row<()>, now: i64 :: RowIsDue(row, now) && !Claimable(row, now)
  {
    var row := Row((), -1, 0, 0);
    assert RowIsDue(row, 0) && !Claimable(row, 0);
  }

  // ---------------------------------------------------------------- one table

  predicate ClaimWins<P>(t: Table<P>, key: string, now: i64) {
    key !in t || Claimable(t[key], now)
  }

  function Claimed<P>(t: Table<P>, key: string, empty: P, now: i64, hold: i64): Table<P> {
    if !ClaimWins(t, key, now) then t
    else t[key := (if key in t then t[key] else Row(empty, 0, 0, 0)).(attempt := now, busyUntil := SatAdd(now, hold))]
  }

  predicate Holds<P>(t: Table<P>, token: Token) {
    token.key in t && t[token.key].attempt == token.attempt
  }

  function Completed<P>(t: Table<P>, token: Token, data: P, now: i64): Table<P> {
    if Holds(t, token) then t[token.key := t[token.key].(data := data, success := now, busyUntil := 0)] else t
  }

  function Failed<P>(t: Table<P>, token: Token, now: i64): Table<P> {
    if Holds(t, token) then t[token.key := t[token.key].(busyUntil := SatAdd(now, GROK_PR_RETRY_MS))] else t
  }

  // ---------------------------------------------------------------- pruning

  datatype PrunePlan = PrunePlan(identities: set<string>, repositories: set<string>)

  function NamedDirs(identities: Table<Identity>, cwds: set<string>): set<string> {
    set cwd | cwd in cwds && cwd in identities && identities[cwd].data.commonDir.Some? ::
        identities[cwd].data.commonDir.value
  }

  /** The first, unlocked pass over both tables. `gone` are the directories found missing. */
  function Planned(identities: Table<Identity>, repositories: Table<Option<string>>, now: i64,
      gone: set<string>): PrunePlan {
    var doomed := set cwd | cwd in identities && identities[cwd].busyUntil <= now && cwd in gone;
    var retained := NamedDirs(identities, identities.Keys - doomed);
    PrunePlan(doomed, set dir | dir in repositories && repositories[dir].busyUntil <= now && dir !in retained)
  }

  /** The transaction, which checks everything again on whatever the tables hold by then. */
  function PrunedIdentities(identities: Table<Identity>, plan: PrunePlan, now: i64,
      gone: set<string>): Table<Identity> {
    map cwd | cwd in identities && !(cwd in plan.identities && cwd in gone && identities[cwd].busyUntil <= now) ::
        identities[cwd]
  }

  function PrunedRepositories(identities: Table<Identity>, repositories: Table<Option<string>>, plan: PrunePlan,
      now: i64): Table<Option<string>> {
    map dir | dir in repositories
              && !(dir in plan.repositories && repositories[dir].busyUntil <= now
                   && dir !in NamedDirs(identities, identities.Keys))
            :: repositories[dir]
  }

  class PrCache {
    var identities: Table<Identity>
    var repositories: Table<Option<string>>

    constructor ()
      ensures identities == map[] && repositories == map[]
    {
      identities, repositories := map[], map[];
    }

    method ClaimWorktreeIdentity(cwd: string, now: i64) returns (token: Option<Token>)
      modifies this`identities
      ensures identities == Claimed(old(identities), cwd, NO_IDENTITY, now, GROK_IDENTITY_CLAIM_MS)
      ensures token == if ClaimWins(old(identities), cwd, now) then Some(Token(cwd, now)) else None
    {
      var busyUntil := SatAdd(now, GROK_IDENTITY_CLAIM_MS);
      if cwd !in identities {
        identities := identities[cwd := Row(NO_IDENTITY, 0, now, busyUntil)];
      } else if Claimable(identities[cwd], now) {
        identities := identities[cwd := identities[cwd].(attempt := now, busyUntil := busyUntil)];
      } else {
        return None;
      }
      token := Some(Token(cwd, now));
    }

    method ClaimRepositoryPrs(dir: string, now: i64) returns (token: Option<Token>)
      modifies this`repositories
      ensures repositories == Claimed(old(repositories), dir, None, now, GROK_REPOSITORY_CLAIM_MS)
      ensures token == if ClaimWins(old(repositories), dir, now) then Some(Token(dir, now)) else None
    {
      var busyUntil := SatAdd(now, GROK_REPOSITORY_CLAIM_MS);
      if dir !in repositories {
        repositories := repositories[dir := Row(None, 0, now, busyUntil)];
      } else if Claimable(repositories[dir], now) {
        repositories := repositories[dir := repositories[dir].(attempt := now, busyUntil := busyUntil)];
      } else {
        return None;
      }
      token := Some(Token(dir, now));
    }

    method CompleteWorktreeIdentity(token: Token, root: string, branch: Option<string>, commonDir: string, now: i64)
      returns (changed: bool)
      modifies this`identities
      ensures changed <==> Holds(old(identities), token)
      ensures identities == Completed(old(identities), token, Identity(Some(root), branch, Some(commonDir)), now)
    {
      changed := token.key in identities && identities[token.key].attempt == token.attempt;
      if changed {
        identities := identities[token.key :=
          identities[token.key].(data := Identity(Some(root), branch, Some(commonDir)), success := now,
                                 busyUntil := 0)];
      }
    }

    method CompleteRepositoryPrs(token: Token, prs: string, now: i64) returns (changed: bool)
      modifies this`repositories
      ensures changed <==> Holds(old(repositories), token)
      ensures repositories == Completed(old(repositories), token, Some(prs), now)
    {
      changed := token.key in repositories && repositories[token.key].attempt == token.attempt;
      if changed {
        repositories :=
            repositories[token.key := repositories[token.key].(data := Some(prs), success := now, busyUntil := 0)];
      }
    }

    method FailWorktreeIdentity(token: Token, now: i64) returns (changed: bool)
      modifies this`identities
      ensures changed <==> Holds(old(identities), token)
      ensures identities == Failed(old(identities), token, now)
    {
      changed := token.key in identities && identities[token.key].attempt == token.attempt;
      if changed {
        identities := identities[token.key := identities[token.key].(busyUntil := SatAdd(now, GROK_PR_RETRY_MS))];
      }
    }

    method FailRepositoryPrs(token: Token, now: i64) returns (changed: bool)
      modifies this`repositories
      ensures changed <==> Holds(old(repositories), token)
      ensures repositories == Failed(old(repositories), token, now)
    {
      changed := token.key in repositories && repositories[token.key].attempt == token.attempt;
      if changed {
        repositories := repositories[token.key := repositories[token.key].(busyUntil := SatAdd(now, GROK_PR_RETRY_MS))];
      }
    }

    /** The prune transaction, one delete statement at a time. */
    method CommitPrune(plan: PrunePlan, now: i64, gone: set<string>)
      modifies this
      ensures identities == PrunedIdentities(old(identities), plan, now, gone)
      ensures repositories == PrunedRepositories(identities, old(repositories), plan, now)
    {
      var todo := plan.identities;
      while todo != {}
        invariant todo <= plan.identities && repositories == old(repositories)
        invariant identities == PrunedIdentities(old(identities), PrunePlan(plan.identities - todo, {}), now, gone)
      {
        var cwd :| cwd in todo;
        todo := todo - {cwd};
        if cwd in gone && cwd in identities && identities[cwd].busyUntil <= now {
          identities := identities - {cwd};
        }
      }
      todo := plan.repositories;
      while todo != {}
        invariant todo <= plan.repositories
        invariant identities == PrunedIdentities(old(identities), plan, now, gone)
        invariant repositories ==
                  PrunedRepositories(identities, old(repositories), PrunePlan({}, plan.repositories - todo), now)
      {
        var dir :| dir in todo;
        todo := todo - {dir};
        if dir in repositories && repositories[dir].busyUntil <= now && dir !in NamedDirs(identities, identities.Keys) {
          repositories := repositories - {dir};
        }
      }
    }

    /** `gone` are the directories found missing when the plan is made, and `goneAtCommit` those found
        missing when the transaction asks again. */
    method PruneGrokPrFallback(now: i64, gone: set<string>, goneAtCommit: set<string>)
      modifies this
      ensures var plan := Planned(old(identities), old(repositories), now, gone);
              && identities == PrunedIdentities(old(identities), plan, now, goneAtCommit)
              && repositories == PrunedRepositories(identities, old(repositories), plan, now)
    {
      var plan := Planned(identities, repositories, now, gone);
      if plan.identities == {} && plan.repositories == {} {
        assert identities == PrunedIdentities(identities, plan, now, goneAtCommit);
        assert repositories == PrunedRepositories(identities, repositories, plan, now);
        return;
      }
      CommitPrune(plan, now, goneAtCommit);
    }
  }

  /** Whatever happened between the two passes of a prune, its transaction never removes a busy row,
      an identity whose directory is there, or a repository that a surviving identity names; and it
      changes no row it keeps. */
  lemma PruneIsSafe(identities: Table<Identity>, repositories: Table<Option<string>>, plan: PrunePlan, now: i64,
      gone: set<string>)
    ensures var identities' := PrunedIdentities(identities, plan, now, gone);
            var repositories' := PrunedRepositories(identities', repositories, plan, now);
            && (forall cwd :: cwd in identities && (identities[cwd].busyUntil > now || cwd !in gone)
                    ==> cwd in identities')
            && (forall dir :: dir in repositories && repositories[dir].busyUntil > now ==> dir in repositories')
            && (forall cwd, dir :: cwd in identities' && identities'[cwd].data.commonDir == Some(dir)
                                   && dir in repositories
                    ==> dir in repositories')
            && (forall cwd :: cwd in identities' ==> cwd in identities && identities'[cwd] == identities[cwd])
            && (forall dir :: dir in repositories' ==> dir in repositories && repositories'[dir] == repositories[dir])
  {
  }

  /** Undisturbed, a prune removes exactly the idle identities whose directory was missing both times,
      and then exactly the idle repositories that no remaining identity names. */
  lemma PruneIsExact(identities: Table<Identity>, repositories: Table<Option<string>>, now: i64, gone: set<string>,
      goneAtCommit: set<string>)
    ensures var plan := Planned(identities, repositories, now, gone);
            var identities' := PrunedIdentities(identities, plan, now, goneAtCommit);
            var repositories' := PrunedRepositories(identities', repositories, plan, now);
            && identities'.Keys ==
               (set cwd | cwd in identities
                          && !(cwd in gone && cwd in goneAtCommit && identities[cwd].busyUntil <= now))
            && repositories'.Keys == set dir | dir in repositories
                 && (repositories[dir].busyUntil > now
                     || exists cwd :: cwd in identities' && identities'[cwd].data.commonDir == Some(dir))
  {
    var plan := Planned(identities, repositories, now, gone);
    var identities' := PrunedIdentities(identities, plan, now, goneAtCommit);
    assert NamedDirs(identities', identities'.Keys) >= NamedDirs(identities, identities.Keys - plan.identities) by {
      forall dir | dir in NamedDirs(identities, identities.Keys - plan.identities)
        ensures dir in NamedDirs(identities', identities'.Keys)
      {
        var cwd :| cwd in identities.Keys - plan.identities && identities[cwd].data.commonDir == Some(dir);
        assert cwd in identities' && identities'[cwd] == identities[cwd];
      }
    }
    var repositories' := PrunedRepositories(identities', repositories, plan, now);
    forall dir | dir in repositories
      ensures dir in repositories' <==>
              (repositories[dir].busyUntil > now
               || exists cwd :: cwd in identities' && identities'[cwd].data.commonDir == Some(dir))
    {
      if dir in NamedDirs(identities', identities'.Keys) {
        var cwd :| cwd in identities' && identities'[cwd].data.commonDir == Some(dir);
      }
    }
  }

  // ---------------------------------------------------------------- tokens over any run

  /** One table under any number of refreshers; `Delete` is what a prune does to a row. */
  datatype Event<P> =
    | Claim(key: string, now: i64)
    | Complete(token: Token, data: P, now: i64)
    | Fail(token: Token, now: i64)
    | Delete(key: string)

  function Next<P>(t: Table<P>, e: Event<P>, empty: P, hold: i64): Table<P> {
    match e
    case Claim(key, now) => Claimed(t, key, empty, now, hold)
    case Complete(token, data, now) => Completed(t, token, data, now)
    case Fail(token, now) => Failed(t, token, now)
    case Delete(key) => t - {key}
  }

  ghost predicate Run<P(!new)>(states: seq<Table<P>>, events: seq<Event<P>>, empty: P, hold: i64) {
    && |states| == |events| + 1
    && forall i :: 0 <= i < |events| ==> states[i + 1] == Next(states[i], events[i], empty, hold)
  }

  /** Clock readings as the source takes them: milliseconds since the epoch, 0 before it. */
  predicate ReadsAtLeast<P>(e: Event<P>, least: i64) {
    e.Delete? || e.now >= least
  }

  /** From an empty table no clock of the source's stores a negative stamp; and once every reading is
      positive, a row is at any time held, or was held, or has succeeded. */
  lemma {:induction false} StampsInRuns<P(!new)>(states: seq<Table<P>>, events: seq<Event<P>>, empty: P, hold: i64,
      i: nat)
    requires Run(states, events, empty, hold) && states[0] == map[] && i < |states| && hold >= 0
    requires forall k :: 0 <= k < |events| ==> ReadsAtLeast(events[k], 0)
    ensures forall key :: key in states[i] ==>
              states[i][key].success >= 0 && states[i][key].attempt >= 0 && states[i][key].busyUntil >= 0
    ensures (forall k :: 0 <= k < |events| ==> ReadsAtLeast(events[k], 1)) ==>
              forall key :: key in states[i] ==> states[i][key].success > 0 || states[i][key].busyUntil > 0
  {
    if i > 0 {
      StampsInRuns(states, events, empty, hold, i - 1);
      assert ReadsAtLeast(events[i - 1], 0);
    }
  }

  /** In every reachable state the scheduler's test and the claim's condition agree. */
  lemma DueIsClaimableInRuns<P(!new)>(states: seq<Table<P>>, events: seq<Event<P>>, empty: P, hold: i64, i: nat,
      key: string, now: i64)
    requires Run(states, events, empty, hold) && states[0] == map[] && i < |states| && hold >= 0
    requires forall k :: 0 <= k < |events| ==> ReadsAtLeast(events[k], 0)
    requires key in states[i]
    ensures RowIsDue(states[i][key], now) <==> Claimable(states[i][key], now)
  {
    StampsInRuns(states, events, empty, hold, i);
    DueIsClaimable(states[i][key], now);
  }

  predicate Wins<P>(t: Table<P>, e: Event<P>, key: string) {
    e.Claim? && e.key == key && ClaimWins(t, key, e.now)
  }

  /** The clock strictly increases from one won claim of this key to the next. */
  ghost predicate ClockAdvances<P(!new)>(states: seq<Table<P>>, events: seq<Event<P>>, key: string)
    requires |events| <= |states|
  {
    forall i, j :: 0 <= i < j < |events| && Wins(states[i], events[i], key) && Wins(states[j], events[j], key)
                   ==> events[i].now < events[j].now
  }

  ghost predicate Superseded<P(!new)>(states: seq<Table<P>>, events: seq<Event<P>>, j: nat, i: nat, key: string)
    requires i <= |events| <= |states|
  {
    exists k :: j < k < i && (Wins(states[k], events[k], key) || events[k] == Delete(key))
  }

  /** The latest event from `j` on that won or deleted the key is a claim stamped `stamp`. */
  ghost predicate WonLast<P(!new)>(states: seq<Table<P>>, events: seq<Event<P>>, j: nat, i: nat, key: string,
      stamp: i64)
    requires i <= |events| <= |states|
  {
    exists k :: j <= k < i && Wins(states[k], events[k], key) && events[k].now == stamp
                && !Superseded(states, events, k, i, key)
  }

  /** Whatever the clock does, a token is good exactly while the latest claim that won its key, with no
      deletion since, carries its stamp. Completing or failing under a token does not use it up. */
  lemma {:induction false} TokenIsTheLastStamp<P(!new)>(states: seq<Table<P>>, events: seq<Event<P>>, empty: P,
      hold: i64, j: nat, i: nat, key: string)
    requires Run(states, events, empty, hold) && j < i < |states| && Wins(states[j], events[j], key)
    ensures Holds(states[i], Token(key, events[j].now)) <==> WonLast(states, events, j, i, key, events[j].now)
    decreases i - j
  {
    var e := events[i - 1];
    if Wins(states[i - 1], e, key) {
      assert !Superseded(states, events, i - 1, i, key);
      assert forall k :: j <= k < i - 1 ==> Superseded(states, events, k, i, key);
      assert e.now == events[j].now ==> WonLast(states, events, j, i, key, events[j].now);
    } else {
      TokenIsTheLastStamp(states, events, empty, hold, j, i - 1, key);
      if e == Delete(key) {
        assert forall k :: j <= k < i - 1 ==> Superseded(states, events, k, i, key);
      } else {
        assert forall k :: j <= k < i - 1 ==>
            (Superseded(states, events, k, i, key) <==> Superseded(states, events, k, i - 1, key));
      }
    }
  }

  /** When the clock advances from claim to claim, a token is good exactly until its key is won again or
      its row is deleted, and a deletion followed by a fresh claim does not make it good again. */
  lemma TokenGoodUntilSuperseded<P(!new)>(states: seq<Table<P>>, events: seq<Event<P>>, empty: P,
      hold: i64, j: nat, i: nat, key: string)
    requires Run(states, events, empty, hold) && j < i < |states|
    requires Wins(states[j], events[j], key) && ClockAdvances(states, events, key)
    ensures Holds(states[i], Token(key, events[j].now)) <==> !Superseded(states, events, j, i, key)
    ensures key in states[i] ==> states[i][key].attempt >= events[j].now
  {
    TokenIsTheLastStamp(states, events, empty, hold, j, i, key);
    AttemptsGrow(states, events, empty, hold, j, i, key);
  }

  lemma {:induction false} AttemptsGrow<P(!new)>(states: seq<Table<P>>, events: seq<Event<P>>, empty: P,
      hold: i64, j: nat, i: nat, key: string)
    requires Run(states, events, empty, hold) && j < i < |states|
    requires Wins(states[j], events[j], key) && ClockAdvances(states, events, key)
    ensures key in states[i] ==> states[i][key].attempt >= events[j].now
    decreases i - j
  {
    if i > j + 1 {
      AttemptsGrow(states, events, empty, hold, j, i - 1, key);
    }
  }

  /** A superseded token never changes a row again: every later completion or failure under it
      leaves the table as it is. */
  lemma SupersededTokenIsInert<P(!new)>(states: seq<Table<P>>, events: seq<Event<P>>, empty: P, hold: i64, j: nat,
      k: nat, i: nat, key: string)
    requires Run(states, events, empty, hold) && j < k < i < |events|
    requires Wins(states[j], events[j], key) && Wins(states[k], events[k], key) && ClockAdvances(states, events, key)
    requires (events[i].Complete? || events[i].Fail?) && events[i].token == Token(key, events[j].now)
    ensures states[i + 1] == states[i]
  {
    TokenGoodUntilSuperseded(states, events, empty, hold, j, i, key);
    assert Superseded(states, events, j, i, key);
  }

  /** Without an advancing clock two claims can share one token: a claim, its completion stamped
      later, and a second claim back at the first claim's clock reading. */
  lemma EqualStampsShareAToken(key: string, hold: i64)
    ensures exists states: seq<Table<()>>, events: seq<Event<()>> ::
              && |events| == 3 && Run(states, events, (), hold)
              && Wins(states[0], events[0], key) && Wins(states[2], events[2], key)
              && Holds(states[3], Token(key, events[0].now))
  {
    var events: seq<Event<()>> := [Claim(key, 5), Complete(Token(key, 5), (), 6), Claim(key, 5)];
    var s0: Table<()> := map[];
    var s1 := Next(s0, events[0], (), hold);
    var s2 := Next(s1, events[1], (), hold);
    var s3 := Next(s2, events[2], (), hold);
    var states := [s0, s1, s2, s3];
    assert s2[key] == Row((), 6, 5, 0);
    assert Run(states, events, (), hold);
    assert Wins(states[2], events[2], key);
  }

  // ---------------------------------------------------------------- how long a row is held

  /** The events that set until when a row is held. */
  predicate Settles<P>(t: Table<P>, e: Event<P>, key: string) {
    || Wins(t, e, key)
    || ((e.Complete? || e.Fail?) && e.token.key == key && Holds(t, e.token))
    || e == Delete(key)
  }

  /** A claim holds the row for its command's time, a failure for the retry delay, a success not at all. */
  function HeldUntil<P>(e: Event<P>, hold: i64): i64
    requires !e.Delete?
  {
    match e
    case Claim(_, now) => SatAdd(now, hold)
    case Complete(_, _, _) => 0
    case Fail(_, now) => SatAdd(now, GROK_PR_RETRY_MS)
  }

  lemma SettleStep<P>(t: Table<P>, e: Event<P>, empty: P, hold: i64, key: string)
    ensures var t' := Next(t, e, empty, hold);
            if Settles(t, e, key) then
              if e.Delete? then key !in t' else key in t' && t'[key].busyUntil == HeldUntil(e, hold)
            else
              (key in t' <==> key in t) && (key in t ==> t'[key] == t[key])
  {
  }

  /** A row is as the last event that settled it left it. */
  lemma {:induction false} SettledLast<P(!new)>(states: seq<Table<P>>, events: seq<Event<P>>, empty: P, hold: i64,
      j: nat, i: nat, key: string)
    requires Run(states, events, empty, hold) && j < i < |states| && Settles(states[j], events[j], key)
    requires forall k :: j < k < i ==> !Settles(states[k], events[k], key)
    ensures if events[j].Delete? then key !in states[i]
            else key in states[i] && states[i][key].busyUntil == HeldUntil(events[j], hold)
    decreases i - j
  {
    hide Next, Settles, HeldUntil;
    SettleStep(states[i - 1], events[i - 1], empty, hold, key);
    if j + 1 < i {
      SettledLast(states, events, empty, hold, j, i - 1, key);
    }
  }

  predicate Succeeds<P>(t: Table<P>, e: Event<P>, key: string) {
    e.Complete? && e.token.key == key && Holds(t, e.token)
  }

  lemma SuccessStep<P>(t: Table<P>, e: Event<P>, empty: P, hold: i64, key: string)
    ensures var t' := Next(t, e, empty, hold);
            && (Succeeds(t, e, key) || (key in t && e != Delete(key)) ==> key in t')
            && (key in t' ==>
                  (t'[key].data, t'[key].success) ==
                  if Succeeds(t, e, key) then (e.data, e.now)
                  else if key in t then (t[key].data, t[key].success)
                  else (empty, 0))
  {
  }

  /** A row shows what the last success since its deletion stored, and when. */
  lemma {:induction false} SucceededLast<P(!new)>(states: seq<Table<P>>, events: seq<Event<P>>, empty: P, hold: i64,
      j: nat, i: nat, key: string)
    requires Run(states, events, empty, hold) && j < i < |states| && Succeeds(states[j], events[j], key)
    requires forall k :: j < k < i ==> !Succeeds(states[k], events[k], key) && events[k] != Delete(key)
    ensures key in states[i] && (states[i][key].data, states[i][key].success) == (events[j].data, events[j].now)
    decreases i - j
  {
    hide Next, Succeeds;
    SuccessStep(states[i - 1], events[i - 1], empty, hold, key);
    if j + 1 < i {
      SucceededLast(states, events, empty, hold, j, i - 1, key);
    }
  }

  /** Exactly when a claim wins a row that has been settled: at the end of the hold, to the millisecond,
      unless the last success is less than a minute old and not in the future; a deleted key at once. */
  lemma WinsWhenLapsed<P(!new)>(states: seq<Table<P>>, events: seq<Event<P>>, empty: P, hold: i64, j: nat, i: nat,
      key: string)
    requires Run(states, events, empty, hold) && j < i < |events| && Settles(states[j], events[j], key)
    requires forall k :: j < k < i ==> !Settles(states[k], events[k], key)
    requires events[i].Claim? && events[i].key == key
    ensures events[j].Delete? ==> Wins(states[i], events[i], key)
    ensures !events[j].Delete? ==>
              && key in states[i]
              && var success, now := states[i][key].success, events[i].now;
                 Wins(states[i], events[i], key) <==>
                 HeldUntil(events[j], hold) <= now
                 && !(success != 0 && success != I64_MIN && success <= now < success + 60_000)
  {
    hide Next, Settles;
    SettledLast(states, events, empty, hold, j, i, key);
  }

  /** What a command's end or a claim keeps later claims from, by the clock: the hold, and for a minute
      the success. */
  predicate Refuses<P>(e: Event<P>, hold: i64, now: i64)
    requires !e.Delete?
  {
    now < HeldUntil(e, hold) || (e.Complete? && 0 < e.now <= now < e.now + 60_000)
  }

  /** One refresher at a time. After a claim that won, a failure or a success, nobody wins the key at a
      clock at which these refuse it, unless its row is deleted or somebody else's command ends first. */
  lemma {:induction false} HoldExcludes<P(!new)>(states: seq<Table<P>>, events: seq<Event<P>>, empty: P, hold: i64,
      j: nat, i: nat, key: string)
    requires Run(states, events, empty, hold) && j < i < |events|
    requires Settles(states[j], events[j], key) && !events[j].Delete?
    requires forall k :: j < k < i && !events[k].Claim? ==> !Settles(states[k], events[k], key)
    requires forall k :: j < k <= i && events[k].Claim? && events[k].key == key ==>
               Refuses(events[j], hold, events[k].now)
    ensures forall k :: j < k <= i ==> !Wins(states[k], events[k], key)
    decreases i - j
  {
    hide Next;
    if j + 1 < i {
      HoldExcludes(states, events, empty, hold, j, i - 1, key);
    }
    assert forall k :: j < k < i ==> !Settles(states[k], events[k], key);
    SettledLast(states, events, empty, hold, j, i, key);
    if events[j].Complete? {
      SucceededLast(states, events, empty, hold, j, i, key);
    }
  }
}
