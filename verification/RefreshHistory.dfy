/** What the refresh passes leave in the tables: what the commands printed last, until when a key
    rests, and nothing about directories that are gone. */
module RefreshHistories {
  import opened Basics
  import opened RefreshTables
  import opened RefreshSchedulers
  import opened RefreshFairness

  // ---------------------------------------------------------------- one pass, row by row

  /** What the pass learned about `cwd`, if it asked and the answer could be read. */
  function Identified(cwds: seq<string>, w: World, input: PassInput, cwd: string): Option<Identity> {
    if Served(cwds, w, input) == Some((IdentityKind, cwd)) && input.revParse(cwd).Some?
    then ParseIdentity(input.revParse(cwd).value) else None
  }

  function Listed(cwds: seq<string>, w: World, input: PassInput, dir: string): Option<string> {
    if Served(cwds, w, input) == Some((RepositoryKind, dir)) then input.prList(dir) else None
  }

  /** A row after a pass: the served key's is stamped and holds the new data, or the old data and a
      retry delay; every other row is as it was. */
  ghost predicate RowAfter<P>(before: Table<P>, after: Table<P>, key: string, empty: P, served: bool, news: Option<P>,
      input: PassInput)
    requires key in after
  {
    if !served then key in before && after[key] == before[key]
    else
      && after[key].attempt == input.claimNow
      && (after[key].data, after[key].success) ==
         (if news.Some? then (news.value, input.doneNow)
          else if key in before then (before[key].data, before[key].success)
          else (empty, 0))
      && after[key].busyUntil == if news.Some? then 0 else SatAdd(input.doneNow, GROK_PR_RETRY_MS)
  }

  lemma IdentityAfterPass(cwds: seq<string>, w: World, input: PassInput, cwd: string)
    requires cwds != [] && cwd in Pass(cwds, w, input).identities
    ensures RowAfter(w.identities, Pass(cwds, w, input).identities, cwd, NO_IDENTITY,
                     Served(cwds, w, input) == Some((IdentityKind, cwd)), Identified(cwds, w, input, cwd), input)
  {
    hide Selected, Queue, ParseIdentity;
  }

  lemma RepositoryAfterPass(cwds: seq<string>, w: World, input: PassInput, dir: string)
    requires cwds != [] && dir in Pass(cwds, w, input).repositories
    ensures var listed := Listed(cwds, w, input, dir);
            RowAfter(w.repositories, Pass(cwds, w, input).repositories, dir, None,
                     Served(cwds, w, input) == Some((RepositoryKind, dir)),
                     if listed.Some? then Some(listed) else None, input)
  {
    hide Selected, Queue;
  }

  /** A key that was just served rests: for a minute after a success, for five seconds after a failure
      and then for as long as an earlier success is fresh. */
  lemma ServedKeyRests<P>(before: Table<P>, after: Table<P>, key: string, empty: P, news: Option<P>, input: PassInput,
      now: i64)
    requires key in after && RowAfter(before, after, key, empty, true, news, input)
    ensures IsDue(after, key, now) <==>
            if news.Some? then now >= 0 && !(0 < input.doneNow <= now < input.doneNow + 60_000)
            else && now >= SatAdd(input.doneNow, 5_000)
                 && !(key in before && 0 < before[key].success <= now < before[key].success + 60_000)
  {
  }

  // ---------------------------------------------------------------- what the tables show

  ghost predicate FromEmpty(cwds: seq<string>, worlds: seq<World>, inputs: seq<PassInput>) {
    Passes(cwds, worlds, inputs) && worlds[0].identities == map[] && worlds[0].repositories == map[]
  }

  /** The last answer about `cwd` that could be read since its row was last missing, and when it came. */
  function LastIdentified(cwds: seq<string>, worlds: seq<World>, inputs: seq<PassInput>, i: nat,
      cwd: string): Option<(Identity, i64)>
    requires i < |worlds| == |inputs| + 1
  {
    if i == 0 || cwd !in worlds[i].identities then None
    else
      var news := Identified(cwds, worlds[i - 1], inputs[i - 1], cwd);
      if news.Some? then Some((news.value, inputs[i - 1].doneNow))
      else LastIdentified(cwds, worlds, inputs, i - 1, cwd)
  }

  function LastListed(cwds: seq<string>, worlds: seq<World>, inputs: seq<PassInput>, i: nat,
      dir: string): Option<(string, i64)>
    requires i < |worlds| == |inputs| + 1
  {
    if i == 0 || dir !in worlds[i].repositories then None
    else
      var news := Listed(cwds, worlds[i - 1], inputs[i - 1], dir);
      if news.Some? then Some((news.value, inputs[i - 1].doneNow))
      else LastListed(cwds, worlds, inputs, i - 1, dir)
  }

  /** After any passes from empty tables every identity stored is the last one that git reported, with
      the time of that report; until there is one the row is empty. */
  lemma {:induction false} IdentitiesAreLastReported(cwds: seq<string>, worlds: seq<World>, inputs: seq<PassInput>,
      i: nat, cwd: string)
    requires FromEmpty(cwds, worlds, inputs) && i < |worlds| && cwd in worlds[i].identities
    ensures var row, last := worlds[i].identities[cwd], LastIdentified(cwds, worlds, inputs, i, cwd);
            (row.data, row.success) == if last.Some? then last.value else (NO_IDENTITY, 0)
  {
    hide Pass, Served, ParseIdentity;
    IdentityAfterPass(cwds, worlds[i - 1], inputs[i - 1], cwd);
    if cwd in worlds[i - 1].identities {
      IdentitiesAreLastReported(cwds, worlds, inputs, i - 1, cwd);
    } else {
      assert LastIdentified(cwds, worlds, inputs, i - 1, cwd) == None;
    }
  }

  /** Under a clock past the epoch the scheduler believes a stored row exactly if git has reported on it. */
  lemma BelievedIffReported(cwds: seq<string>, worlds: seq<World>, inputs: seq<PassInput>, i: nat, cwd: string)
    requires FromEmpty(cwds, worlds, inputs) && i < |worlds| && cwd in worlds[i].identities
    requires forall k :: 0 <= k < |inputs| ==> inputs[k].doneNow > 0
    ensures Validated(worlds[i].identities[cwd]).Some? <==> LastIdentified(cwds, worlds, inputs, i, cwd).Some?
  {
    hide Pass, Served, ParseIdentity, Validated;
    IdentitiesAreLastReported(cwds, worlds, inputs, i, cwd);
    ValidIffParsable(worlds[i].identities[cwd]);
    LastReportParsed(cwds, worlds, inputs, i, cwd);
  }

  lemma {:induction false} LastReportParsed(cwds: seq<string>, worlds: seq<World>, inputs: seq<PassInput>, i: nat,
      cwd: string)
    requires i < |worlds| == |inputs| + 1 && forall k :: 0 <= k < |inputs| ==> inputs[k].doneNow > 0
    ensures var last := LastIdentified(cwds, worlds, inputs, i, cwd);
            last.Some? ==> last.value.1 > 0 && exists lines :: ParseIdentity(lines) == Some(last.value.0)
  {
    hide Served, ParseIdentity;
    if i > 0 && cwd in worlds[i].identities {
      LastReportParsed(cwds, worlds, inputs, i - 1, cwd);
    }
  }

  /** And every inventory stored is the last one that was printed for the repository. */
  lemma {:induction false} InventoriesAreLastPrinted(cwds: seq<string>, worlds: seq<World>, inputs: seq<PassInput>,
      i: nat, dir: string)
    requires FromEmpty(cwds, worlds, inputs) && i < |worlds| && dir in worlds[i].repositories
    ensures var row, last := worlds[i].repositories[dir], LastListed(cwds, worlds, inputs, i, dir);
            (row.data, row.success) == if last.Some? then (Some(last.value.0), last.value.1) else (None, 0)
  {
    hide Pass, Served;
    RepositoryAfterPass(cwds, worlds[i - 1], inputs[i - 1], dir);
    if dir in worlds[i - 1].repositories {
      InventoriesAreLastPrinted(cwds, worlds, inputs, i - 1, dir);
    } else {
      assert LastListed(cwds, worlds, inputs, i - 1, dir) == None;
    }
  }

  /** No inventory is made up: one that is stored was printed by a pass that served its repository. */
  lemma {:induction false} InventoryWasPrinted(cwds: seq<string>, worlds: seq<World>, inputs: seq<PassInput>, i: nat,
      dir: string) returns (j: nat)
    requires FromEmpty(cwds, worlds, inputs) && i < |worlds|
    requires dir in worlds[i].repositories && worlds[i].repositories[dir].data.Some?
    ensures j < i && Served(cwds, worlds[j], inputs[j]) == Some((RepositoryKind, dir))
    ensures inputs[j].prList(dir) == worlds[i].repositories[dir].data
    ensures inputs[j].doneNow == worlds[i].repositories[dir].success
  {
    hide Pass, Served;
    RepositoryAfterPass(cwds, worlds[i - 1], inputs[i - 1], dir);
    if Listed(cwds, worlds[i - 1], inputs[i - 1], dir).Some? {
      j := i - 1;
    } else {
      j := InventoryWasPrinted(cwds, worlds, inputs, i - 1, dir);
    }
  }

  // ---------------------------------------------------------------- what is forgotten

  function ServedKey(kind: Kind, cwds: seq<string>, w: World, input: PassInput): set<string> {
    var served := Served(cwds, w, input);
    if served.Some? && served.value.0 == kind then {served.value.1} else {}
  }

  /** Once a minute, and at once when the clock has gone back, a pass forgets every idle directory that
      was missing both times, and then every idle repository that no directory names; and otherwise
      it forgets nothing. */
  lemma MissingAreForgotten(cwds: seq<string>, w: World, input: PassInput)
    requires cwds != []
    ensures var after := Pass(cwds, w, input);
            var now := if Served(cwds, w, input).Some? then input.doneNow else input.claimNow;
            if w.lastPrune.Some? && w.lastPrune.value <= now < w.lastPrune.value + 60_000 then
              && after.lastPrune == w.lastPrune
              && after.identities.Keys == w.identities.Keys + ServedKey(IdentityKind, cwds, w, input)
              && after.repositories.Keys == w.repositories.Keys + ServedKey(RepositoryKind, cwds, w, input)
            else
              && after.lastPrune == Some(now)
              && (forall cwd :: cwd in after.identities && cwd in input.gone && cwd in input.goneAtCommit
                      ==> after.identities[cwd].busyUntil > now)
              && (forall dir :: dir in after.repositories
                      ==> after.repositories[dir].busyUntil > now
                          || dir in NamedDirs(after.identities, after.identities.Keys))
  {
    hide Selected, Queue, ParseIdentity;
    var r := Refreshed(cwds, w, input);
    var now := if Served(cwds, w, input).Some? then input.doneNow else input.claimNow;
    if PruneIsDue(r.lastPrune, now) {
      PruneIsExact(r.identities, r.repositories, now, input.gone, input.goneAtCommit);
    }
  }
}
