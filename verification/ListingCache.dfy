/** The listing cache that many viewer processes share: one lease row and one payload per scope.

    `ViewerDb` is the table as one process drives it. The second half puts any number of viewers
    in one run, with every operation an atomic step (the non-transactional read is two steps) and
    with a clock that may jump in either direction. */
module ListingCache {
  import opened Basics
  import opened Sessions

  datatype Session = Session(backend: BackendKind, id: string, title: string)

  datatype Scope = Scope(backend: BackendKind, name: string)

  /** The JSON decoder, kept abstract: stored text to sessions, or None for malformed text. */
  type Parser = string -> Option<seq<Session>>

  datatype Row = Row(refreshedAt: i64, generation: int, owner: Option<string>, leaseUntil: i64)

  datatype Store = Store(rows: map<Scope, Row>, payloads: map<Scope, string>)

  datatype Lease = Lease(scope: Scope, owner: string, generation: int)

  datatype Snapshot = Snapshot(sessions: seq<Session>, json: Option<string>, publishedAt: i64, generation: int)

  datatype ClaimResult = Bypass | Fresh(snapshot: Snapshot) | Unchanged | LeaseHeld | Claimed(lease: Lease)

  datatype ReadResult = ReadFresh(snapshot: Snapshot) | ReadStale(snapshot: Snapshot) | Miss

  datatype WriteResult = Published | Fenced | NotPublishable

  const LISTING_CACHE_FRESHNESS_MS: i64 := 2_000
  const LISTING_LEASE_HORIZON_MS: i64 := 60_000

  predicate IsFresh(refreshedAt: i64, now: i64, freshness: i64) {
    refreshedAt > 0 && freshness > 0 && 0 <= SatSub(now, refreshedAt) < freshness
  }

  function Horizon(leaseMs: i64): i64 {
    Max(Max(leaseMs, 0), LISTING_LEASE_HORIZON_MS)
  }

  predicate IsHeld(row: Row, now: i64, leaseMs: i64) {
    row.owner.Some? && now < row.leaseUntil <= SatAdd(now, Horizon(leaseMs))
  }

  /** A payload counts only if it parses and every session in it belongs to the scope's backend. */
  function Decode(parse: Parser, scope: Scope, json: string, publishedAt: i64, generation: int): Option<Snapshot> {
    match parse(json)
    case None => None
    case Some(sessions) =>
      if exists s | s in sessions :: s.backend != scope.backend then None
      else Some(Snapshot(sessions, None, publishedAt, generation))
  }

  /** The payload as read beside metadata row `row`, which may be older than the payload. */
  function SnapshotOf(parse: Parser, store: Store, scope: Scope, row: Row): Option<Snapshot> {
    if scope !in store.payloads then None
    else Decode(parse, scope, store.payloads[scope], row.refreshedAt, row.generation)
  }

  /** The row still carries exactly this lease. Every write is fenced on it. */
  predicate InRow(store: Store, lease: Lease) {
    lease.scope in store.rows
    && store.rows[lease.scope].generation == lease.generation
    && store.rows[lease.scope].owner == Some(lease.owner)
  }

  // ---------------------------------------------------------------- the operations on values

  function RowAfterClaim(store: Store, scope: Scope, now: i64, leaseMs: i64, owner: string): Row {
    var until := SatAdd(now, Max(leaseMs, 0));
    if scope in store.rows then store.rows[scope].(owner := Some(owner), leaseUntil := until)
    else Row(0, 0, Some(owner), until)
  }

  function ClaimOutcome(parse: Parser, store: Store, scope: Scope, known: Option<int>, now: i64, freshness: i64,
      leaseMs: i64, owner: string): ClaimResult
  {
    if scope !in store.rows then Claimed(Lease(scope, owner, 0)) else
    var row := store.rows[scope];
    var current := IsFresh(row.refreshedAt, now, freshness);
    var snapshot := SnapshotOf(parse, store, scope, row);
    if known == Some(row.generation) && (current || IsHeld(row, now, leaseMs)) then Unchanged
    else if current && snapshot.Some? then Fresh(snapshot.value)
    else if IsHeld(row, now, leaseMs) then LeaseHeld
    else Claimed(Lease(scope, owner, row.generation))
  }

  function ClaimStore(parse: Parser, store: Store, scope: Scope, known: Option<int>, now: i64, freshness: i64,
      leaseMs: i64, owner: string): Store
  {
    if ClaimOutcome(parse, store, scope, known, now, freshness, leaseMs, owner).Claimed?
    then store.(rows := store.rows[scope := RowAfterClaim(store, scope, now, leaseMs, owner)])
    else store
  }

  function RenewStore(store: Store, lease: Lease, now: i64, leaseMs: i64): Store {
    if InRow(store, lease)
    then store.(rows := store.rows[lease.scope := store.rows[lease.scope].(leaseUntil := SatAdd(now, Max(leaseMs, 1)))])
    else store
  }

  function PublishStore(store: Store, lease: Lease, json: string, now: i64): Store {
    if InRow(store, lease)
    then Store(store.rows[lease.scope := Row(now, lease.generation + 1, None, 0)], store.payloads[lease.scope := json])
    else store
  }

  function FailStore(store: Store, lease: Lease): Store {
    if InRow(store, lease)
    then store.(rows := store.rows[lease.scope := store.rows[lease.scope].(owner := None, leaseUntil := 0)])
    else store
  }

  function InvalidateStore(store: Store, scope: Scope): Store {
    if scope in store.rows
    then store.(rows := store.rows[scope := Row(0, store.rows[scope].generation + 1, None, 0)])
    else store
  }

  // ---------------------------------------------------------------- the table, updated in place

  class ViewerDb {
    const parse: Parser
    var rows: map<Scope, Row>
    var payloads: map<Scope, string>

    function Contents(): Store
      reads this
    {
      Store(rows, payloads)
    }

    constructor (parse: Parser)
      ensures this.parse == parse && Contents() == Store(map[], map[])
    {
      this.parse := parse;
      rows, payloads := map[], map[];
    }

    /** The two reads of a display snapshot, with nothing in between. */
    method ReadListingSnapshot(scope: Scope, now: i64) returns (result: ReadResult)
      ensures result.Miss? <==> scope !in rows || SnapshotOf(parse, Contents(), scope, rows[scope]).None?
      ensures !result.Miss? ==>
                && Some(result.snapshot) == SnapshotOf(parse, Contents(), scope, rows[scope])
                && (result.ReadFresh? <==> IsFresh(rows[scope].refreshedAt, now, LISTING_CACHE_FRESHNESS_MS))
    {
      if scope !in rows { return Miss; }
      var row := rows[scope];
      if scope !in payloads { return Miss; }
      var snapshot := Decode(parse, scope, payloads[scope], row.refreshedAt, row.generation);
      if snapshot.None? { return Miss; }
      if IsFresh(row.refreshedAt, now, LISTING_CACHE_FRESHNESS_MS) {
        result := ReadFresh(snapshot.value);
      } else {
        result := ReadStale(snapshot.value);
      }
    }

    method ClaimListingRefresh(scope: Option<Scope>, known: Option<int>, now: i64, freshness: i64, leaseMs: i64,
        owner: string) returns (result: ClaimResult)
      modifies this`rows
      ensures scope.None? ==> result == Bypass && Contents() == old(Contents())
      ensures scope.Some? ==>
                && result == ClaimOutcome(parse, old(Contents()), scope.value, known, now, freshness, leaseMs, owner)
                && Contents() == ClaimStore(parse, old(Contents()), scope.value, known, now, freshness, leaseMs, owner)
    {
      if scope.None? { return Bypass; }
      var generation := 0;
      if scope.value in rows {
        var row := rows[scope.value];
        if IsFresh(row.refreshedAt, now, freshness) {
          if known == Some(row.generation) { return Unchanged; }
          var snapshot := SnapshotOf(parse, Contents(), scope.value, row);
          if snapshot.Some? { return Fresh(snapshot.value); }
        }
        if IsHeld(row, now, leaseMs) {
          if known == Some(row.generation) { return Unchanged; }
          return LeaseHeld;
        }
        generation := row.generation;
      }
      var until := SatAdd(now, Max(leaseMs, 0));
      if scope.value in rows {
        rows := rows[scope.value := rows[scope.value].(owner := Some(owner), leaseUntil := until)];
      } else {
        rows := rows[scope.value := Row(0, generation, Some(owner), until)];
      }
      result := Claimed(Lease(scope.value, owner, generation));
    }

    /** One turn of the guard thread. The thread stops at the first turn that changes nothing. */
    method Renew(lease: Lease, now: i64, leaseMs: i64) returns (changed: bool)
      modifies this`rows
      ensures changed <==> InRow(old(Contents()), lease)
      ensures Contents() == RenewStore(old(Contents()), lease, now, leaseMs)
    {
      changed := InRow(Contents(), lease);
      if changed {
        rows := rows[lease.scope := rows[lease.scope].(leaseUntil := SatAdd(now, Max(leaseMs, 1)))];
      }
    }

    /** The payload is rewritten only when its bytes differ; the generation advances either way. */
    method PublishListing(lease: Lease, snapshot: Snapshot, now: i64) returns (result: WriteResult)
      modifies this`rows, this`payloads
      ensures snapshot.json.None? ==> result == NotPublishable && Contents() == old(Contents())
      ensures snapshot.json.Some? ==>
                && result == (if InRow(old(Contents()), lease) then Published else Fenced)
                && Contents() == PublishStore(old(Contents()), lease, snapshot.json.value, now)
    {
      if snapshot.json.None? { return NotPublishable; }
      var json := snapshot.json.value;
      if !InRow(Contents(), lease) { return Fenced; }
      rows := rows[lease.scope := Row(now, lease.generation + 1, None, 0)];
      var sameBytes := lease.scope in payloads && payloads[lease.scope] == json;
      if !sameBytes {
        payloads := payloads[lease.scope := json];
      }
      assert payloads == old(payloads)[lease.scope := json];
      result := Published;
    }

    method FailListingRefresh(lease: Lease) returns (changed: bool)
      modifies this`rows
      ensures changed <==> InRow(old(Contents()), lease)
      ensures Contents() == FailStore(old(Contents()), lease)
    {
      changed := InRow(Contents(), lease);
      if changed {
        rows := rows[lease.scope := rows[lease.scope].(owner := None, leaseUntil := 0)];
      }
    }

    method InvalidateListingScope(scope: Option<Scope>) returns (changed: bool)
      modifies this`rows
      ensures changed <==> scope.Some? && scope.value in old(rows)
      ensures Contents() == if scope.Some? then InvalidateStore(old(Contents()), scope.value) else old(Contents())
    {
      changed := scope.Some? && scope.value in rows;
      if changed {
        rows := rows[scope.value := Row(0, rows[scope.value].generation + 1, None, 0)];
      }
    }
  }

  // ---------------------------------------------------------------- clock steps

  /** No stored deadline, however far in the future a rolled-back clock left it, makes a scope look
      held at two clock readings a full horizon apart; freshness is bounded the same way. */
  lemma ClockStepCannotPinScope(row: Row, now: i64, later: i64, freshness: i64, leaseMs: i64)
    ensures IsHeld(row, now, leaseMs) && IsHeld(row, later, leaseMs) ==> later - now < Horizon(leaseMs)
    ensures IsFresh(row.refreshedAt, now, freshness) && IsFresh(row.refreshedAt, later, freshness)
            ==> later - now < freshness
    ensures IsFresh(row.refreshedAt, now, freshness) ==> row.refreshedAt <= now
  {
  }

  function LeaseOn(store: Store, scope: Scope, owner: string): Lease {
    Lease(scope, owner, if scope in store.rows then store.rows[scope].generation else 0)
  }

  /** After a crash one horizon of clock progress lets a claim through. A row seen held is claimable
      one horizon later. Whatever its deadline, even one that a rolled-back clock left far ahead, a
      row that is not fresh is claimable at one at least of two readings a horizon apart. */
  lemma AbandonedScopeIsClaimable(parse: Parser, store: Store, scope: Scope, known: Option<int>, seen: i64, now: i64,
      freshness: i64, leaseMs: i64, owner: string)
    requires scope in store.rows ==> !IsFresh(store.rows[scope].refreshedAt, now, freshness)
    requires now - seen >= Horizon(leaseMs)
    ensures (scope in store.rows ==> IsHeld(store.rows[scope], seen, leaseMs)) ==>
              ClaimOutcome(parse, store, scope, known, now, freshness, leaseMs, owner) ==
                  Claimed(LeaseOn(store, scope, owner))
    ensures (scope in store.rows ==> !IsFresh(store.rows[scope].refreshedAt, seen, freshness)) ==>
              || ClaimOutcome(parse, store, scope, known, seen, freshness, leaseMs, owner) ==
                 Claimed(LeaseOn(store, scope, owner))
              || ClaimOutcome(parse, store, scope, known, now, freshness, leaseMs, owner) ==
                 Claimed(LeaseOn(store, scope, owner))
  {
  }

  // ---------------------------------------------------------------- any number of viewers

  /** What a reader remembers: a generation and the payload text it displayed for it. */
  datatype Cursor = Cursor(scope: Scope, generation: int, text: string)

  /** `owners` are the lease names ever used and `leases` the leases ever handed out; `reading`
      holds the metadata of every two-step read that is between its steps. */
  datatype System = System(store: Store, owners: set<string>, leases: set<Lease>,
                           reading: map<nat, (Scope, Row)>, cursors: set<Cursor>)

  datatype Event =
    | Claim(scope: Scope, known: Option<int>, now: i64, freshness: i64, leaseMs: i64, owner: string)
    | Renew(lease: Lease, now: i64, leaseMs: i64)
    | Publish(lease: Lease, json: string, now: i64)
    | Fail(lease: Lease)
    | Invalidate(scope: Scope)
    | ReadMeta(reader: nat, scope: Scope)
    | ReadPayload(reader: nat)

  function Outcome(parse: Parser, s: System, e: Event): ClaimResult
    requires e.Claim?
  {
    ClaimOutcome(parse, s.store, e.scope, e.known, e.now, e.freshness, e.leaseMs, e.owner)
  }

  /** Lease values are private to the module, so only leases that were handed out come back, and
      owner names (process, clock, sequence number) are never reused. */
  predicate Enabled(s: System, e: Event) {
    match e
    case Claim(_, _, _, _, _, owner) => owner !in s.owners
    case Renew(lease, _, _) => lease in s.leases
    case Publish(lease, _, _) => lease in s.leases
    case Fail(lease) => lease in s.leases
    case Invalidate(_) => true
    case ReadMeta(reader, _) => reader !in s.reading
    case ReadPayload(reader) => reader in s.reading
  }

  function Next(parse: Parser, s: System, e: Event): System
    requires Enabled(s, e)
  {
    match e
    case Claim(scope, known, now, freshness, leaseMs, owner) =>
      var store := ClaimStore(parse, s.store, scope, known, now, freshness, leaseMs, owner);
      (match Outcome(parse, s, e)
       case Claimed(lease) => s.(store := store, owners := s.owners + {owner}, leases := s.leases + {lease})
       case Fresh(snapshot) =>
         s.(cursors := s.cursors + {Cursor(scope, snapshot.generation, s.store.payloads[scope])})
       case _ => s)
    case Renew(lease, now, leaseMs) => s.(store := RenewStore(s.store, lease, now, leaseMs))
    case Publish(lease, json, now) =>
      if InRow(s.store, lease)
      then s.(store := PublishStore(s.store, lease, json, now),
              cursors := s.cursors + {Cursor(lease.scope, lease.generation + 1, json)})
      else s
    case Fail(lease) => s.(store := FailStore(s.store, lease))
    case Invalidate(scope) => s.(store := InvalidateStore(s.store, scope))
    case ReadMeta(reader, scope) =>
      if scope in s.store.rows then s.(reading := s.reading[reader := (scope, s.store.rows[scope])]) else s
    case ReadPayload(reader) =>
      var (scope, row) := s.reading[reader];
      var rest := s.(reading := s.reading - {reader});
      if SnapshotOf(parse, s.store, scope, row).Some?
      then rest.(cursors := s.cursors + {Cursor(scope, row.generation, s.store.payloads[scope])})
      else rest
  }

  /** Any table contents, including a lease some earlier process left behind. */
  ghost predicate Initial(s: System) {
    && (forall scope :: scope in s.store.rows && s.store.rows[scope].owner.Some?
            ==> s.store.rows[scope].owner.value in s.owners)
    && s.leases == {} && s.reading == map[] && s.cursors == {}
  }

  ghost predicate Run(parse: Parser, states: seq<System>, events: seq<Event>) {
    && |states| == |events| + 1
    && Initial(states[0])
    && forall i :: 0 <= i < |events|
           ==> Enabled(states[i], events[i]) && states[i + 1] == Next(parse, states[i], events[i])
  }

  // ---------------------------------------------------------------- what every step keeps

  ghost predicate NamesKnown(s: System) {
    && (forall scope :: scope in s.store.rows && s.store.rows[scope].owner.Some?
            ==> s.store.rows[scope].owner.value in s.owners)
    && (forall lease :: lease in s.leases ==> lease.owner in s.owners)
  }

  ghost predicate GenerationAtLeast(store: Store, scope: Scope, generation: int) {
    scope in store.rows && store.rows[scope].generation >= generation
  }

  /** The heart of the cursor protocol: a cursor never runs ahead of the row, and when the two
      agree the payload is the text the reader saw. */
  ghost predicate CursorHonest(store: Store, c: Cursor) {
    && GenerationAtLeast(store, c.scope, c.generation)
    && (store.rows[c.scope].generation == c.generation
        ==> c.scope in store.payloads && store.payloads[c.scope] == c.text)
  }

  ghost predicate Inv(s: System) {
    && NamesKnown(s)
    && (forall c :: c in s.cursors ==> CursorHonest(s.store, c))
    && (forall r :: r in s.reading ==> GenerationAtLeast(s.store, s.reading[r].0, s.reading[r].1.generation))
  }

  /** The payload of a scope, or the lack of one. */
  function PayloadOf(store: Store, scope: Scope): Option<string> {
    if scope in store.payloads then Some(store.payloads[scope]) else None
  }

  /** Generations only grow, and a payload changes only together with a larger generation. */
  ghost predicate Advances(before: Store, after: Store) {
    forall scope :: scope in before.rows ==>
      && GenerationAtLeast(after, scope, before.rows[scope].generation)
      && (after.rows[scope].generation == before.rows[scope].generation
          ==> PayloadOf(after, scope) == PayloadOf(before, scope))
  }

  lemma StepAdvances(parse: Parser, s: System, e: Event)
    requires Enabled(s, e)
    ensures Advances(s.store, Next(parse, s, e).store)
  {
  }

  lemma StepKeepsInv(parse: Parser, s: System, e: Event)
    requires Inv(s) && Enabled(s, e)
    ensures Inv(Next(parse, s, e))
  {
    StepAdvances(parse, s, e);
    var t := Next(parse, s, e);
    forall c | c in t.cursors
      ensures CursorHonest(t.store, c)
    {
      if c in s.cursors { assert CursorHonest(s.store, c); }
    }
  }

  lemma {:induction false} RunKeepsInv(parse: Parser, states: seq<System>, events: seq<Event>, k: nat)
    requires Run(parse, states, events) && k < |states|
    ensures Inv(states[k])
  {
    if k > 0 {
      RunKeepsInv(parse, states, events, k - 1);
      StepKeepsInv(parse, states[k - 1], events[k - 1]);
    }
  }

  /** Over any stretch of a run. */
  lemma {:induction false} RunAdvances(parse: Parser, states: seq<System>, events: seq<Event>, i: nat, k: nat,
      scope: Scope)
    requires Run(parse, states, events) && i <= k < |states| && scope in states[i].store.rows
    ensures GenerationAtLeast(states[k].store, scope, states[i].store.rows[scope].generation)
    ensures states[k].store.rows[scope].generation == states[i].store.rows[scope].generation ==>
              PayloadOf(states[k].store, scope) == PayloadOf(states[i].store, scope)
    decreases k - i
  {
    if i < k {
      RunAdvances(parse, states, events, i, k - 1, scope);
      StepAdvances(parse, states[k - 1], events[k - 1]);
    }
  }

  // ---------------------------------------------------------------- fencing

  predicate Takes(parse: Parser, s: System, e: Event, lease: Lease) {
    e.Claim? && Outcome(parse, s, e) == Claimed(lease)
  }

  predicate LandsOn(s: System, e: Event, scope: Scope) {
    e.Publish? && e.lease.scope == scope && InRow(s.store, e.lease)
  }

  /** The events that take a lease off `scope` and put none in its place. */
  predicate Frees(s: System, e: Event, scope: Scope) {
    || LandsOn(s, e, scope)
    || (e.Fail? && e.lease.scope == scope && InRow(s.store, e.lease))
    || (e.Invalidate? && e.scope == scope)
  }

  /** The events that end somebody's lease on `scope`: those, and a claim that takes it. Renewals,
      refused writes and reads are not among them. */
  predicate Disturbs(parse: Parser, s: System, e: Event, scope: Scope) {
    Frees(s, e, scope) || (e.Claim? && e.scope == scope && Outcome(parse, s, e).Claimed?)
  }

  /** Once fenced, fenced for good; and the only way in is the claim that minted the lease. */
  lemma FenceIsFinal(parse: Parser, s: System, e: Event, lease: Lease)
    requires Inv(s) && Enabled(s, e)
    requires lease.owner in s.owners && !InRow(s.store, lease)
    ensures !InRow(Next(parse, s, e).store, lease)
  {
  }

  lemma DisturbanceDecides(parse: Parser, s: System, e: Event, lease: Lease)
    requires Inv(s) && Enabled(s, e) && InRow(s.store, lease)
    ensures InRow(Next(parse, s, e).store, lease) <==> !Disturbs(parse, s, e, lease.scope)
  {
  }

  lemma {:induction false} LeaseWasClaimed(parse: Parser, states: seq<System>, events: seq<Event>, i: nat, lease: Lease)
    returns (j: nat)
    requires Run(parse, states, events) && i < |states| && lease in states[i].leases
    ensures j < i && Takes(parse, states[j], events[j], lease)
  {
    if lease in states[i - 1].leases {
      j := LeaseWasClaimed(parse, states, events, i - 1, lease);
    } else {
      j := i - 1;
    }
  }

  lemma {:induction false} FencedFrom(parse: Parser, states: seq<System>, events: seq<Event>, k: nat, i: nat,
      lease: Lease)
    requires Run(parse, states, events) && k <= i < |states|
    requires lease.owner in states[k].owners && !InRow(states[k].store, lease)
    ensures lease.owner in states[i].owners && !InRow(states[i].store, lease)
    decreases i - k
  {
    if k < i {
      FencedFrom(parse, states, events, k, i - 1, lease);
      RunKeepsInv(parse, states, events, i - 1);
      FenceIsFinal(parse, states[i - 1], events[i - 1], lease);
    }
  }

  ghost predicate Undisturbed(parse: Parser, states: seq<System>, events: seq<Event>, j: nat, i: nat, scope: Scope)
    requires i <= |events| <= |states|
  {
    forall k :: j < k < i ==> !Disturbs(parse, states[k], events[k], scope)
  }

  /** A publish lands if and only if, since the claim that minted its lease, no claim, publish,
      failure or invalidation landed on the scope. The deadline does not matter: a lease that has
      run out but that nobody took over still publishes. */
  lemma PublishesIffUndisturbed(parse: Parser, states: seq<System>, events: seq<Event>, j: nat, i: nat, lease: Lease)
    requires Run(parse, states, events) && j < i < |states|
    requires Takes(parse, states[j], events[j], lease)
    ensures InRow(states[i].store, lease) <==> Undisturbed(parse, states, events, j, i, lease.scope)
    ensures InRow(states[i].store, lease) ==> forall k :: j < k <= i ==> InRow(states[k].store, lease)
    decreases i - j
  {
    assert InRow(states[j + 1].store, lease);
    if j + 1 < i {
      PublishesIffUndisturbed(parse, states, events, j, i - 1, lease);
      RunKeepsInv(parse, states, events, i - 1);
      if InRow(states[i - 1].store, lease) {
        DisturbanceDecides(parse, states[i - 1], events[i - 1], lease);
      } else {
        OwnerRemembered(parse, states, events, j + 1, i - 1, lease.owner);
        FenceIsFinal(parse, states[i - 1], events[i - 1], lease);
      }
    }
  }

  lemma {:induction false} OwnerRemembered(parse: Parser, states: seq<System>, events: seq<Event>, j: nat, i: nat,
      owner: string)
    requires Run(parse, states, events) && j <= i < |states| && owner in states[j].owners
    ensures owner in states[i].owners
    decreases i - j
  {
    if j < i { OwnerRemembered(parse, states, events, j, i - 1, owner); }
  }

  ghost predicate Lands(states: seq<System>, events: seq<Event>, i: nat)
    requires i < |events| <= |states|
  {
    events[i].Publish? && LandsOn(states[i], events[i], events[i].lease.scope)
  }

  /** Every publish that lands used a lease claimed earlier in the run that sat in the row without
      a break ever since. */
  lemma PublishedLeaseWasUnbroken(parse: Parser, states: seq<System>, events: seq<Event>, i: nat) returns (j: nat)
    requires Run(parse, states, events) && i < |events| && Lands(states, events, i)
    ensures j < i && Takes(parse, states[j], events[j], events[i].lease)
    ensures forall k :: j < k <= i ==> InRow(states[k].store, events[i].lease)
    ensures Undisturbed(parse, states, events, j, i, events[i].lease.scope)
  {
    j := LeaseWasClaimed(parse, states, events, i, events[i].lease);
    PublishesIffUndisturbed(parse, states, events, j, i, events[i].lease);
  }

  /** Two publishes that land on one scope have different generations, hence different leases. */
  lemma GenerationPublishedOnce(parse: Parser, states: seq<System>, events: seq<Event>, i: nat, k: nat)
    requires Run(parse, states, events) && i < k < |events|
    requires Lands(states, events, i) && Lands(states, events, k)
    requires events[i].lease.scope == events[k].lease.scope
    ensures events[i].lease.generation < events[k].lease.generation
    ensures events[i].lease != events[k].lease
  {
    RunAdvances(parse, states, events, i + 1, k, events[i].lease.scope);
  }

  // ---------------------------------------------------------------- how long a lease holds

  /** The deadline that a claim or a renewal writes. */
  function Until(e: Event): i64
    requires e.Claim? || e.Renew?
  {
    SatAdd(e.now, if e.leaseMs > 0 then e.leaseMs else if e.Claim? then 0 else 1)
  }

  /** The events that set the deadline of `lease`: the claim that takes it and the renewals that land. */
  predicate Extends(parse: Parser, s: System, e: Event, lease: Lease) {
    Takes(parse, s, e, lease) || (e.Renew? && e.lease == lease && InRow(s.store, lease))
  }

  /** Seen from `claim`, the deadline lies ahead, and no further than a lease may. */
  predicate Ahead(deadline: i64, claim: Event)
    requires claim.Claim?
  {
    0 < deadline - claim.now <= Max(claim.leaseMs, LISTING_LEASE_HORIZON_MS)
  }

  lemma ExtendsInRow(parse: Parser, s: System, e: Event, lease: Lease)
    requires Enabled(s, e) && Extends(parse, s, e, lease)
    ensures InRow(Next(parse, s, e).store, lease)
    ensures Next(parse, s, e).store.rows[lease.scope].leaseUntil == Until(e)
  {
  }

  lemma DeadlineKept(parse: Parser, s: System, e: Event, lease: Lease)
    requires Inv(s) && Enabled(s, e) && InRow(s.store, lease) && InRow(Next(parse, s, e).store, lease)
    requires !Extends(parse, s, e, lease)
    ensures Next(parse, s, e).store.rows[lease.scope].leaseUntil == s.store.rows[lease.scope].leaseUntil
  {
  }

  /** A lease still in the row carries the deadline of its claim or of its last renewal. */
  lemma {:induction false} DeadlineIsLastSet(parse: Parser, states: seq<System>, events: seq<Event>, m: nat, i: nat,
      lease: Lease)
    requires Run(parse, states, events) && m < i < |states|
    requires Extends(parse, states[m], events[m], lease)
    requires forall k :: m < k < i ==> !Extends(parse, states[k], events[k], lease)
    requires InRow(states[i].store, lease)
    ensures states[i].store.rows[lease.scope].leaseUntil == Until(events[m])
    decreases i - m
  {
    hide Next, Enabled, Extends;
    ExtendsInRow(parse, states[m], events[m], lease);
    if m + 1 < i {
      RunKeepsInv(parse, states, events, m + 1);
      assert lease.owner in states[m + 1].owners;
      if !InRow(states[i - 1].store, lease) {
        OwnerRemembered(parse, states, events, m + 1, i - 1, lease.owner);
        FencedFrom(parse, states, events, i - 1, i, lease);
        assert false;
      }
      DeadlineIsLastSet(parse, states, events, m, i - 1, lease);
      RunKeepsInv(parse, states, events, i - 1);
      DeadlineKept(parse, states[i - 1], events[i - 1], lease);
    }
  }

  /** What a claim finds while a lease is in the row of a scope that is not fresh: to the millisecond
      of the deadline that the lease was last given, and no longer, it is refused. */
  lemma RefusedUntilDeadline(parse: Parser, states: seq<System>, events: seq<Event>, m: nat, i: nat, lease: Lease)
    requires Run(parse, states, events) && m < i < |events|
    requires Extends(parse, states[m], events[m], lease)
    requires forall k :: m < k < i ==> !Extends(parse, states[k], events[k], lease)
    requires InRow(states[i].store, lease)
    requires events[i].Claim? && events[i].scope == lease.scope
    requires !IsFresh(states[i].store.rows[lease.scope].refreshedAt, events[i].now, events[i].freshness)
    ensures Outcome(parse, states[i], events[i]) ==
            if !Ahead(Until(events[m]), events[i]) then Claimed(Lease(lease.scope, events[i].owner, lease.generation))
            else if events[i].known == Some(lease.generation) then Unchanged
            else LeaseHeld
  {
    hide Next, Enabled, IsFresh;
    DeadlineIsLastSet(parse, states, events, m, i, lease);
  }

  /** One refresher at a time. From a claim, or from its last renewal, nobody else takes the scope at
      a clock that sees the deadline ahead, unless the lease ends first. */
  lemma {:induction false} LeaseExcludes(parse: Parser, states: seq<System>, events: seq<Event>, m: nat, i: nat,
      lease: Lease)
    requires Run(parse, states, events) && m < i < |events|
    requires Extends(parse, states[m], events[m], lease)
    requires forall k :: m < k < i ==>
               !Extends(parse, states[k], events[k], lease) && !Frees(states[k], events[k], lease.scope)
    requires forall k :: m < k <= i && events[k].Claim? && events[k].scope == lease.scope ==>
               Ahead(Until(events[m]), events[k])
    ensures InRow(states[i].store, lease)
    ensures events[i].Claim? && events[i].scope == lease.scope ==> !Outcome(parse, states[i], events[i]).Claimed?
    decreases i - m
  {
    hide Next, Enabled, Extends, Frees, ClaimStore;
    if m + 1 == i {
      ExtendsInRow(parse, states[m], events[m], lease);
    } else {
      LeaseExcludes(parse, states, events, m, i - 1, lease);
      RunKeepsInv(parse, states, events, i - 1);
      DisturbanceDecides(parse, states[i - 1], events[i - 1], lease);
    }
    DeadlineIsLastSet(parse, states, events, m, i, lease);
  }

  // ---------------------------------------------------------------- how a scope becomes free

  lemma {:induction false} FreeUntilTaken(parse: Parser, states: seq<System>, events: seq<Event>, j: nat, i: nat,
      scope: Scope)
    requires Run(parse, states, events) && j < i < |states| && Frees(states[j], events[j], scope)
    requires forall k :: j < k < i && events[k].Claim? && events[k].scope == scope ==>
               !Outcome(parse, states[k], events[k]).Claimed?
    ensures scope in states[i].store.rows ==>
              states[i].store.rows[scope].owner == None && states[i].store.rows[scope].leaseUntil == 0
    decreases i - j
  {
    if j + 1 < i {
      FreeUntilTaken(parse, states, events, j, i - 1, scope);
    }
  }

  /** A publish that lands, a failure that lands and an invalidation free the scope at once: unless it
      is fresh, the next claim gets it, whatever the clocks said before. */
  lemma FreedIsClaimable(parse: Parser, states: seq<System>, events: seq<Event>, j: nat, i: nat, scope: Scope)
    requires Run(parse, states, events) && j < i < |events| && Frees(states[j], events[j], scope)
    requires forall k :: j < k < i && events[k].Claim? && events[k].scope == scope ==>
               !Outcome(parse, states[k], events[k]).Claimed?
    requires events[i].Claim? && events[i].scope == scope
    requires scope in states[i].store.rows ==>
               !IsFresh(states[i].store.rows[scope].refreshedAt, events[i].now, events[i].freshness)
    ensures Outcome(parse, states[i], events[i]) == Claimed(LeaseOn(states[i].store, scope, events[i].owner))
  {
    hide Next, Enabled, Frees;
    FreeUntilTaken(parse, states, events, j, i, scope);
  }

  // ---------------------------------------------------------------- stamps, generations and payloads

  /** The events that give `scope` another generation and another stamp. */
  predicate Restamps(s: System, e: Event, scope: Scope) {
    LandsOn(s, e, scope) || (e.Invalidate? && e.scope == scope && scope in s.store.rows)
  }

  lemma StampStep(parse: Parser, s: System, e: Event, scope: Scope)
    requires Enabled(s, e)
    ensures var s' := Next(parse, s, e);
            if Restamps(s, e, scope) then
              && scope in s.store.rows && scope in s'.store.rows
              && s'.store.rows[scope].generation == s.store.rows[scope].generation + 1
              && s'.store.rows[scope].refreshedAt == (if e.Publish? then e.now else 0)
              && PayloadOf(s'.store, scope) == (if e.Publish? then Some(e.json) else PayloadOf(s.store, scope))
            else
              && PayloadOf(s'.store, scope) == PayloadOf(s.store, scope)
              && (scope in s.store.rows ==>
                    && scope in s'.store.rows
                    && s'.store.rows[scope].generation == s.store.rows[scope].generation
                    && s'.store.rows[scope].refreshedAt == s.store.rows[scope].refreshedAt)
              && (scope !in s.store.rows && scope in s'.store.rows ==>
                    s'.store.rows[scope].generation == 0 == s'.store.rows[scope].refreshedAt)
  {
  }

  /** Between two restampings a row keeps its stamp, its generation and its payload. */
  lemma {:induction false} RestampedLast(parse: Parser, states: seq<System>, events: seq<Event>, j: nat, i: nat,
      scope: Scope)
    requires Run(parse, states, events) && j < i < |states| && Restamps(states[j], events[j], scope)
    requires forall k :: j < k < i ==> !Restamps(states[k], events[k], scope)
    ensures scope in states[j].store.rows && scope in states[i].store.rows
    ensures states[i].store.rows[scope].generation == states[j].store.rows[scope].generation + 1
    ensures states[i].store.rows[scope].refreshedAt == (if events[j].Publish? then events[j].now else 0)
    ensures PayloadOf(states[i].store, scope) ==
            if events[j].Publish? then Some(events[j].json) else PayloadOf(states[j].store, scope)
    decreases i - j
  {
    hide Next, Enabled, Restamps, PayloadOf;
    StampStep(parse, states[i - 1], events[i - 1], scope);
    if j + 1 < i {
      RestampedLast(parse, states, events, j, i - 1, scope);
    }
  }

  /** Text that shows as a listing of the scope. */
  predicate Shows(parse: Parser, scope: Scope, json: string) {
    parse(json).Some? && forall s :: s in parse(json).value ==> s.backend == scope.backend
  }

  /** A claim is answered from the cache exactly if the scope was last published, not invalidated, less
      than `freshness` before, the claimer has something else, and the text decodes; and then the answer
      is what was published, when, under the generation that followed the publisher's lease. One that
      has just that generation is told so. */
  lemma FreshIffJustPublished(parse: Parser, states: seq<System>, events: seq<Event>, j: nat, i: nat, scope: Scope)
    requires Run(parse, states, events) && j < i < |events| && Restamps(states[j], events[j], scope)
    requires forall k :: j < k < i ==> !Restamps(states[k], events[k], scope)
    requires events[i].Claim? && events[i].scope == scope
    ensures scope in states[j].store.rows
    ensures var e, claim, generation := events[j], events[i], states[j].store.rows[scope].generation + 1;
            var outcome := Outcome(parse, states[i], claim);
            var recent := e.Publish? && 0 < e.now && e.now <= claim.now < e.now + claim.freshness;
            && (recent && claim.known == Some(generation) ==> outcome == Unchanged)
            && (outcome.Fresh? <==> recent && claim.known != Some(generation) && Shows(parse, scope, e.json))
            && (outcome.Fresh? ==>
                  outcome.snapshot == Snapshot(parse(e.json).value, None, e.now, e.lease.generation + 1))
  {
    hide Next, Enabled;
    RestampedLast(parse, states, events, j, i, scope);
  }

  function Restampings(states: seq<System>, events: seq<Event>, i: nat, scope: Scope): nat
    requires i <= |events| <= |states|
  {
    if i == 0 then 0
    else Restampings(states, events, i - 1, scope) + if Restamps(states[i - 1], events[i - 1], scope) then 1 else 0
  }

  /** Generations count: a scope's is the one it started with, or 0, and one more for each publish that
      landed and each invalidation. Failures, renewals and refused writes are not counted. */
  lemma {:induction false} GenerationsCount(parse: Parser, states: seq<System>, events: seq<Event>, i: nat,
      scope: Scope)
    requires Run(parse, states, events) && i < |states|
    ensures scope in states[0].store.rows ==> scope in states[i].store.rows
    ensures scope in states[i].store.rows ==>
              states[i].store.rows[scope].generation == Restampings(states, events, i, scope)
                + if scope in states[0].store.rows then states[0].store.rows[scope].generation else 0
    ensures scope !in states[i].store.rows ==> Restampings(states, events, i, scope) == 0
  {
    hide Next, Enabled, Restamps, PayloadOf;
    if i > 0 {
      GenerationsCount(parse, states, events, i - 1, scope);
      StampStep(parse, states[i - 1], events[i - 1], scope);
    }
  }

  // ---------------------------------------------------------------- readers

  /** A reader that is told a payload, or that publishes one, has a cursor for it. */
  lemma AnswersGiveCursors(parse: Parser, states: seq<System>, events: seq<Event>, i: nat)
    requires Run(parse, states, events) && i < |events|
    ensures events[i].Claim? && Outcome(parse, states[i], events[i]).Fresh? ==>
              && events[i].scope in states[i].store.payloads
              && Cursor(events[i].scope, Outcome(parse, states[i], events[i]).snapshot.generation,
                        states[i].store.payloads[events[i].scope]) in states[i + 1].cursors
    ensures events[i].Publish? && LandsOn(states[i], events[i], events[i].lease.scope) ==>
              Cursor(events[i].lease.scope, events[i].lease.generation + 1, events[i].json) in states[i + 1].cursors
  {
  }

  lemma {:induction false} ReadingRemembered(parse: Parser, states: seq<System>, events: seq<Event>, j: nat, i: nat,
      reader: nat)
    requires Run(parse, states, events) && j <= i < |states| && reader in states[j].reading
    requires forall k :: j <= k < i ==> events[k] != ReadPayload(reader)
    ensures reader in states[i].reading && states[i].reading[reader] == states[j].reading[reader]
    decreases i - j
  {
    if j < i { ReadingRemembered(parse, states, events, j, i - 1, reader); }
  }

  /** And so has the reader of the display snapshot, whatever happens between its two reads: the
      generation of the first, and the text of the second if that shows. */
  lemma TwoStepReadGivesCursor(parse: Parser, states: seq<System>, events: seq<Event>, j: nat, i: nat, reader: nat,
      scope: Scope)
    requires Run(parse, states, events) && j < i < |events|
    requires events[j] == ReadMeta(reader, scope) && scope in states[j].store.rows
    requires events[i] == ReadPayload(reader) && forall k :: j < k < i ==> events[k] != ReadPayload(reader)
    requires scope in states[i].store.payloads && Shows(parse, scope, states[i].store.payloads[scope])
    ensures Cursor(scope, states[j].store.rows[scope].generation, states[i].store.payloads[scope])
            in states[i + 1].cursors
  {
    assert states[j + 1].reading[reader] == (scope, states[j].store.rows[scope]);
    ReadingRemembered(parse, states, events, j + 1, i, reader);
  }

  lemma {:induction false} CursorRemembered(parse: Parser, states: seq<System>, events: seq<Event>, j: nat, i: nat,
      c: Cursor)
    requires Run(parse, states, events) && j <= i < |states| && c in states[j].cursors
    ensures c in states[i].cursors
    decreases i - j
  {
    if j < i { CursorRemembered(parse, states, events, j, i - 1, c); }
  }

  /** `Unchanged` never hides a change: a reader that got its cursor anywhere in the run (a fresh
      claim, its own publish or a possibly torn two-step read) and is told `Unchanged` later would
      decode exactly the sessions it already displays. */
  lemma UnchangedHidesNothing(parse: Parser, states: seq<System>, events: seq<Event>, j: nat, i: nat, c: Cursor)
    requires Run(parse, states, events) && j <= i < |events|
    requires c in states[j].cursors
    requires events[i].Claim? && events[i].scope == c.scope && events[i].known == Some(c.generation)
    requires Outcome(parse, states[i], events[i]).Unchanged?
    ensures c.scope in states[i].store.payloads && states[i].store.payloads[c.scope] == c.text
    ensures parse(states[i].store.payloads[c.scope]) == parse(c.text)
  {
    CursorRemembered(parse, states, events, j, i, c);
    RunKeepsInv(parse, states, events, i);
    assert CursorHonest(states[i].store, c);
  }

  /** The read in the wrong order: payload first, metadata second. */
  function PayloadFirstCursor(payloadAt: Store, metaAt: Store, scope: Scope): Cursor
    requires scope in payloadAt.payloads && scope in metaAt.rows
  {
    Cursor(scope, metaAt.rows[scope].generation, payloadAt.payloads[scope])
  }

  /** The order of the two reads is what the guarantee rests on: with the payload read first, one
      publish in between leaves a cursor that agrees with the row but not with the payload. */
  lemma PayloadFirstWouldLie(scope: Scope)
    ensures exists before: Store, lease: Lease, json: string, now: i64 ::
              && lease.scope == scope && InRow(before, lease) && scope in before.payloads
              && var after := PublishStore(before, lease, json, now);
                 && Advances(before, after)
                 && !CursorHonest(after, PayloadFirstCursor(before, after, scope))
  {
    var lease := Lease(scope, "p:1:1", 4);
    var before := Store(map[scope := Row(1, 4, Some("p:1:1"), 9)], map[scope := "old"]);
    var after := PublishStore(before, lease, "new", 7);
    assert after.payloads[scope] == "new" && after.rows[scope].generation == 5;
    assert "old"[0] != "new"[0];
    assert !CursorHonest(after, PayloadFirstCursor(before, after, scope));
  }
}
