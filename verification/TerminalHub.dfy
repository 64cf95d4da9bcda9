/** The companion server's terminal hub: which PTY owner thread serves a session, who is connected
    to it, and when a thread may kill its child for want of a client.

    `TerminalHub` is the state behind the hub lock. The second half runs the hub together with the
    owner threads, their event queues and any number of sockets, in every interleaving. */
module TerminalHubs {
  import opened Basics

  datatype Key = Key(backend: nat, id: string)

  const TERMINAL_LIMIT: nat := 4

  datatype OwnerEntry = OwnerEntry(generation: nat, connected: bool, connection: nat)

  datatype Hub = Hub(owners: map<Key, OwnerEntry>, reservations: map<Key, nat>, nextGeneration: nat)

  /** A socket's handle on an owner thread. */
  datatype Lease = Lease(key: Key, generation: nat, connection: nat)

  datatype AcquireResult = Connecting | CapacityReached | Reattach(lease: Lease) | Reserved(generation: nat)

  function Acquired(h: Hub, key: Key): AcquireResult {
    if key in h.reservations then Connecting
    else if key in h.owners then Reattach(Lease(key, h.owners[key].generation, h.owners[key].connection + 1))
    else if |h.owners| + |h.reservations| >= TERMINAL_LIMIT then CapacityReached
    else Reserved(h.nextGeneration + 1)
  }

  function AfterAcquire(h: Hub, key: Key): Hub {
    match Acquired(h, key)
    case Reattach(lease) => h.(owners := h.owners[key := OwnerEntry(lease.generation, true, lease.connection)])
    case Reserved(g) => h.(reservations := h.reservations[key := g], nextGeneration := g)
    case _ => h
  }

  predicate HasReservation(h: Hub, key: Key, generation: nat) {
    key in h.reservations && h.reservations[key] == generation
  }

  predicate HasOwner(h: Hub, key: Key, generation: nat) {
    key in h.owners && h.owners[key].generation == generation
  }

  function AfterFinish(h: Hub, key: Key, generation: nat): Hub {
    if HasReservation(h, key, generation)
    then h.(owners := h.owners[key := OwnerEntry(generation, true, 1)], reservations := h.reservations - {key})
    else h
  }

  function AfterCancel(h: Hub, key: Key, generation: nat): Hub {
    if HasReservation(h, key, generation) then h.(reservations := h.reservations - {key}) else h
  }

  function AfterRemove(h: Hub, key: Key, generation: nat): Hub {
    if HasOwner(h, key, generation) then h.(owners := h.owners - {key}) else h
  }

  function AfterDetach(h: Hub, key: Key, generation: nat, connection: nat): Hub {
    if HasOwner(h, key, generation) && h.owners[key].connection == connection
    then h.(owners := h.owners[key := h.owners[key].(connected := false)])
    else h
  }

  predicate Expired(h: Hub, key: Key, generation: nat) {
    !(HasOwner(h, key, generation) && h.owners[key].connected)
  }

  function AfterGrace(h: Hub, key: Key, generation: nat): Hub {
    if Expired(h, key, generation) then AfterRemove(h, key, generation) else h
  }

  class TerminalHub {
    var owners: map<Key, OwnerEntry>
    var reservations: map<Key, nat>
    var nextGeneration: nat

    function View(): Hub
      reads this
    {
      Hub(owners, reservations, nextGeneration)
    }

    constructor ()
      ensures View() == Hub(map[], map[], 0)
    {
      owners, reservations, nextGeneration := map[], map[], 0;
    }

    /** A key with a live socket on it is taken over, not refused. */
    method Acquire(key: Key) returns (result: AcquireResult)
      modifies this
      ensures result == Acquired(old(View()), key) && View() == AfterAcquire(old(View()), key)
    {
      if key in reservations { return Connecting; }
      if key in owners {
        var owner := owners[key];
        owner := owner.(connected := true);
        owner := owner.(connection := owner.connection + 1);
        owners := owners[key := owner];
        return Reattach(Lease(key, owner.generation, owner.connection));
      }
      if |owners| + |reservations| >= TERMINAL_LIMIT { return CapacityReached; }
      nextGeneration := nextGeneration + 1;
      reservations := reservations[key := nextGeneration];
      result := Reserved(nextGeneration);
    }

    method FinishReservation(key: Key, generation: nat) returns (lease: Option<Lease>)
      modifies this
      ensures View() == AfterFinish(old(View()), key, generation)
      ensures lease == if HasReservation(old(View()), key, generation) then Some(Lease(key, generation, 1)) else None
    {
      if key !in reservations || reservations[key] != generation { return None; }
      reservations := reservations - {key};
      owners := owners[key := OwnerEntry(generation, true, 1)];
      lease := Some(Lease(key, generation, 1));
    }

    method CancelReservation(key: Key, generation: nat)
      modifies this
      ensures View() == AfterCancel(old(View()), key, generation)
    {
      if key in reservations && reservations[key] == generation {
        reservations := reservations - {key};
      }
    }

    method RemoveTerminalOwner(key: Key, generation: nat)
      modifies this
      ensures View() == AfterRemove(old(View()), key, generation)
    {
      if key in owners && owners[key].generation == generation {
        owners := owners - {key};
      }
    }

    method MarkTerminalDetached(key: Key, generation: nat, connection: nat)
      modifies this
      ensures View() == AfterDetach(old(View()), key, generation, connection)
    {
      if key in owners && owners[key].generation == generation && owners[key].connection == connection {
        owners := owners[key := owners[key].(connected := false)];
      }
    }

    method TerminalGraceExpired(key: Key, generation: nat) returns (expired: bool)
      modifies this
      ensures expired <==> Expired(old(View()), key, generation)
      ensures View() == AfterGrace(old(View()), key, generation)
    {
      var reconnected := key in owners && owners[key].generation == generation && owners[key].connected;
      if reconnected { return false; }
      owners := map owned | owned in owners && (owned != key || owners[owned].generation != generation) ::
          owners[owned];
      assert !HasOwner(old(View()), key, generation) ==> owners == old(owners);
      assert HasOwner(old(View()), key, generation) ==> owners == old(owners) - {key};
      expired := true;
    }
  }

  // ---------------------------------------------------------------- hub and owner threads together

  /** What sockets send to an owner thread, always under their own connection id. */
  datatype OwnerEvent =
    | Attach(connection: nat)
    | Detach(connection: nat)
    | Input(connection: nat, bytes: seq<byte>)
    | Resize(connection: nat, rows: nat, cols: nat)
    | Close(connection: nat)

  /** What a socket can have done to the child. */
  datatype Act = Typed(bytes: seq<byte>) | Resized(rows: nat, cols: nat) | Closed

  datatype Phase = Starting | Running | Dead

  /** `child` is everything done to the child for a socket, each act with the connection that asked
      for it. */
  datatype Thread = Thread(key: Key, phase: Phase, connection: nat, sink: bool, deadline: bool,
                           child: seq<(nat, Act)>, queue: seq<OwnerEvent>)

  /** `leases` are all leases handed out and `detached` all (generation, connection) pairs that
      were ever marked detached or released. */
  datatype System = System(hub: Hub, threads: map<nat, Thread>, leases: set<Lease>, detached: set<(nat, nat)>)

  datatype Event =
    | Connect(key: Key)
    | SpawnThread(key: Key)
    | FinishReservation(key: Key)
    | CancelReservation(key: Key)
    | Activate(generation: nat)
    | Send(lease: Lease, event: OwnerEvent)
    | MarkDetached(lease: Lease)
    | Handle(generation: nat)
    | Release(generation: nat)
    | CheckGrace(generation: nat)
    | Finish(generation: nat)
    | Crash(generation: nat)
    | RemoveDead(lease: Lease)

  predicate Is(s: System, g: nat, phase: Phase) {
    g in s.threads && s.threads[g].phase == phase
  }

  predicate Alive(s: System, g: nat) {
    g in s.threads && s.threads[g].phase != Dead
  }

  /** A socket acts only under a lease it was handed; it removes an owner only after finding that
      the thread no longer listens; a thread checks the grace window only while a deadline runs. */
  predicate Enabled(s: System, e: Event) {
    match e
    case Connect(_) => true
    case SpawnThread(key) => key in s.hub.reservations && s.hub.reservations[key] !in s.threads
    case FinishReservation(key) => key in s.hub.reservations && s.hub.reservations[key] in s.threads
    case CancelReservation(key) => key in s.hub.reservations
    case Activate(g) => Is(s, g, Starting) && Lease(s.threads[g].key, g, 1) in s.leases
    case Send(lease, event) => lease in s.leases && Alive(s, lease.generation) && event.connection == lease.connection
    case MarkDetached(lease) => lease in s.leases
    case Handle(g) => Is(s, g, Running) && s.threads[g].queue != []
    case Release(g) => Is(s, g, Running) && s.threads[g].sink
    case CheckGrace(g) => Is(s, g, Running) && s.threads[g].deadline
    case Finish(g) => Alive(s, g)
    case Crash(g) => Alive(s, g)
    case RemoveDead(lease) => lease in s.leases && !Alive(s, lease.generation)
  }

  /** What the sender of an event asks of the child. */
  function ActsOf(event: OwnerEvent): seq<(nat, Act)> {
    match event
    case Attach(_) => []
    case Detach(_) => []
    case Input(c, bytes) => [(c, Typed(bytes))]
    case Resize(c, rows, cols) => [(c, Resized(rows, cols))]
    case Close(c) => [(c, Closed)]
  }

  /** The owner loop's reaction to one event. Everything but an Attach from a connection the thread
      does not serve is ignored. */
  function HandleEvent(t: Thread, event: OwnerEvent): Thread {
    match event
    case Attach(c) => t.(connection := c, sink := true, deadline := false)
    case Detach(c) => if c == t.connection then t.(sink := false, deadline := true) else t
    case Input(c, bytes) => if c == t.connection then t.(child := t.child + [(c, Typed(bytes))]) else t
    case Resize(c, rows, cols) => if c == t.connection then t.(child := t.child + [(c, Resized(rows, cols))]) else t
    case Close(c) => if c == t.connection then t.(phase := Dead, child := t.child + [(c, Closed)]) else t
  }

  /** An owner thread that ends on its own takes its hub entry with it. */
  function EndThread(s: System, g: nat): System
    requires g in s.threads
  {
    s.(threads := s.threads[g := s.threads[g].(phase := Dead)], hub := AfterRemove(s.hub, s.threads[g].key, g))
  }

  function Next(s: System, e: Event): System
    requires Enabled(s, e)
  {
    match e
    case Connect(key) =>
      var s' := s.(hub := AfterAcquire(s.hub, key));
      (match Acquired(s.hub, key)
       case Reattach(lease) => s'.(leases := s.leases + {lease})
       case _ => s')
    case SpawnThread(key) =>
      s.(threads := s.threads[s.hub.reservations[key] := Thread(key, Starting, 0, false, false, [], [])])
    case FinishReservation(key) =>
      var g := s.hub.reservations[key];
      s.(hub := AfterFinish(s.hub, key, g), leases := s.leases + {Lease(key, g, 1)})
    case CancelReservation(key) => s.(hub := AfterCancel(s.hub, key, s.hub.reservations[key]))
    case Activate(g) =>
      s.(threads := s.threads[g := s.threads[g].(phase := Running, connection := 0, sink := false, deadline := true)])
    case Send(lease, event) =>
      var t := s.threads[lease.generation];
      s.(threads := s.threads[lease.generation := t.(queue := t.queue + [event])])
    case MarkDetached(lease) =>
      s.(hub := AfterDetach(s.hub, lease.key, lease.generation, lease.connection),
         detached := s.detached + {(lease.generation, lease.connection)})
    case Handle(g) =>
      var t := s.threads[g];
      var t' := HandleEvent(t, t.queue[0]).(queue := t.queue[1..]);
      if t'.phase == Dead then EndThread(s.(threads := s.threads[g := t']), g) else s.(threads := s.threads[g := t'])
    case Release(g) =>
      var t := s.threads[g];
      System(AfterDetach(s.hub, t.key, g, t.connection),
             s.threads[g := t.(sink := false, deadline := true)],
             s.leases, s.detached + {(g, t.connection)})
    case CheckGrace(g) =>
      var t := s.threads[g];
      var t' := if Expired(s.hub, t.key, g) then t.(phase := Dead) else t.(deadline := false);
      s.(hub := AfterGrace(s.hub, t.key, g), threads := s.threads[g := t'])
    case Finish(g) => EndThread(s, g)
    case Crash(g) => s.(threads := s.threads[g := s.threads[g].(phase := Dead)])
    case RemoveDead(lease) => s.(hub := AfterRemove(s.hub, lease.key, lease.generation))
  }

  const INITIAL: System := System(Hub(map[], map[], 0), map[], {}, {})

  ghost predicate Run(states: seq<System>, events: seq<Event>) {
    && |states| == |events| + 1
    && states[0] == INITIAL
    && forall i :: 0 <= i < |events| ==> Enabled(states[i], events[i]) && states[i + 1] == Next(states[i], events[i])
  }

  // ---------------------------------------------------------------- what every step keeps

  /** Owners and reservations never share a key and together never exceed the terminal limit. */
  ghost predicate WithinCapacity(h: Hub) {
    && h.owners.Keys !! h.reservations.Keys
    && |h.owners| + |h.reservations| <= TERMINAL_LIMIT
  }

  ghost predicate ReservationsFresh(s: System) {
    && (forall k :: k in s.hub.reservations ==>
          && 1 <= s.hub.reservations[k] <= s.hub.nextGeneration
          && (s.hub.reservations[k] in s.threads ==> s.threads[s.hub.reservations[k]].key == k)
          && (forall lease :: lease in s.leases ==> lease.generation != s.hub.reservations[k]))
    && (forall k, k' :: k in s.hub.reservations && k' in s.hub.reservations
                        && s.hub.reservations[k] == s.hub.reservations[k']
            ==> k == k')
  }

  /** A hub entry names the newest connection of its generation, and its flag is down exactly when
      that very connection was marked detached or released. */
  ghost predicate EntryExact(s: System, k: Key)
    requires k in s.hub.owners
  {
    var entry := s.hub.owners[k];
    && entry.generation in s.threads
    && Lease(k, entry.generation, entry.connection) in s.leases
    && (forall lease :: lease in s.leases && lease.generation == entry.generation
            ==> lease.connection <= entry.connection)
    && (entry.connected <==> (entry.generation, entry.connection) !in s.detached)
  }

  ghost predicate LeaseKnown(s: System, lease: Lease) {
    && lease.generation in s.threads && s.threads[lease.generation].key == lease.key
    && lease.generation <= s.hub.nextGeneration
    && (Alive(s, lease.generation) ==> HasOwner(s.hub, lease.key, lease.generation))
  }

  ghost predicate ThreadSane(s: System, g: nat)
    requires g in s.threads
  {
    var t := s.threads[g];
    && 1 <= g <= s.hub.nextGeneration
    && (t.sink ==> Lease(t.key, g, t.connection) in s.leases)
    && (t.phase == Running ==> Lease(t.key, g, 1) in s.leases)
    && (forall i :: 0 <= i < |t.queue| ==> Lease(t.key, g, t.queue[i].connection) in s.leases)
    && (t.deadline ==> !t.sink)
  }

  ghost predicate Inv(s: System) {
    && WithinCapacity(s.hub)
    && ReservationsFresh(s)
    && (forall k :: k in s.hub.owners ==> EntryExact(s, k))
    && (forall lease :: lease in s.leases ==> LeaseKnown(s, lease))
    && (forall g :: g in s.threads ==> ThreadSane(s, g))
    && (forall p :: p in s.detached ==> p.0 in s.threads && Lease(s.threads[p.0].key, p.0, p.1) in s.leases)
  }

  /** Replacing a thread's record, without reviving it, needs only that record to be sane. */
  lemma ThreadUpdateKeepsInv(s: System, g: nat, t: Thread)
    requires Inv(s) && g in s.threads && t.key == s.threads[g].key
    requires t.phase == Dead || s.threads[g].phase != Dead
    requires ThreadSane(s.(threads := s.threads[g := t]), g)
    ensures Inv(s.(threads := s.threads[g := t]))
  {
    var s' := s.(threads := s.threads[g := t]);
    assert s'.threads.Keys == s.threads.Keys && s'.hub == s.hub && s'.leases == s.leases;
    forall k | k in s'.hub.owners ensures EntryExact(s', k) { assert EntryExact(s, k); }
    forall lease | lease in s'.leases ensures LeaseKnown(s', lease) { assert LeaseKnown(s, lease); }
    forall h | h in s'.threads ensures ThreadSane(s', h) { assert h != g ==> ThreadSane(s, h); }
  }

  lemma RemoveKeepsReservations(s: System, key: Key, g: nat)
    requires Inv(s)
    ensures WithinCapacity(AfterRemove(s.hub, key, g)) && ReservationsFresh(s.(hub := AfterRemove(s.hub, key, g)))
  {
    assert AfterRemove(s.hub, key, g).owners.Keys <= s.hub.owners.Keys;
  }

  lemma RemoveKeepsInv(s: System, key: Key, g: nat)
    requires Inv(s) && !Alive(s, g)
    ensures Inv(s.(hub := AfterRemove(s.hub, key, g)))
  {
    var s' := s.(hub := AfterRemove(s.hub, key, g));
    RemoveKeepsReservations(s, key, g);
    forall k | k in s'.hub.owners ensures EntryExact(s', k) { assert EntryExact(s, k); }
    forall lease | lease in s'.leases ensures LeaseKnown(s', lease) { assert LeaseKnown(s, lease); }
    forall h | h in s'.threads ensures ThreadSane(s', h) { assert ThreadSane(s, h); }
  }

  lemma DetachKeepsEntry(s: System, lease: Lease, k: Key)
    requires Inv(s) && lease in s.leases && k in s.hub.owners
    ensures EntryExact(Next(s, Event.MarkDetached(lease)), k)
  {
    assert LeaseKnown(s, lease);
    assert EntryExact(s, k);
    assert LeaseKnown(s, Lease(k, s.hub.owners[k].generation, s.hub.owners[k].connection));
  }

  lemma DetachKeepsLease(s: System, lease: Lease, l: Lease)
    requires LeaseKnown(s, l)
    requires lease in s.leases
    ensures LeaseKnown(Next(s, Event.MarkDetached(lease)), l)
  {
  }

  lemma DetachKeepsInv(s: System, lease: Lease)
    requires Inv(s) && lease in s.leases
    ensures Inv(Next(s, Event.MarkDetached(lease)))
  {
    var s' := Next(s, Event.MarkDetached(lease));
    assert s'.hub.reservations == s.hub.reservations && s'.hub.owners.Keys == s.hub.owners.Keys;
    assert s'.threads == s.threads && s'.leases == s.leases;
    forall k | k in s'.hub.owners ensures EntryExact(s', k) { DetachKeepsEntry(s, lease, k); }
    forall l | l in s'.leases ensures LeaseKnown(s', l) { DetachKeepsLease(s, lease, l); }
    forall h | h in s'.threads ensures ThreadSane(s', h) { assert ThreadSane(s, h); }
    assert LeaseKnown(s, lease);
  }

  function TakenOver(s: System, key: Key): System
    requires key in s.hub.owners
  {
    var entry := s.hub.owners[key];
    s.(hub := s.hub.(owners := s.hub.owners[key := OwnerEntry(entry.generation, true, entry.connection + 1)]),
       leases := s.leases + {Lease(key, entry.generation, entry.connection + 1)})
  }

  lemma ConnectTakesOver(s: System, key: Key)
    requires key in s.hub.owners && key !in s.hub.reservations
    ensures Next(s, Connect(key)) == TakenOver(s, key)
  {
  }

  lemma TakeoverKeepsOtherEntry(s: System, key: Key, k: Key)
    requires Inv(s) && key in s.hub.owners && k in s.hub.owners && k != key
    ensures EntryExact(TakenOver(s, key), k)
  {
    assert EntryExact(s, k) && LeaseKnown(s, Lease(k, s.hub.owners[k].generation, s.hub.owners[k].connection));
    assert EntryExact(s, key) && LeaseKnown(s, Lease(key, s.hub.owners[key].generation, s.hub.owners[key].connection));
  }

  lemma TakeoverKeepsEntry(s: System, key: Key, k: Key)
    requires Inv(s) && key in s.hub.owners && k in s.hub.owners
    ensures EntryExact(TakenOver(s, key), k)
  {
    if k != key {
      TakeoverKeepsOtherEntry(s, key, k);
    } else {
      assert EntryExact(s, key)
          && LeaseKnown(s, Lease(key, s.hub.owners[key].generation, s.hub.owners[key].connection));
      assert Lease(key, s.hub.owners[key].generation, s.hub.owners[key].connection + 1) !in s.leases;
    }
  }

  lemma TakeoverKeepsLease(s: System, key: Key, l: Lease)
    requires Inv(s) && key in s.hub.owners && l in TakenOver(s, key).leases
    ensures LeaseKnown(TakenOver(s, key), l)
  {
    assert EntryExact(s, key) && LeaseKnown(s, Lease(key, s.hub.owners[key].generation, s.hub.owners[key].connection));
    assert l in s.leases ==> LeaseKnown(s, l);
  }

  lemma TakeoverKeepsReservations(s: System, key: Key)
    requires Inv(s) && key in s.hub.owners
    ensures WithinCapacity(TakenOver(s, key).hub) && ReservationsFresh(TakenOver(s, key))
  {
    assert EntryExact(s, key);
    assert TakenOver(s, key).hub.owners.Keys == s.hub.owners.Keys;
  }

  lemma TakeoverKeepsInv(s: System, key: Key)
    requires Inv(s) && key in s.hub.owners
    ensures Inv(TakenOver(s, key))
  {
    var s' := TakenOver(s, key);
    TakeoverKeepsReservations(s, key);
    forall k | k in s'.hub.owners ensures EntryExact(s', k) { TakeoverKeepsEntry(s, key, k); }
    forall l | l in s'.leases ensures LeaseKnown(s', l) { TakeoverKeepsLease(s, key, l); }
    forall h | h in s'.threads ensures ThreadSane(s', h) { assert ThreadSane(s, h); }
  }

  function Reserving(s: System, key: Key): System {
    var g := s.hub.nextGeneration + 1;
    s.(hub := s.hub.(reservations := s.hub.reservations[key := g], nextGeneration := g))
  }

  lemma ConnectReserves(s: System, key: Key)
    requires key !in s.hub.owners
    ensures Next(s, Connect(key)) == s
            || (Next(s, Connect(key)) == Reserving(s, key) && key !in s.hub.reservations
                && |s.hub.owners| + |s.hub.reservations| < TERMINAL_LIMIT)
  {
  }

  lemma ReserveKeepsInv(s: System, key: Key)
    requires Inv(s) && key !in s.hub.owners && key !in s.hub.reservations
    requires |s.hub.owners| + |s.hub.reservations| < TERMINAL_LIMIT
    ensures Inv(Reserving(s, key))
  {
    var s' := Reserving(s, key);
    forall l | l in s'.leases ensures LeaseKnown(s', l) { assert LeaseKnown(s, l); }
    forall k | k in s'.hub.owners ensures EntryExact(s', k) { assert EntryExact(s, k); }
    forall h | h in s'.threads ensures ThreadSane(s', h) { assert ThreadSane(s, h); }
  }

  lemma ConnectKeepsInv(s: System, key: Key)
    requires Inv(s)
    ensures Inv(Next(s, Connect(key)))
  {
    if key in s.hub.owners {
      ConnectTakesOver(s, key);
      TakeoverKeepsInv(s, key);
    } else {
      ConnectReserves(s, key);
      if Next(s, Connect(key)) != s {
        ReserveKeepsInv(s, key);
      }
    }
  }

  lemma SpawnKeepsInv(s: System, key: Key)
    requires Inv(s) && Enabled(s, SpawnThread(key))
    ensures Inv(Next(s, SpawnThread(key)))
  {
    var s' := Next(s, SpawnThread(key));
    forall k | k in s'.hub.owners ensures EntryExact(s', k) { assert EntryExact(s, k); }
    forall l | l in s'.leases ensures LeaseKnown(s', l) { assert LeaseKnown(s, l); }
    forall h | h in s'.threads ensures ThreadSane(s', h) { assert h in s.threads ==> ThreadSane(s, h); }
  }

  function Finished(s: System, key: Key, g: nat): System {
    s.(hub := s.hub.(reservations := s.hub.reservations - {key}, owners := s.hub.owners[key := OwnerEntry(g, true, 1)]),
       leases := s.leases + {Lease(key, g, 1)})
  }

  lemma FinishedKeepsEntry(s: System, key: Key, g: nat, k: Key)
    requires Inv(s) && key in s.hub.reservations && s.hub.reservations[key] == g && g in s.threads
    requires k in Finished(s, key, g).hub.owners
    ensures EntryExact(Finished(s, key, g), k)
  {
  }

  lemma FinishedKeepsReservations(s: System, key: Key, g: nat)
    requires Inv(s) && key in s.hub.reservations && s.hub.reservations[key] == g && g in s.threads
    ensures WithinCapacity(Finished(s, key, g).hub) && ReservationsFresh(Finished(s, key, g))
  {
  }

  lemma FinishedKeepsLease(s: System, key: Key, g: nat, l: Lease)
    requires Inv(s) && key in s.hub.reservations && s.hub.reservations[key] == g && g in s.threads
    requires l in Finished(s, key, g).leases
    ensures LeaseKnown(Finished(s, key, g), l)
  {
  }

  lemma FinishedKeepsInv(s: System, key: Key, g: nat)
    requires Inv(s) && key in s.hub.reservations && s.hub.reservations[key] == g && g in s.threads
    ensures Inv(Finished(s, key, g))
  {
    var s' := Finished(s, key, g);
    forall k | k in s'.hub.owners ensures EntryExact(s', k) { FinishedKeepsEntry(s, key, g, k); }
    forall l | l in s'.leases ensures LeaseKnown(s', l) { FinishedKeepsLease(s, key, g, l); }
    forall h | h in s'.threads ensures ThreadSane(s', h) { assert ThreadSane(s, h); }
    FinishedKeepsReservations(s, key, g);
  }

  lemma FinishReservationKeepsInv(s: System, key: Key)
    requires Inv(s) && Enabled(s, Event.FinishReservation(key))
    ensures Inv(Next(s, Event.FinishReservation(key)))
  {
    FinishedKeepsInv(s, key, s.hub.reservations[key]);
    assert Next(s, Event.FinishReservation(key)) == Finished(s, key, s.hub.reservations[key]);
  }

  lemma CancelKeepsInv(s: System, key: Key)
    requires Inv(s) && Enabled(s, Event.CancelReservation(key))
    ensures Inv(Next(s, Event.CancelReservation(key)))
  {
    var s' := Next(s, Event.CancelReservation(key));
    forall k | k in s'.hub.owners ensures EntryExact(s', k) { assert EntryExact(s, k); }
    forall l | l in s'.leases ensures LeaseKnown(s', l) { assert LeaseKnown(s, l); }
    forall h | h in s'.threads ensures ThreadSane(s', h) { assert ThreadSane(s, h); }
  }

  lemma EndKeepsInv(s: System, g: nat)
    requires Inv(s) && g in s.threads
    ensures Inv(EndThread(s, g))
  {
    assert ThreadSane(s, g);
    var t := s.threads[g].(phase := Dead);
    ThreadUpdateKeepsInv(s, g, t);
    RemoveKeepsInv(s.(threads := s.threads[g := t]), t.key, g);
  }

  lemma HandleKeepsInv(s: System, g: nat)
    requires Inv(s) && Enabled(s, Handle(g))
    ensures Inv(Next(s, Handle(g)))
  {
    assert ThreadSane(s, g);
    var t := s.threads[g];
    var t' := HandleEvent(t, t.queue[0]).(queue := t.queue[1..]);
    assert Lease(t.key, g, t.queue[0].connection) in s.leases;
    assert ThreadSane(s.(threads := s.threads[g := t']), g);
    ThreadUpdateKeepsInv(s, g, t');
    EndKeepsInv(s.(threads := s.threads[g := t']), g);
  }

  lemma ReleaseKeepsInv(s: System, g: nat)
    requires Inv(s) && Enabled(s, Release(g))
    ensures Inv(Next(s, Release(g)))
  {
    assert ThreadSane(s, g);
    var t := s.threads[g];
    DetachKeepsInv(s, Lease(t.key, g, t.connection));
    var s' := Next(s, Event.MarkDetached(Lease(t.key, g, t.connection)));
    var t' := t.(sink := false, deadline := true);
    ThreadUpdateKeepsInv(s', g, t');
  }

  lemma CheckGraceKeepsInv(s: System, g: nat)
    requires Inv(s) && Enabled(s, CheckGrace(g))
    ensures Inv(Next(s, CheckGrace(g)))
  {
    assert ThreadSane(s, g);
    if Expired(s.hub, s.threads[g].key, g) {
      EndKeepsInv(s, g);
    } else {
      ThreadUpdateKeepsInv(s, g, s.threads[g].(deadline := false));
    }
  }

  lemma SendKeepsInv(s: System, lease: Lease, event: OwnerEvent)
    requires Inv(s) && Enabled(s, Send(lease, event))
    ensures Inv(Next(s, Send(lease, event)))
  {
    var g := lease.generation;
    assert LeaseKnown(s, lease) && ThreadSane(s, g);
    var t := s.threads[g];
    ThreadUpdateKeepsInv(s, g, t.(queue := t.queue + [event]));
  }

  lemma StepKeepsInv(s: System, e: Event)
    requires Inv(s) && Enabled(s, e)
    ensures Inv(Next(s, e))
  {
    match e
    case Connect(key) => ConnectKeepsInv(s, key);
    case SpawnThread(key) => SpawnKeepsInv(s, key);
    case FinishReservation(key) => FinishReservationKeepsInv(s, key);
    case CancelReservation(key) => CancelKeepsInv(s, key);
    case Activate(g) =>
      assert ThreadSane(s, g);
      ThreadUpdateKeepsInv(s, g, s.threads[g].(phase := Running, connection := 0, sink := false, deadline := true));
    case Send(lease, event) => SendKeepsInv(s, lease, event);
    case MarkDetached(lease) => DetachKeepsInv(s, lease);
    case Handle(g) => HandleKeepsInv(s, g);
    case Release(g) => ReleaseKeepsInv(s, g);
    case CheckGrace(g) => CheckGraceKeepsInv(s, g);
    case Finish(g) => EndKeepsInv(s, g);
    case Crash(g) =>
      assert ThreadSane(s, g);
      ThreadUpdateKeepsInv(s, g, s.threads[g].(phase := Dead));
    case RemoveDead(lease) => RemoveKeepsInv(s, lease.key, lease.generation);
  }

  lemma {:induction false} RunKeepsInv(states: seq<System>, events: seq<Event>, k: nat)
    requires Run(states, events) && k < |states|
    ensures Inv(states[k])
  {
    if k > 0 {
      RunKeepsInv(states, events, k - 1);
      StepKeepsInv(states[k - 1], events[k - 1]);
    }
  }

  // ---------------------------------------------------------------- killing for want of a client

  predicate Handles(s: System, e: Event, g: nat) {
    e == Handle(g) && g in s.threads && s.threads[g].queue != []
  }

  predicate GraceKill(s: System, e: Event) {
    e.CheckGrace? && e.generation in s.threads && Expired(s.hub, s.threads[e.generation].key, e.generation)
  }

  predicate Newest(s: System, lease: Lease) {
    lease in s.leases
    && forall other :: other in s.leases && other.generation == lease.generation
           ==> other.connection <= lease.connection
  }

  /** The event that took this very connection off its PTY: its own detach, or the owner releasing
      the socket it was serving under this connection. */
  predicate Drops(s: System, e: Event, lease: Lease) {
    || e == Event.MarkDetached(lease)
    || (e == Release(lease.generation) && lease.generation in s.threads
        && s.threads[lease.generation].connection == lease.connection)
  }

  lemma NewDetach(s: System, e: Event, lease: Lease)
    requires Inv(s) && Enabled(s, e) && lease in Next(s, e).leases
    requires (lease.generation, lease.connection) in Next(s, e).detached
    ensures lease in s.leases
    ensures (lease.generation, lease.connection) in s.detached || Drops(s, e, lease)
  {
  }

  lemma {:induction false} DetachHappened(states: seq<System>, events: seq<Event>, i: nat, lease: Lease)
    returns (j: nat)
    requires Run(states, events) && i < |states|
    requires lease in states[i].leases && (lease.generation, lease.connection) in states[i].detached
    ensures j < i && lease in states[j].leases && Drops(states[j], events[j], lease)
  {
    RunKeepsInv(states, events, i - 1);
    NewDetach(states[i - 1], events[i - 1], lease);
    if (lease.generation, lease.connection) in states[i - 1].detached {
      j := DetachHappened(states, events, i - 1, lease);
    } else {
      j := i - 1;
    }
  }

  /** A child is killed by grace expiry only if the most recently handed out connection of its
      generation was itself detached or released, after it was handed out. */
  lemma GraceKillNeedsDetach(states: seq<System>, events: seq<Event>, i: nat) returns (lease: Lease, j: nat)
    requires Run(states, events) && i < |events| && GraceKill(states[i], events[i])
    ensures lease.generation == events[i].generation && Newest(states[i], lease)
    ensures j < i && lease in states[j].leases && Drops(states[j], events[j], lease)
  {
    var s, g := states[i], events[i].generation;
    RunKeepsInv(states, events, i);
    assert ThreadSane(s, g);
    var key := s.threads[g].key;
    assert LeaseKnown(s, Lease(key, g, 1));
    assert EntryExact(s, key);
    lease := Lease(key, g, s.hub.owners[key].connection);
    j := DetachHappened(states, events, i, lease);
  }

  /** No way back into the hub for a generation that is neither owned nor reserved. */
  ghost predicate Retired(s: System, g: nat) {
    && g <= s.hub.nextGeneration
    && (forall k :: k in s.hub.owners ==> s.hub.owners[k].generation != g)
    && (forall k :: k in s.hub.reservations ==> s.hub.reservations[k] != g)
  }

  lemma ConnectKeepsRetired(s: System, key: Key, g: nat)
    requires Retired(s, g)
    ensures Retired(Next(s, Connect(key)), g)
    ensures forall lease :: lease in Next(s, Connect(key)).leases && lease.generation == g ==> lease in s.leases
  {
  }

  lemma FinishKeepsRetired(s: System, key: Key, g: nat)
    requires Retired(s, g) && Enabled(s, Event.FinishReservation(key))
    ensures Retired(Next(s, Event.FinishReservation(key)), g)
    ensures forall lease :: lease in Next(s, Event.FinishReservation(key)).leases && lease.generation == g
                ==> lease in s.leases
  {
  }

  /** No other step brings in a generation. */
  lemma OthersBringNone(s: System, e: Event)
    requires Enabled(s, e) && !e.Connect? && !e.FinishReservation?
    ensures var s' := Next(s, e);
            && s'.leases == s.leases && s'.hub.nextGeneration == s.hub.nextGeneration
            && (forall k :: k in s'.hub.owners
                    ==> k in s.hub.owners && s'.hub.owners[k].generation == s.hub.owners[k].generation)
            && (forall k :: k in s'.hub.reservations
                    ==> k in s.hub.reservations && s'.hub.reservations[k] == s.hub.reservations[k])
  {
  }

  lemma RetiredStays(s: System, e: Event, g: nat)
    requires Enabled(s, e) && Retired(s, g)
    ensures Retired(Next(s, e), g)
    ensures forall lease :: lease in Next(s, e).leases && lease.generation == g ==> lease in s.leases
  {
    hide Next, Enabled;
    if e.Connect? {
      ConnectKeepsRetired(s, e.key, g);
    } else if e.FinishReservation? {
      FinishKeepsRetired(s, e.key, g);
    } else {
      OthersBringNone(s, e);
    }
  }

  predicate HandedOut(s: System, g: nat) {
    exists lease :: lease in s.leases && lease.generation == g
  }

  /** An owner leaves the hub: its grace runs out, its child exits, a socket closes it that it serves, or
      a socket finds it dead. */
  predicate Ends(s: System, e: Event, g: nat) {
    || (GraceKill(s, e) && e.generation == g)
    || (e == Finish(g) && HandedOut(s, g))
    || (Handles(s, e, g) && s.threads[g].queue[0] == Close(s.threads[g].connection))
    || (e.RemoveDead? && e.lease.generation == g)
  }

  lemma RemovalRetires(s: System, g: nat)
    requires Inv(s) && HandedOut(s, g)
    ensures g in s.threads && Retired(s.(hub := AfterRemove(s.hub, s.threads[g].key, g)), g)
  {
    var lease :| lease in s.leases && lease.generation == g;
    assert LeaseKnown(s, lease);
    forall key | key in s.hub.owners && s.hub.owners[key].generation == g
      ensures key == s.threads[g].key
    {
      assert EntryExact(s, key);
      assert LeaseKnown(s, Lease(key, g, s.hub.owners[key].connection));
    }
  }

  lemma EnderWasHandedOut(s: System, e: Event, g: nat)
    requires Inv(s) && Enabled(s, e) && Ends(s, e, g)
    ensures HandedOut(s, g)
  {
    if e.CheckGrace? || e.Handle? {
      assert ThreadSane(s, g);
      assert Lease(s.threads[g].key, g, 1) in s.leases;
    } else if e.RemoveDead? {
      assert e.lease in s.leases;
    }
  }

  /** What an end comes to: the entry of this very generation goes, and the thread is dead. */
  ghost predicate Gone(s: System, s': System, g: nat)
    requires g in s.threads
  {
    s'.hub == AfterRemove(s.hub, s.threads[g].key, g) && s'.leases == s.leases && !Alive(s', g)
  }

  lemma CloseRemoves(s: System, g: nat)
    requires Enabled(s, Handle(g)) && s.threads[g].queue[0] == Close(s.threads[g].connection)
    ensures Gone(s, Next(s, Handle(g)), g)
  {
  }

  lemma ExpiryRemoves(s: System, g: nat)
    requires Enabled(s, CheckGrace(g)) && GraceKill(s, CheckGrace(g))
    ensures Gone(s, Next(s, CheckGrace(g)), g)
  {
  }

  lemma EndRemoves(s: System, e: Event, g: nat)
    requires Enabled(s, e) && Ends(s, e, g) && g in s.threads
    requires e.RemoveDead? ==> e.lease.key == s.threads[g].key
    ensures Gone(s, Next(s, e), g)
  {
    if e.Handle? {
      CloseRemoves(s, g);
    } else if e.CheckGrace? {
      ExpiryRemoves(s, g);
    } else if e.Finish? {
      assert Next(s, e) == EndThread(s, g);
    }
  }

  lemma EnderIsKnown(s: System, e: Event, g: nat)
    requires Inv(s) && Enabled(s, e) && Ends(s, e, g)
    ensures HandedOut(s, g) && g in s.threads && (e.RemoveDead? ==> e.lease.key == s.threads[g].key)
  {
    EnderWasHandedOut(s, e, g);
    var lease :| lease in s.leases && lease.generation == g;
    assert LeaseKnown(s, lease);
    if e.RemoveDead? { assert LeaseKnown(s, e.lease); }
  }

  /** An owner that has ended is out of the hub for good: no later lease refers to it. */
  lemma {:induction false} NoLeaseAfterEnd(states: seq<System>, events: seq<Event>, i: nat, k: nat, g: nat)
    requires Run(states, events) && i < k < |states| && Ends(states[i], events[i], g)
    ensures Retired(states[k], g)
    ensures forall lease :: lease in states[k].leases && lease.generation == g ==> lease in states[i].leases
    decreases k - i
  {
    hide Next, Enabled, Ends, Inv, Retired;
    if k == i + 1 {
      RunKeepsInv(states, events, i);
      EnderIsKnown(states[i], events[i], g);
      EndRemoves(states[i], events[i], g);
      RemovalRetires(states[i], g);
      SameHubRetired(states[i].(hub := states[k].hub), states[k], g);
    } else {
      NoLeaseAfterEnd(states, events, i, k - 1, g);
      RetiredStays(states[k - 1], events[k - 1], g);
    }
  }

  lemma SameHubRetired(s: System, s': System, g: nat)
    requires Retired(s, g) && s.hub == s'.hub
    ensures Retired(s', g)
  {
  }

  /** In particular, no lease handed out after the expiry check refers to the killed owner. */
  lemma NoLeaseAfterGraceKill(states: seq<System>, events: seq<Event>, i: nat, k: nat)
    requires Run(states, events) && i < k < |states| && GraceKill(states[i], events[i])
    ensures Retired(states[k], events[i].generation)
    ensures forall lease :: lease in states[k].leases && lease.generation == events[i].generation
                ==> lease in states[i].leases
  {
    NoLeaseAfterEnd(states, events, i, k, events[i].generation);
  }

  /** The key of an owner that ends, or of a reservation that is cancelled, can be had again at once,
      under a generation never used before, however full the hub was. */
  lemma LeavingFreesTheKey(states: seq<System>, events: seq<Event>, i: nat, key: Key)
    requires Run(states, events) && i < |events|
    requires events[i] == Event.CancelReservation(key)
             || (key in states[i].hub.owners && Ends(states[i], events[i], states[i].hub.owners[key].generation))
    ensures Acquired(states[i + 1].hub, key) == Reserved(states[i].hub.nextGeneration + 1)
    ensures states[i].hub.nextGeneration + 1 !in states[i + 1].threads
  {
    var s, s' := states[i], states[i + 1];
    RunKeepsInv(states, events, i);
    RunKeepsInv(states, events, i + 1);
    if events[i] == Event.CancelReservation(key) {
      assert s'.hub.reservations.Keys == s.hub.reservations.Keys - {key};
    } else {
      var g := s.hub.owners[key].generation;
      assert EntryExact(s, key) && LeaseKnown(s, Lease(key, g, s.hub.owners[key].connection));
      EnderIsKnown(s, events[i], g);
      EndRemoves(s, events[i], g);
      assert s'.hub.owners.Keys == s.hub.owners.Keys - {key};
    }
    assert forall g :: g in s'.threads ==> ThreadSane(s', g);
  }

  /** What a socket is told in any reachable state: that its key is being set up, the lease that takes the
      owner over, or, for a new key, that four are taken or its generation. */
  lemma ConnectAnswers(states: seq<System>, events: seq<Event>, i: nat, key: Key)
    requires Run(states, events) && i < |states|
    ensures var h := states[i].hub;
            && (Acquired(h, key).Connecting? <==> key in h.reservations)
            && (Acquired(h, key).Reattach? <==> key in h.owners)
            && (Acquired(h, key).CapacityReached? <==>
                  key !in h.owners && key !in h.reservations && |h.owners.Keys + h.reservations.Keys| == 4)
  {
    RunKeepsInv(states, events, i);
  }

  /** The key that a step is about. */
  function KeyAt(s: System, e: Event): Key
    requires Enabled(s, e)
  {
    match e
    case Connect(key) => key
    case SpawnThread(key) => key
    case FinishReservation(key) => key
    case CancelReservation(key) => key
    case Activate(g) => s.threads[g].key
    case Send(lease, _) => lease.key
    case MarkDetached(lease) => lease.key
    case Handle(g) => s.threads[g].key
    case Release(g) => s.threads[g].key
    case CheckGrace(g) => s.threads[g].key
    case Finish(g) => s.threads[g].key
    case Crash(g) => s.threads[g].key
    case RemoveDead(lease) => lease.key
  }

  lemma EntryIsItsKeys(s: System, e: Event, key: Key)
    requires Enabled(s, e) && KeyAt(s, e) != key
    ensures var h, h' := s.hub, Next(s, e).hub;
            (key in h'.owners <==> key in h.owners) && (key in h.owners ==> h'.owners[key] == h.owners[key])
  {
  }

  lemma ReservationIsItsKeys(s: System, e: Event, key: Key)
    requires Enabled(s, e) && KeyAt(s, e) != key
    ensures var h, h' := s.hub, Next(s, e).hub;
            && (key in h'.reservations <==> key in h.reservations)
            && (key in h.reservations ==> h'.reservations[key] == h.reservations[key])
  {
  }

  lemma ThreadIsItsKeys(s: System, e: Event, g: nat)
    requires Enabled(s, e) && g in s.threads && KeyAt(s, e) != s.threads[g].key
    requires forall lease :: lease in s.leases ==> LeaseKnown(s, lease)
    ensures g in Next(s, e).threads && Next(s, e).threads[g] == s.threads[g]
  {
    if e.Send? { assert LeaseKnown(s, e.lease); }
  }

  /** Terminals do not disturb each other: a step about one key leaves the hub's entries and
      reservations of all others, and their threads, as they are. */
  lemma OthersKeepTheirs(states: seq<System>, events: seq<Event>, i: nat, key: Key)
    requires Run(states, events) && i < |events| && KeyAt(states[i], events[i]) != key
    ensures var h, h' := states[i].hub, states[i + 1].hub;
            && (key in h'.owners <==> key in h.owners) && (key in h.owners ==> h'.owners[key] == h.owners[key])
            && (key in h'.reservations <==> key in h.reservations)
            && (key in h.reservations ==> h'.reservations[key] == h.reservations[key])
    ensures forall g :: g in states[i].threads && states[i].threads[g].key == key
                ==> g in states[i + 1].threads && states[i + 1].threads[g] == states[i].threads[g]
  {
    hide Next, Enabled, KeyAt, LeaseKnown;
    RunKeepsInv(states, events, i);
    EntryIsItsKeys(states[i], events[i], key);
    ReservationIsItsKeys(states[i], events[i], key);
    forall g | g in states[i].threads && states[i].threads[g].key == key
      ensures g in states[i + 1].threads && states[i + 1].threads[g] == states[i].threads[g]
    {
      ThreadIsItsKeys(states[i], events[i], g);
    }
  }

  /** What leaves an entry behind in the hub: a panic, or an end before the reservation was finished. */
  predicate Vanishes(s: System, e: Event, g: nat) {
    e == Crash(g) || (e == Finish(g) && !HandedOut(s, g))
  }

  lemma DiesByEnding(s: System, e: Event, g: nat)
    requires Enabled(s, e) && !Alive(Next(s, e), g) && g in Next(s, e).threads
    ensures g in s.threads
    ensures Alive(s, g) ==> Ends(s, e, g) || Vanishes(s, e, g)
  {
  }

  lemma {:induction false} DiedHow(states: seq<System>, events: seq<Event>, i: nat, g: nat) returns (j: nat)
    requires Run(states, events) && i < |states| && g in states[i].threads && !Alive(states[i], g)
    ensures j < i && (Ends(states[j], events[j], g) || Vanishes(states[j], events[j], g))
  {
    hide Next, Enabled, Ends, Vanishes;
    DiesByEnding(states[i - 1], events[i - 1], g);
    if Alive(states[i - 1], g) {
      j := i - 1;
    } else {
      j := DiedHow(states, events, i - 1, g);
    }
  }

  /** The hub offers no owner that is not there: the thread behind an entry lives, unless it panicked or
      had stopped before it was entered. */
  lemma EntriesLive(states: seq<System>, events: seq<Event>, i: nat, key: Key)
    requires Run(states, events) && i < |states| && key in states[i].hub.owners
    ensures var g := states[i].hub.owners[key].generation;
            Alive(states[i], g) || exists j :: 0 <= j < i && Vanishes(states[j], events[j], g)
  {
    hide Next, Enabled, Ends, Vanishes;
    var g := states[i].hub.owners[key].generation;
    RunKeepsInv(states, events, i);
    assert EntryExact(states[i], key);
    if !Alive(states[i], g) {
      var j := DiedHow(states, events, i, g);
      if Ends(states[j], events[j], g) {
        NoLeaseAfterEnd(states, events, j, i, g);
        assert false;
      }
    }
  }

  /** In any reachable state the detach of a connection that has been superseded changes nothing
      in the hub. */
  lemma StaleDetachIsPowerless(states: seq<System>, events: seq<Event>, i: nat, stale: Lease, newer: Lease)
    requires Run(states, events) && i < |events|
    requires stale in states[i].leases && newer in states[i].leases
    requires stale.generation == newer.generation && stale.connection < newer.connection
    requires Drops(states[i], events[i], stale)
    ensures states[i + 1].hub == states[i].hub
  {
    var s := states[i];
    RunKeepsInv(states, events, i);
    assert LeaseKnown(s, stale) && LeaseKnown(s, newer);
    if HasOwner(s.hub, stale.key, stale.generation) { assert EntryExact(s, stale.key); }
  }

  // ---------------------------------------------------------------- who reaches the child

  predicate HandlesAttach(s: System, e: Event, g: nat) {
    Handles(s, e, g) && s.threads[g].queue[0].Attach?
  }

  /** The connection of the last Attach that generation `g` handled before state `i`; 0 is none. */
  function LastAttached(states: seq<System>, events: seq<Event>, i: nat, g: nat): nat
    requires i < |states| == |events| + 1
  {
    if i == 0 then 0
    else if HandlesAttach(states[i - 1], events[i - 1], g) then states[i - 1].threads[g].queue[0].connection
    else LastAttached(states, events, i - 1, g)
  }

  lemma ThreadsStay(s: System, e: Event, g: nat)
    requires Enabled(s, e)
    ensures g in s.threads ==> g in Next(s, e).threads
    ensures g !in s.threads && g in Next(s, e).threads ==>
              Next(s, e).threads[g].phase == Starting && Next(s, e).threads[g].connection == 0
    ensures g in s.threads ==>
              var t, t' := s.threads[g], Next(s, e).threads[g];
              && (t'.phase == Starting ==> t.phase == Starting)
              && t'.connection == (if HandlesAttach(s, e, g) then t.queue[0].connection
                                   else if e == Activate(g) then 0 else t.connection)
  {
  }

  /** The connection a thread serves is the one whose Attach it handled last. */
  lemma {:induction false} ServedIsLastAttached(states: seq<System>, events: seq<Event>, i: nat, g: nat)
    requires Run(states, events) && i < |states|
    ensures LastAttached(states, events, i, g) == if g in states[i].threads then states[i].threads[g].connection else 0
    ensures Is(states[i], g, Starting) ==> states[i].threads[g].connection == 0
  {
    if i > 0 {
      ServedIsLastAttached(states, events, i - 1, g);
      ThreadsStay(states[i - 1], events[i - 1], g);
    }
  }

  function QueueOf(s: System, g: nat): seq<OwnerEvent> {
    if g in s.threads then s.threads[g].queue else []
  }

  /** What a step sends to generation `g`, and what it has it handle. */
  function SentBy(e: Event, g: nat): seq<OwnerEvent> {
    if e.Send? && e.lease.generation == g then [e.event] else []
  }

  function HandledBy(s: System, e: Event, g: nat): seq<OwnerEvent> {
    if Handles(s, e, g) then [s.threads[g].queue[0]] else []
  }

  function AllSent(events: seq<Event>, i: nat, g: nat): seq<OwnerEvent>
    requires i <= |events|
  {
    if i == 0 then [] else AllSent(events, i - 1, g) + SentBy(events[i - 1], g)
  }

  function AllHandled(states: seq<System>, events: seq<Event>, i: nat, g: nat): seq<OwnerEvent>
    requires i <= |events| <= |states|
  {
    if i == 0 then [] else AllHandled(states, events, i - 1, g) + HandledBy(states[i - 1], events[i - 1], g)
  }

  lemma QueueStep(s: System, e: Event, g: nat)
    requires Enabled(s, e)
    ensures HandledBy(s, e, g) + QueueOf(Next(s, e), g) == QueueOf(s, g) + SentBy(e, g)
  {
  }

  /** An owner handles what the sockets send in the order in which it was sent, and leaves out nothing:
      what it has not handled waits in its queue. */
  lemma {:induction false} HandledInOrder(states: seq<System>, events: seq<Event>, i: nat, g: nat)
    requires Run(states, events) && i < |states|
    ensures AllSent(events, i, g) == AllHandled(states, events, i, g) + QueueOf(states[i], g)
  {
    hide Next, Enabled, HandledBy, SentBy;
    if i > 0 {
      HandledInOrder(states, events, i - 1, g);
      QueueStep(states[i - 1], events[i - 1], g);
      var handled := AllHandled(states, events, i - 1, g);
      AddAssociates(handled, QueueOf(states[i - 1], g), SentBy(events[i - 1], g));
      AddAssociates(handled, HandledBy(states[i - 1], events[i - 1], g), QueueOf(states[i], g));
    }
  }

  /** The owner lets its client go: it releases the socket, or handles the Detach of the connection
      attached last. */
  predicate SeesOff(states: seq<System>, events: seq<Event>, k: nat, g: nat)
    requires k < |events| && |states| == |events| + 1
  {
    || events[k] == Release(g)
    || (Handles(states[k], events[k], g) && states[k].threads[g].queue[0] == Detach(LastAttached(states, events, k, g)))
  }

  /** Some client has been attached to generation `g` and not been seen off since. */
  predicate HasClient(states: seq<System>, events: seq<Event>, i: nat, g: nat)
    requires i < |states| == |events| + 1
  {
    i > 0
    && (HandlesAttach(states[i - 1], events[i - 1], g)
        || (!SeesOff(states, events, i - 1, g) && HasClient(states, events, i - 1, g)))
  }

  lemma SinkStep(s: System, e: Event, g: nat)
    requires Enabled(s, e) && (Is(s, g, Starting) ==> !s.threads[g].sink)
    ensures var s' := Next(s, e);
            && (Is(s', g, Starting) ==> !s'.threads[g].sink)
            && ((g in s'.threads && s'.threads[g].sink) <==>
                  || HandlesAttach(s, e, g)
                  || (g in s.threads && s.threads[g].sink && e != Release(g)
                      && !(Handles(s, e, g) && s.threads[g].queue[0] == Detach(s.threads[g].connection))))
  {
  }

  /** A thread has a socket to send to exactly as long as it has a client. */
  lemma {:induction false} SinkIffClient(states: seq<System>, events: seq<Event>, i: nat, g: nat)
    requires Run(states, events) && i < |states|
    ensures HasClient(states, events, i, g) <==> g in states[i].threads && states[i].threads[g].sink
    ensures Is(states[i], g, Starting) ==> !states[i].threads[g].sink
  {
    hide Next, Enabled, HandlesAttach, LastAttached;
    if i > 0 {
      SinkIffClient(states, events, i - 1, g);
      ServedIsLastAttached(states, events, i - 1, g);
      SinkStep(states[i - 1], events[i - 1], g);
    }
  }

  lemma HandledActs(s: System, e: Event, g: nat)
    requires Enabled(s, e) && g in s.threads
    ensures g in Next(s, e).threads
    ensures Next(s, e).threads[g].child == s.threads[g].child
              + if Handles(s, e, g) && s.threads[g].queue[0].connection == s.threads[g].connection
                then ActsOf(s.threads[g].queue[0]) else []
  {
  }

  /** In any run, whatever a socket does to the child it does while it is the one attached last: the
      record of the child grows by what the event at hand asks if that event comes from this
      connection, and in no other way. */
  lemma OnlyTheAttachedActs(states: seq<System>, events: seq<Event>, i: nat, g: nat)
    requires Run(states, events) && i < |events| && g in states[i].threads
    ensures g in states[i + 1].threads
    ensures var t := states[i].threads[g];
            states[i + 1].threads[g].child == t.child
              + if Handles(states[i], events[i], g) && t.queue[0].connection == LastAttached(states, events, i, g)
                then ActsOf(t.queue[0]) else []
  {
    ServedIsLastAttached(states, events, i, g);
    HandledActs(states[i], events[i], g);
  }

  /** Every byte typed, every resize and every kill on request came from the connection whose Attach
      was the last one handled by then. */
  lemma {:induction false} EveryActWasByTheAttached(states: seq<System>, events: seq<Event>, i: nat, g: nat, n: nat)
    returns (j: nat)
    requires Run(states, events) && i < |states| && g in states[i].threads && n < |states[i].threads[g].child|
    ensures j < i && Handles(states[j], events[j], g)
    ensures ActsOf(states[j].threads[g].queue[0]) == [states[i].threads[g].child[n]]
    ensures states[i].threads[g].child[n].0 == LastAttached(states, events, j, g)
  {
    hide Next, Enabled, LastAttached;
    ChildStartsUntouched(states[i - 1], events[i - 1], g);
    OnlyTheAttachedActs(states, events, i - 1, g);
    if n < |states[i - 1].threads[g].child| {
      j := EveryActWasByTheAttached(states, events, i - 1, g, n);
    } else {
      j := i - 1;
    }
  }

  lemma ChildStartsUntouched(s: System, e: Event, g: nat)
    requires Enabled(s, e) && g in Next(s, e).threads
    ensures g !in s.threads ==> Next(s, e).threads[g].child == []
  {
  }

  /** In any run a replaced socket is powerless: what it still sends is taken off the queue and
      changes nothing else, in the hub or in any thread. */
  lemma StaleConnectionIsPowerless(states: seq<System>, events: seq<Event>, i: nat, g: nat)
    requires Run(states, events) && i < |events| && events[i] == Handle(g)
    requires g in states[i].threads && states[i].threads[g].queue != []
    requires !states[i].threads[g].queue[0].Attach?
    requires states[i].threads[g].queue[0].connection != LastAttached(states, events, i, g)
    ensures var t := states[i].threads[g];
            states[i + 1] == states[i].(threads := states[i].threads[g := t.(queue := t.queue[1..])])
  {
    ServedIsLastAttached(states, events, i, g);
  }

  // ---------------------------------------------------------------- the grace timer can be lost

  /** The thread runs, serves nobody, and no deadline will ever make it look at the hub again. */
  predicate Stranded(s: System, g: nat) {
    Is(s, g, Running) && !s.threads[g].sink && !s.threads[g].deadline
  }

  /** An expiry check that found somebody reconnected. */
  predicate Yields(s: System, e: Event, g: nat) {
    e == CheckGrace(g) && !GraceKill(s, e)
  }

  /** What makes a deadline run again or puts a client in its place: an Attach, or a Detach of the
      connection attached last. */
  predicate Rearms(states: seq<System>, events: seq<Event>, k: nat, g: nat)
    requires k < |events| && |states| == |events| + 1
  {
    && Handles(states[k], events[k], g)
    && var event := states[k].threads[g].queue[0];
       event.Attach? || (event.Detach? && event.connection == LastAttached(states, events, k, g))
  }

  ghost predicate YieldedForGood(states: seq<System>, events: seq<Event>, i: nat, g: nat)
    requires i < |states| == |events| + 1
  {
    exists j :: 0 <= j < i && Yields(states[j], events[j], g)
                && forall k :: j < k < i ==> !Rearms(states, events, k, g)
  }

  lemma YieldedStep(states: seq<System>, events: seq<Event>, i: nat, g: nat)
    requires i < |events| && |states| == |events| + 1
    ensures YieldedForGood(states, events, i + 1, g) <==>
            Yields(states[i], events[i], g) || (YieldedForGood(states, events, i, g) && !Rearms(states, events, i, g))
  {
    if YieldedForGood(states, events, i, g) && !Rearms(states, events, i, g) {
      var j :| 0 <= j < i && Yields(states[j], events[j], g) && forall k :: j < k < i ==> !Rearms(states, events, k, g);
      assert forall k :: j < k < i + 1 ==> !Rearms(states, events, k, g);
    }
  }

  lemma StrandedStep(s: System, e: Event, g: nat)
    requires Enabled(s, e) && g in s.threads && (s.threads[g].deadline ==> !s.threads[g].sink)
    requires Is(Next(s, e), g, Running)
    ensures Stranded(Next(s, e), g) <==>
            || Yields(s, e, g)
            || (Stranded(s, g)
                && !(Handles(s, e, g) && (s.threads[g].queue[0].Attach?
                       || (s.threads[g].queue[0].Detach?
                           && s.threads[g].queue[0].connection == s.threads[g].connection))))
  {
  }

  lemma StrandedNext(states: seq<System>, events: seq<Event>, i: nat, g: nat)
    requires Run(states, events) && i < |events| && g in states[i].threads && Is(states[i + 1], g, Running)
    ensures Stranded(states[i + 1], g) <==>
            Yields(states[i], events[i], g) || (Stranded(states[i], g) && !Rearms(states, events, i, g))
  {
    RunKeepsInv(states, events, i);
    assert ThreadSane(states[i], g);
    ServedIsLastAttached(states, events, i, g);
    StrandedStep(states[i], events[i], g);
  }

  lemma YieldingRuns(s: System, e: Event, g: nat)
    requires Enabled(s, e) && Yields(s, e, g)
    ensures Is(s, g, Running)
  {
  }

  lemma NoneYieldedYet(states: seq<System>, events: seq<Event>, g: nat)
    requires |states| == |events| + 1
    ensures !YieldedForGood(states, events, 0, g)
  {
  }

  /** A thread that does not run yet has not yielded. */
  lemma {:induction false} NotYieldedYet(states: seq<System>, events: seq<Event>, i: nat, g: nat)
    requires Run(states, events) && i < |states| && (g !in states[i].threads || Is(states[i], g, Starting))
    ensures !YieldedForGood(states, events, i, g)
  {
    hide Next, Enabled, YieldedForGood, Yields, Rearms, LastAttached;
    if i > 0 {
      ThreadsStay(states[i - 1], events[i - 1], g);
      NotYieldedYet(states, events, i - 1, g);
      YieldedStep(states, events, i - 1, g);
      if Yields(states[i - 1], events[i - 1], g) {
        YieldingRuns(states[i - 1], events[i - 1], g);
        assert false;
      }
    } else {
      NoneYieldedYet(states, events, g);
    }
  }

  /** A running thread is stranded exactly if an expiry check of its own yielded to a reconnect and,
      since then, it has handled no Attach and no Detach of the connection attached last. */
  lemma {:induction false} StrandedIffYielded(states: seq<System>, events: seq<Event>, i: nat, g: nat)
    requires Run(states, events) && i < |states| && Is(states[i], g, Running)
    ensures Stranded(states[i], g) <==> YieldedForGood(states, events, i, g)
  {
    hide Next, Enabled, YieldedForGood, Yields, Rearms, LastAttached;
    if i > 0 {
      var s, e := states[i - 1], events[i - 1];
      YieldedStep(states, events, i - 1, g);
      RunsSince(s, e, g);
      StrandedNext(states, events, i - 1, g);
      if Is(s, g, Running) {
        StrandedIffYielded(states, events, i - 1, g);
      } else {
        NotYieldedYet(states, events, i - 1, g);
      }
    }
  }

  lemma RunsSince(s: System, e: Event, g: nat)
    requires Enabled(s, e) && Is(Next(s, e), g, Running)
    ensures Is(s, g, Running) || Is(s, g, Starting)
  {
  }

  ghost predicate Reachable(s: System) {
    exists states, events :: Run(states, events) && states[|events|] == s
  }

  lemma RunExtends(states: seq<System>, events: seq<Event>, e: Event)
    requires Run(states, events) && Enabled(states[|events|], e)
    ensures Run(states + [Next(states[|events|], e)], events + [e])
  {
    hide Next, Enabled;
  }

  lemma ReachStep(s: System, e: Event, s': System)
    requires Reachable(s) && Enabled(s, e)
    requires var n := Next(s, e);
             && s'.hub.owners == n.hub.owners && s'.hub.reservations == n.hub.reservations
             && s'.hub.nextGeneration == n.hub.nextGeneration
             && s'.threads == n.threads && s'.leases == n.leases && s'.detached == n.detached
    ensures Reachable(s')
  {
    hide Next, Enabled, Run;
    assert s' == Next(s, e);
    ReachNext(s, e);
  }

  lemma ReachNext(s: System, e: Event)
    requires Reachable(s) && Enabled(s, e)
    ensures Reachable(Next(s, e))
  {
    hide Next, Enabled;
    var states, events :| Run(states, events) && states[|events|] == s;
    RunExtends(states, events, e);
    var longer, more := states + [Next(s, e)], events + [e];
    assert Run(longer, more) && longer[|more|] == Next(s, e);
  }

  /** One thread for one key, as generation 1. */
  function Single(key: Key, entry: OwnerEntry, thread: Thread, leases: set<Lease>, detached: set<(nat, nat)>): System {
    System(Hub(map[key := entry], map[], 1), map[1 := thread], leases, detached)
  }

  lemma InitialIsReachable()
    ensures Reachable(INITIAL)
  {
    var none: seq<Event> := [];
    assert Run([INITIAL], none) && [INITIAL][|none|] == INITIAL;
  }

  /** The first client's whole visit: the terminal is left in its grace window. */
  lemma GraceWindowIsReachable(key: Key)
    ensures Reachable(Single(key, OwnerEntry(1, false, 1), Thread(key, Running, 1, false, true, [], []),
                             {Lease(key, 1, 1)}, {(1, 1)}))
  {
    var lease := Lease(key, 1, 1);
    var up := OwnerEntry(1, true, 1);
    var starting := Thread(key, Starting, 0, false, false, [], []);
    hide Reachable;
    InitialIsReachable();
    var reserved := System(Hub(map[], map[key := 1], 1), map[], {}, {});
    ReachStep(INITIAL, Connect(key), reserved);
    ReachStep(reserved, SpawnThread(key), reserved.(threads := map[1 := starting]));
    ReachStep(reserved.(threads := map[1 := starting]), Event.FinishReservation(key),
              Single(key, up, starting, {lease}, {}));
    FirstClientArrives(key);
    FirstClientLeaves(key);
  }

  lemma FirstClientArrives(key: Key)
    requires Reachable(Single(key, OwnerEntry(1, true, 1), Thread(key, Starting, 0, false, false, [], []),
                              {Lease(key, 1, 1)}, {}))
    ensures Reachable(Single(key, OwnerEntry(1, true, 1), Thread(key, Running, 1, true, false, [], []),
                             {Lease(key, 1, 1)}, {}))
  {
    var lease := Lease(key, 1, 1);
    var up := OwnerEntry(1, true, 1);
    var starting := Thread(key, Starting, 0, false, false, [], []);
    var idle := Thread(key, Running, 0, false, true, [], []);
    var served := Thread(key, Running, 1, true, false, [], []);
    ReachStep(Single(key, up, starting, {lease}, {}), Activate(1), Single(key, up, idle, {lease}, {}));
    assert idle.queue + [Attach(1)] == [Attach(1)] && [Attach(1)][1..] == [];
    ReachStep(Single(key, up, idle, {lease}, {}), Send(lease, Attach(1)),
              Single(key, up, idle.(queue := [Attach(1)]), {lease}, {}));
    ReachStep(Single(key, up, idle.(queue := [Attach(1)]), {lease}, {}), Handle(1),
              Single(key, up, served, {lease}, {}));
  }

  lemma FirstClientLeaves(key: Key)
    requires Reachable(Single(key, OwnerEntry(1, true, 1), Thread(key, Running, 1, true, false, [], []),
                              {Lease(key, 1, 1)}, {}))
    ensures Reachable(Single(key, OwnerEntry(1, false, 1), Thread(key, Running, 1, false, true, [], []),
                             {Lease(key, 1, 1)}, {(1, 1)}))
  {
    var lease := Lease(key, 1, 1);
    var down := OwnerEntry(1, false, 1);
    var served := Thread(key, Running, 1, true, false, [], []);
    ReachStep(Single(key, down.(connected := true), served, {lease}, {}), Event.MarkDetached(lease),
              Single(key, down, served, {lease}, {(1, 1)}));
    assert served.queue + [Detach(1)] == [Detach(1)] && [Detach(1)][1..] == [];
    var leaving := served.(queue := [Detach(1)]);
    ReachStep(Single(key, down, served, {lease}, {(1, 1)}), Send(lease, Detach(1)),
              Single(key, down, leaving, {lease}, {(1, 1)}));
    ReachStep(Single(key, down, leaving, {lease}, {(1, 1)}), Handle(1),
              Single(key, down, Thread(key, Running, 1, false, true, [], []), {lease}, {(1, 1)}));
  }

  /** The grace timer can be lost. From the grace window: a client reconnects, the deadline passes
      and yields to it, its upgrade then fails, and the thread ignores a detach for a connection it
      never served. Every connection is gone, nothing is queued, and no deadline runs. */
  lemma GraceTimerCanBeLost(key: Key) returns (s: System)
    ensures Reachable(s) && Stranded(s, 1) && s.threads[1].queue == []
    ensures forall lease :: lease in s.leases ==> (lease.generation, lease.connection) in s.detached
  {
    GraceWindowIsReachable(key);
    var first, second := Lease(key, 1, 1), Lease(key, 1, 2);
    var waiting := Thread(key, Running, 1, false, true, [], []);
    var yielded := waiting.(deadline := false);
    var up, down := OwnerEntry(1, true, 2), OwnerEntry(1, false, 2);
    ReachStep(Single(key, OwnerEntry(1, false, 1), waiting, {first}, {(1, 1)}), Connect(key),
              Single(key, up, waiting, {first, second}, {(1, 1)}));
    ReachStep(Single(key, up, waiting, {first, second}, {(1, 1)}), CheckGrace(1),
              Single(key, up, yielded, {first, second}, {(1, 1)}));
    ReachStep(Single(key, up, yielded, {first, second}, {(1, 1)}), Event.MarkDetached(second),
              Single(key, down, yielded, {first, second}, {(1, 1), (1, 2)}));
    assert yielded.queue + [Detach(2)] == [Detach(2)] && [Detach(2)][1..] == [];
    var ignoring := yielded.(queue := [Detach(2)]);
    ReachStep(Single(key, down, yielded, {first, second}, {(1, 1), (1, 2)}), Send(second, Detach(2)),
              Single(key, down, ignoring, {first, second}, {(1, 1), (1, 2)}));
    s := Single(key, down, yielded, {first, second}, {(1, 1), (1, 2)});
    ReachStep(Single(key, down, ignoring, {first, second}, {(1, 1), (1, 2)}), Handle(1), s);
  }
}
