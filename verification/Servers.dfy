// The server over whole runs (internal/server/conn.go, server.go): commands run under shard
// locks and are logged before the locks are released, the clock moves on, keys expire,
// compaction captures the shards into a snapshot, the process stops and another one, with
// its own hash seed, restores the snapshot and replays the log.
module Servers {
  import opened AppendLog
  import opened Stores
  import opened Serial
  import D = Durability

  // What the run of a server depends on. Seed is what a process draws when it starts; P is
  // what a snapshot holds.
  datatype Config<!Seed, !Loc(==), !Cell, !P> = Config(
    sem: Seed -> Semantics<Loc, Cell>,
    legal: Record -> bool,                                   // commands the executor runs
    log: (Instant, Record) -> Record,                        // what is appended for a command
    captures: (Seed, Shards<Loc, Cell>, P) -> bool,          // a snapshot that capture may write
    restore: (Seed, P) -> Shards<Loc, Cell>,
    blank: P,                                                // stands for a missing snapshot
    always: bool)

  ghost predicate Sound<Seed(!new), Loc(!new), Cell(!new), P(!new)>(cfg: Config<Seed, Loc, Cell, P>) {
    (forall h :: Serial.Sound(cfg.sem(h))) && Settles(cfg) && Restores(cfg)
  }

  // What is appended is a command the executor runs, and logging it again changes nothing.
  ghost predicate Settles<Seed, Loc, Cell, P>(cfg: Config<Seed, Loc, Cell, P>) {
    && (forall t, c :: cfg.legal(c) ==> cfg.legal(cfg.log(t, c)))
    && (forall t, u, c :: cfg.log(u, cfg.log(t, c)) == cfg.log(t, c))
  }

  // A restored snapshot could have been captured from the shards it was restored into.
  ghost predicate Restores<Seed(!new), Loc(!new), Cell(!new), P(!new)>(cfg: Config<Seed, Loc, Cell, P>) {
    && (forall h, p :: cfg.sem(h).IsState(cfg.restore(h, p)))
    && (forall h, p :: IsSnapshot(cfg, p) ==> cfg.captures(h, cfg.restore(h, p), p))
    && (forall h :: cfg.captures(h, cfg.restore(h, cfg.blank), cfg.blank))
  }

  ghost predicate IsSnapshot<Seed(!new), Loc(!new), Cell(!new), P>(cfg: Config<Seed, Loc, Cell, P>, p: P) {
    exists h, s :: cfg.captures(h, s, p)
  }

  // The shards a snapshot was captured from, and when.
  datatype Source<Loc, Cell> = Source(shards: Shards<Loc, Cell>, at: Instant)

  datatype System<Seed, Loc, Cell, P> = System(
    disk: D.Disk<P>,
    clock: Instant,
    seed: Seed,
    live: Shards<Loc, Cell>,
    inflight: InFlight,
    from: P,                        // the snapshot this process restored when it started
    first: nat,                     // where in the log it began to replay
    items: seq<Item>,               // what it has replayed and logged since
    base: Source<Loc, Cell>,        // where the installed snapshot came from
    next: Source<Loc, Cell>)        // where the one being written comes from

  datatype Action<Seed, Loc, Cell, P> =
    | Tick(later: Instant)
    | Run(thread: nat, command: Record)
    | Append(thread: nat)
    | Expire(loc: Loc, at: Instant, cell: Cell)
    | Write(step: D.Action<P>)      // spill, flush, rotate, remove
    | Capture(payload: P)
    | Install
    | Stop(step: D.Action<P>)       // crash or power failure
    | Restart(seed: Seed, times: seq<Instant>)

  ghost function Payload<Seed, Loc, Cell, P>(cfg: Config<Seed, Loc, Cell, P>, st: StoreState<P>): (p: P) {
    if st.snapshot.Present? then st.snapshot.state else cfg.blank
  }

  // The shards this process started from.
  ghost function Origin<Seed, Loc, Cell, P>(cfg: Config<Seed, Loc, Cell, P>,
        s: System<Seed, Loc, Cell, P>): (r: Shards<Loc, Cell>) {
    cfg.restore(s.seed, s.from)
  }

  ghost predicate LocksNothing<Loc, Cell>(sem: Semantics<Loc, Cell>, inflight: InFlight) {
    forall t :: t in inflight ==> sem.locks(inflight[t].command) == {}
  }

  // Where the snapshot's part of the log ends, and how much of the log survives a crash now.
  ghost function Cut<P>(d: D.Disk<P>): (p: nat) {
    if d.store.Base() < |d.starts| then d.starts[d.store.Base()] else 0
  }

  ghost predicate Nondecreasing(from: Instant, times: seq<Instant>) {
    && (forall i :: 0 <= i < |times| ==> from <= times[i])
    && (forall i, j :: 0 <= i < j < |times| ==> times[i] <= times[j])
  }

  ghost function Last(from: Instant, times: seq<Instant>): (t: Instant) {
    if times == [] then from else times[|times| - 1]
  }

  // The records a restart replays, each at its own instant.
  ghost function Replayed<P>(d: D.Disk<P>, times: seq<Instant>): (r: seq<Item>)
    requires D.Placed(d) && Cut(d) + |times| <= |d.history|
    ensures |r| == |times|
  {
    seq(|times|, i requires 0 <= i < |times| => Item(times[i], times[i], d.history[Cut(d) + i]))
  }

  // The steps.

  ghost predicate Enabled<Seed, Loc, Cell, P>(cfg: Config<Seed, Loc, Cell, P>, s: System<Seed, Loc, Cell, P>,
        a: Action<Seed, Loc, Cell, P>) {
    var sem, captured := cfg.sem(s.seed), s.disk.phase.Captured?;
    match a
    case Tick(later) => s.clock <= later
    case Run(t, c) =>
      && s.disk.up && t !in s.inflight && cfg.legal(c)
      && (forall u :: u in s.inflight ==> sem.locks(s.inflight[u].command) !! sem.locks(c))
      && (captured ==> sem.locks(c) == {})
    case Append(t) =>
      && t in s.inflight
      && D.Enabled(cfg.always, s.disk, D.Log(cfg.log(s.clock, s.inflight[t].command)))
    case Expire(l, at, cell) =>
      && s.disk.up && !captured && l in sem.locs && l in s.live && at <= s.clock
      && Free(sem, s.inflight, l) && sem.same(at, s.live[l], cell)
    case Write(step) =>
      && (step.Spill? || step.Flush? || step.Rotate? || step.Remove?)
      && D.Enabled(cfg.always, s.disk, step)
    case Capture(p) =>
      && D.Enabled(cfg.always, s.disk, D.Capture(p)) && LocksNothing(sem, s.inflight)
      && cfg.captures(s.seed, s.live, p)
    case Install => D.Enabled(cfg.always, s.disk, D.Install)
    case Stop(step) => (step.Crash? || step.PowerFail?) && D.Enabled(cfg.always, s.disk, step)
    case Restart(_, times) =>
      && D.Enabled(cfg.always, s.disk, D.Reopen)
      && Cut(s.disk) + |times| == D.Survivors(s.disk) <= |s.disk.history|
      && Nondecreasing(s.clock, times)
  }

  ghost function Apply<Seed, Loc, Cell, P>(cfg: Config<Seed, Loc, Cell, P>, s: System<Seed, Loc, Cell, P>,
        a: Action<Seed, Loc, Cell, P>): (r: System<Seed, Loc, Cell, P>)
    requires Enabled(cfg, s, a)
  {
    var sem := cfg.sem(s.seed);
    match a
    case Tick(later) => s.(clock := later)
    case Run(t, c) => s.(live := sem.step(s.clock, s.live, c), inflight := s.inflight[t := Ran(s.clock, c)])
    case Append(t) =>
      var r := s.inflight[t];
      s.(inflight := s.inflight - {t}, items := s.items + [Item(r.at, s.clock, r.command)],
         disk := D.Apply(cfg.always, s.disk, D.Log(cfg.log(s.clock, r.command))))
    case Expire(l, _, cell) => s.(live := s.live[l := cell])
    case Write(step) => s.(disk := D.Apply(cfg.always, s.disk, step))
    case Capture(p) =>
      s.(disk := D.Apply(cfg.always, s.disk, D.Capture(p)), next := Source(s.live, s.clock))
    case Install => s.(disk := D.Apply(cfg.always, s.disk, D.Install), base := s.next)
    case Stop(step) => s.(disk := D.Apply(cfg.always, s.disk, step), inflight := map[])
    case Restart(h, times) => Restarted(cfg, s, h, times)
  }

  // openPersistence: the snapshot is restored under the new seed, then the log is replayed.
  ghost function Restarted<Seed, Loc, Cell, P>(cfg: Config<Seed, Loc, Cell, P>, s: System<Seed, Loc, Cell, P>,
        h: Seed, times: seq<Instant>): (r: System<Seed, Loc, Cell, P>)
    requires D.Placed(s.disk) && Cut(s.disk) + |times| <= |s.disk.history|
  {
    var from := Payload(cfg, s.disk.store);
    var origin, items := cfg.restore(h, from), Replayed(s.disk, times);
    System(D.Reopened(s.disk), Last(s.clock, times), h, Fold(cfg.sem(h), origin, items), map[],
           from, Cut(s.disk), items, Source(origin, s.clock), Source(origin, s.clock))
  }

  // The invariant.

  // What was logged, and when, in this process.
  ghost predicate Linked<Seed, Loc, Cell, P>(cfg: Config<Seed, Loc, Cell, P>, s: System<Seed, Loc, Cell, P>) {
    && |s.disk.history| == s.first + |s.items|
    && forall i :: 0 <= i < |s.items| ==> LinkedAt(cfg, s.clock, s.items[i], s.disk.history[s.first + i])
  }

  ghost predicate LinkedAt<Seed, Loc, Cell, P>(cfg: Config<Seed, Loc, Cell, P>, clock: Instant, i: Item, r: Record) {
    i.at <= i.logged <= clock && cfg.legal(i.command) && cfg.log(i.logged, i.command) == r
  }

  lemma LinkedTimes<Seed, Loc, Cell, P>(cfg: Config<Seed, Loc, Cell, P>, s: System<Seed, Loc, Cell, P>, k: nat)
    requires Linked(cfg, s) && k < |s.items|
    ensures s.items[k].at <= s.items[k].logged <= s.clock
  {
    assert LinkedAt(cfg, s.clock, s.items[k], s.disk.history[s.first + k]);
  }

  // A snapshot's payload was captured from shards that no reader could tell from the first n
  // items of the log.
  ghost predicate Stands<Seed, Loc, Cell, P>(cfg: Config<Seed, Loc, Cell, P>, s: System<Seed, Loc, Cell, P>,
        src: Source<Loc, Cell>, p: P, n: int) {
    && 0 <= n <= |s.items| && src.at <= s.clock && cfg.captures(s.seed, src.shards, p)
    && cfg.sem(s.seed).Equal(src.at, src.shards, Fold(cfg.sem(s.seed), Origin(cfg, s), s.items[..n]))
  }

  ghost predicate SnapshotsStand<Seed, Loc, Cell, P>(cfg: Config<Seed, Loc, Cell, P>, s: System<Seed, Loc, Cell, P>) {
    && Stands(cfg, s, s.base, Payload(cfg, s.disk.store), Cut(s.disk) - s.first)
    && match s.disk.phase
       case Captured(_, p) => LocksNothing(cfg.sem(s.seed), s.inflight) && Stands(cfg, s, s.next, p, |s.items|)
       case Rotated(g, p) => g < |s.disk.starts| && Stands(cfg, s, s.next, p, s.disk.starts[g] - s.first)
       case _ => true
  }

  ghost predicate Explained<Seed, Loc, Cell, P>(cfg: Config<Seed, Loc, Cell, P>, s: System<Seed, Loc, Cell, P>) {
    && (forall t :: t in s.inflight ==> cfg.legal(s.inflight[t].command))
    && LogOrder(cfg.sem(s.seed), s.clock, s.live, s.inflight, Fold(cfg.sem(s.seed), Origin(cfg, s), s.items))
  }

  ghost predicate Memory<Seed, Loc, Cell, P>(cfg: Config<Seed, Loc, Cell, P>, s: System<Seed, Loc, Cell, P>) {
    && Linked(cfg, s) && SnapshotsStand(cfg, s) && cfg.sem(s.seed).IsState(Origin(cfg, s))
    && (s.disk.up ==> Explained(cfg, s))
  }

  ghost predicate Inv<Seed, Loc, Cell, P>(cfg: Config<Seed, Loc, Cell, P>, s: System<Seed, Loc, Cell, P>) {
    D.Inv(cfg.always, s.disk) && Memory(cfg, s)
  }

  // Each step keeps it.

  lemma StandsLater<Seed, Loc, Cell, P>(cfg: Config<Seed, Loc, Cell, P>, s: System<Seed, Loc, Cell, P>,
        r: System<Seed, Loc, Cell, P>, src: Source<Loc, Cell>, p: P, n: int)
    requires Stands(cfg, s, src, p, n) && s.clock <= r.clock
    requires r.seed == s.seed && r.from == s.from && n <= |r.items| && r.items[..n] == s.items[..n]
    ensures Stands(cfg, r, src, p, n)
  {}

  // Steps that leave this process's log alone.
  ghost predicate SameLog<Seed, Loc, Cell, P>(s: System<Seed, Loc, Cell, P>, r: System<Seed, Loc, Cell, P>) {
    && r.seed == s.seed && r.from == s.from && r.items == s.items && r.first == s.first
    && r.disk.history == s.disk.history && s.clock <= r.clock
  }

  lemma SameLinked<Seed, Loc, Cell, P>(cfg: Config<Seed, Loc, Cell, P>, s: System<Seed, Loc, Cell, P>,
        r: System<Seed, Loc, Cell, P>)
    requires Linked(cfg, s) && SameLog(s, r)
    ensures Linked(cfg, r)
  {
    forall i | 0 <= i < |r.items| ensures LinkedAt(cfg, r.clock, r.items[i], r.disk.history[r.first + i]) {
      assert LinkedAt(cfg, s.clock, s.items[i], s.disk.history[s.first + i]);
    }
  }

  // Snapshots see only the log, the seed and where the segments begin.
  lemma SameSnapshots<Seed, Loc, Cell, P>(cfg: Config<Seed, Loc, Cell, P>, s: System<Seed, Loc, Cell, P>,
        r: System<Seed, Loc, Cell, P>)
    requires SnapshotsStand(cfg, s) && SameLog(s, r) && r.base == s.base && r.next == s.next
    requires r.disk.starts == s.disk.starts && r.disk.store.snapshot == s.disk.store.snapshot
    requires r.disk.phase == s.disk.phase || r.disk.phase.Idle? || r.disk.phase.Removing?
    requires s.disk.phase.Captured? ==> LocksNothing(cfg.sem(s.seed), r.inflight)
    ensures SnapshotsStand(cfg, r)
  {
    StandsLater(cfg, s, r, s.base, Payload(cfg, s.disk.store), Cut(s.disk) - s.first);
    if r.disk.phase.Captured? {
      StandsLater(cfg, s, r, s.next, r.disk.phase.state, |s.items|);
    } else if r.disk.phase.Rotated? {
      StandsLater(cfg, s, r, s.next, r.disk.phase.state, s.disk.starts[r.disk.phase.base] - s.first);
    }
  }

  lemma TickKeeps<Seed, Loc(!new), Cell(!new), P>(cfg: Config<Seed, Loc, Cell, P>,
        s: System<Seed, Loc, Cell, P>, later: Instant)
    requires Serial.Sound(cfg.sem(s.seed)) && Memory(cfg, s) && Enabled(cfg, s, Tick(later))
    ensures Memory(cfg, Apply(cfg, s, Tick(later)))
  {
    var r := Apply(cfg, s, Tick(later));
    SameLinked(cfg, s, r);
    SameSnapshots(cfg, s, r);
    if s.disk.up {
      var log := Fold(cfg.sem(s.seed), Origin(cfg, s), s.items);
      TickKeepsLogOrder(cfg.sem(s.seed), s.clock, later, s.live, s.inflight, log);
    }
  }

  lemma RunKeeps<Seed, Loc(!new), Cell(!new), P>(cfg: Config<Seed, Loc, Cell, P>,
        s: System<Seed, Loc, Cell, P>, t: nat, c: Record)
    requires Serial.Sound(cfg.sem(s.seed)) && Memory(cfg, s) && Enabled(cfg, s, Run(t, c))
    ensures Memory(cfg, Apply(cfg, s, Run(t, c)))
  {
    var sem := cfg.sem(s.seed);
    var r := Apply(cfg, s, Run(t, c));
    SameLinked(cfg, s, r);
    SameSnapshots(cfg, s, r);
    RunKeepsLogOrder(sem, s.clock, s.live, s.inflight, Fold(sem, Origin(cfg, s), s.items), t, c);
  }

  lemma ExpireKeeps<Seed, Loc(!new), Cell(!new), P>(cfg: Config<Seed, Loc, Cell, P>,
        s: System<Seed, Loc, Cell, P>, l: Loc, at: Instant, cell: Cell)
    requires Serial.Sound(cfg.sem(s.seed)) && Memory(cfg, s) && Enabled(cfg, s, Expire(l, at, cell))
    ensures Memory(cfg, Apply(cfg, s, Expire(l, at, cell)))
  {
    var sem := cfg.sem(s.seed);
    var r := Apply(cfg, s, Expire(l, at, cell));
    SameLinked(cfg, s, r);
    SameSnapshots(cfg, s, r);
    ExpireKeepsLogOrder(sem, s.clock, s.live, s.inflight, Fold(sem, Origin(cfg, s), s.items), l, at, cell);
  }

  lemma AppendLinked<Seed, Loc, Cell, P>(cfg: Config<Seed, Loc, Cell, P>, s: System<Seed, Loc, Cell, P>,
        r: System<Seed, Loc, Cell, P>, i: Item)
    requires Linked(cfg, s) && r.clock == s.clock && r.first == s.first && r.items == s.items + [i]
    requires r.disk.history == s.disk.history + [cfg.log(i.logged, i.command)]
    requires i.at <= i.logged <= s.clock && cfg.legal(i.command)
    ensures Linked(cfg, r)
  {
    forall k | 0 <= k < |r.items| ensures LinkedAt(cfg, r.clock, r.items[k], r.disk.history[r.first + k]) {
      if k < |s.items| {
        assert LinkedAt(cfg, s.clock, s.items[k], s.disk.history[s.first + k]);
      }
    }
  }

  lemma AppendKeeps<Seed, Loc(!new), Cell(!new), P>(cfg: Config<Seed, Loc, Cell, P>,
        s: System<Seed, Loc, Cell, P>, t: nat)
    requires Serial.Sound(cfg.sem(s.seed)) && Memory(cfg, s) && Enabled(cfg, s, Append(t))
    ensures Memory(cfg, Apply(cfg, s, Append(t)))
  {
    var sem, c, r := cfg.sem(s.seed), s.inflight[t], Apply(cfg, s, Append(t));
    var log := Fold(sem, Origin(cfg, s), s.items);
    AppendKeepsLogOrder(sem, s.clock, s.live, s.inflight, log, t);
    assert Ahead(sem, s.clock, s.live, log, c);
    FoldAppend(sem, Origin(cfg, s), s.items, Item(c.at, s.clock, c.command));
    AppendLinked(cfg, s, r, Item(c.at, s.clock, c.command));
    if s.disk.phase.Captured? {
      PlainStep(sem, c.at, log, c.command);
    }
    AppendSnapshots(cfg, s, r);
  }

  // Snapshots stand for a prefix of the log; while one is being captured, only commands that
  // lock nothing are logged.
  lemma AppendSnapshots<Seed, Loc, Cell, P>(cfg: Config<Seed, Loc, Cell, P>, s: System<Seed, Loc, Cell, P>,
        r: System<Seed, Loc, Cell, P>)
    requires SnapshotsStand(cfg, s) && r.clock == s.clock && r.seed == s.seed && r.from == s.from
    requires r.first == s.first && r.base == s.base && r.next == s.next
    requires |r.items| == |s.items| + 1 && r.items[..|s.items|] == s.items
    requires r.disk.phase == s.disk.phase && r.disk.starts == s.disk.starts
    requires r.disk.store.snapshot == s.disk.store.snapshot
    requires s.disk.phase.Captured? ==> LocksNothing(cfg.sem(s.seed), r.inflight)
    requires s.disk.phase.Captured? ==>
      Fold(cfg.sem(s.seed), Origin(cfg, s), r.items) == Fold(cfg.sem(s.seed), Origin(cfg, s), s.items)
    ensures SnapshotsStand(cfg, r)
  {
    var n := Cut(s.disk) - s.first;
    assert r.items[..n] == s.items[..n];
    StandsLater(cfg, s, r, s.base, Payload(cfg, s.disk.store), n);
    match s.disk.phase
    case Captured(_, p) =>
      assert s.items[..|s.items|] == s.items && r.items[..|r.items|] == r.items;
    case Rotated(g, p) =>
      var m := s.disk.starts[g] - s.first;
      assert r.items[..m] == s.items[..m];
      StandsLater(cfg, s, r, s.next, p, m);
    case _ =>
  }

  // Steps that touch the directory alone.
  lemma SameExplained<Seed, Loc, Cell, P>(cfg: Config<Seed, Loc, Cell, P>, s: System<Seed, Loc, Cell, P>,
        r: System<Seed, Loc, Cell, P>)
    requires Explained(cfg, s) && SameLog(s, r) && r.live == s.live && r.inflight == s.inflight && r.clock == s.clock
    ensures Explained(cfg, r)
  {
  }

  lemma SameMemory<Seed, Loc, Cell, P>(cfg: Config<Seed, Loc, Cell, P>, s: System<Seed, Loc, Cell, P>,
        r: System<Seed, Loc, Cell, P>)
    requires Memory(cfg, s) && s.disk.up && SameLog(s, r) && SnapshotsStand(cfg, r)
    requires r.live == s.live && r.inflight == s.inflight && r.clock == s.clock
    ensures Memory(cfg, r)
  {
    SameLinked(cfg, s, r);
    SameExplained(cfg, s, r);
  }

  // Spilling, flushing and removing covered segments.
  lemma WriteKeeps<Seed, Loc, Cell, P>(cfg: Config<Seed, Loc, Cell, P>, s: System<Seed, Loc, Cell, P>,
        step: D.Action<P>)
    requires Memory(cfg, s) && Enabled(cfg, s, Write(step)) && !step.Rotate?
    ensures Memory(cfg, Apply(cfg, s, Write(step)))
  {
    var r := Apply(cfg, s, Write(step));
    SameLinked(cfg, s, r);
    SameSnapshots(cfg, s, r);
  }

  lemma RotateKeeps<Seed, Loc, Cell, P>(cfg: Config<Seed, Loc, Cell, P>, s: System<Seed, Loc, Cell, P>)
    requires Memory(cfg, s) && Enabled(cfg, s, Write(D.Rotate))
    requires s.disk.phase.base == |s.disk.starts| && s.disk.store.Base() < |s.disk.starts|
    ensures Memory(cfg, Apply(cfg, s, Write(D.Rotate)))
  {
    var r := Apply(cfg, s, Write(D.Rotate));
    RotateStands(cfg, s, r);
    SameMemory(cfg, s, r);
  }

  lemma RotateStands<Seed, Loc, Cell, P>(cfg: Config<Seed, Loc, Cell, P>, s: System<Seed, Loc, Cell, P>,
        r: System<Seed, Loc, Cell, P>)
    requires Linked(cfg, s) && SnapshotsStand(cfg, s) && SameLog(s, r) && r.base == s.base && r.next == s.next
    requires s.disk.phase.Captured? && r.disk.phase == D.Rotated(|s.disk.starts|, s.disk.phase.state)
    requires r.disk.store.snapshot == s.disk.store.snapshot && s.disk.store.Base() < |s.disk.starts|
    requires r.disk.starts == s.disk.starts + [|s.disk.history|]
    ensures SnapshotsStand(cfg, r)
  {
    StandsLater(cfg, s, r, s.base, Payload(cfg, s.disk.store), Cut(s.disk) - s.first);
    StandsLater(cfg, s, r, s.next, s.disk.phase.state, |s.items|);
  }

  // With every lock held, the live shards stand for the whole log.
  lemma CaptureStands<Seed, Loc(!new), Cell(!new), P>(cfg: Config<Seed, Loc, Cell, P>,
        s: System<Seed, Loc, Cell, P>, r: System<Seed, Loc, Cell, P>, p: P)
    requires Explained(cfg, s) && LocksNothing(cfg.sem(s.seed), s.inflight) && cfg.captures(s.seed, s.live, p)
    requires SameLog(s, r)
    ensures Stands(cfg, r, Source(s.live, s.clock), p, |r.items|)
  {
    var sem := cfg.sem(s.seed);
    QuiescentMatchesLog(sem, s.clock, s.live, s.inflight, Fold(sem, Origin(cfg, s), s.items));
    assert s.items[..|s.items|] == s.items;
  }

  lemma CaptureKeeps<Seed, Loc(!new), Cell(!new), P>(cfg: Config<Seed, Loc, Cell, P>,
        s: System<Seed, Loc, Cell, P>, p: P)
    requires Memory(cfg, s) && Enabled(cfg, s, Capture(p))
    ensures Memory(cfg, Apply(cfg, s, Capture(p)))
  {
    var r := Apply(cfg, s, Capture(p));
    CaptureStands(cfg, s, r, p);
    StandsLater(cfg, s, r, s.base, Payload(cfg, s.disk.store), Cut(s.disk) - s.first);
    SameMemory(cfg, s, r);
  }

  lemma InstallKeeps<Seed, Loc, Cell, P>(cfg: Config<Seed, Loc, Cell, P>, s: System<Seed, Loc, Cell, P>)
    requires Memory(cfg, s) && Enabled(cfg, s, Install)
    ensures Memory(cfg, Apply(cfg, s, Install))
  {
    var r := Apply(cfg, s, Install);
    InstallStands(cfg, s, r);
    SameMemory(cfg, s, r);
  }

  lemma InstallStands<Seed, Loc, Cell, P>(cfg: Config<Seed, Loc, Cell, P>, s: System<Seed, Loc, Cell, P>,
        r: System<Seed, Loc, Cell, P>)
    requires SnapshotsStand(cfg, s) && SameLog(s, r) && r.base == s.next
    requires s.disk.phase.Rotated? && r.disk.phase.Removing? && r.disk.starts == s.disk.starts
    requires r.disk.store.snapshot == Present(s.disk.phase.base, s.disk.phase.state)
    ensures SnapshotsStand(cfg, r)
  {
    var g := s.disk.phase.base;
    assert Cut(r.disk) == s.disk.starts[g];
    StandsLater(cfg, s, r, s.next, s.disk.phase.state, s.disk.starts[g] - s.first);
  }

  lemma StopKeeps<Seed, Loc, Cell, P>(cfg: Config<Seed, Loc, Cell, P>, s: System<Seed, Loc, Cell, P>,
        step: D.Action<P>)
    requires Memory(cfg, s) && Enabled(cfg, s, Stop(step))
    ensures Memory(cfg, Apply(cfg, s, Stop(step)))
  {
    var r := Apply(cfg, s, Stop(step));
    SameLinked(cfg, s, r);
    SameSnapshots(cfg, s, r);
  }

  // Replayed records are already in the form that is logged.
  lemma RestartLinked<Seed, Loc, Cell, P>(cfg: Config<Seed, Loc, Cell, P>, s: System<Seed, Loc, Cell, P>,
        h: Seed, times: seq<Instant>)
    requires Settles(cfg) && Linked(cfg, s) && Enabled(cfg, s, Restart(h, times)) && s.first <= Cut(s.disk)
    requires D.Reopened(s.disk).history == s.disk.history[..D.Survivors(s.disk)]
    ensures Linked(cfg, Restarted(cfg, s, h, times))
  {
    var r := Restarted(cfg, s, h, times);
    forall i | 0 <= i < |r.items| ensures LinkedAt(cfg, r.clock, r.items[i], r.disk.history[r.first + i]) {
      var k := r.first + i - s.first;
      assert LinkedAt(cfg, s.clock, s.items[k], s.disk.history[s.first + k]);
      SettledLink(cfg, s.clock, s.items[k], s.disk.history[s.first + k], times[i], r.clock);
    }
  }

  lemma SettledLink<Seed, Loc, Cell, P>(cfg: Config<Seed, Loc, Cell, P>, clock: Instant, i: Item, r: Record,
        t: Instant, later: Instant)
    requires Settles(cfg) && LinkedAt(cfg, clock, i, r) && t <= later
    ensures LinkedAt(cfg, later, Item(t, t, r), r)
  {
    assert cfg.log(t, cfg.log(i.logged, i.command)) == r;
  }

  lemma AllFree<Loc(!new), Cell(!new)>(sem: Semantics<Loc, Cell>, now: Instant, live: Shards<Loc, Cell>)
    requires Serial.Sound(sem) && sem.IsState(live)
    ensures sem.Equal(now, live, live) && LogOrder(sem, now, live, map[], live)
  {
    forall l | l in sem.locs ensures sem.SameAt(now, live, live, l) {
      assert sem.same(now, live[l], live[l]);
    }
  }

  lemma RestartSnapshots<Seed(!new), Loc(!new), Cell(!new), P(!new)>(cfg: Config<Seed, Loc, Cell, P>,
        s: System<Seed, Loc, Cell, P>, r: System<Seed, Loc, Cell, P>)
    requires Restores(cfg) && Serial.Sound(cfg.sem(r.seed))
    requires cfg.captures(s.seed, s.base.shards, Payload(cfg, s.disk.store))
    requires r.from == Payload(cfg, s.disk.store) && r.base == Source(Origin(cfg, r), s.clock)
    requires s.clock <= r.clock && r.first == Cut(s.disk) == Cut(r.disk)
    requires r.disk.store.snapshot == s.disk.store.snapshot && r.disk.phase.Idle?
    ensures cfg.sem(r.seed).IsState(Origin(cfg, r)) && SnapshotsStand(cfg, r)
  {
    AllFree(cfg.sem(r.seed), s.clock, Origin(cfg, r));
    assert r.items[..0] == [];
  }

  lemma RestartKeeps<Seed(!new), Loc(!new), Cell(!new), P(!new)>(cfg: Config<Seed, Loc, Cell, P>,
        s: System<Seed, Loc, Cell, P>, h: Seed, times: seq<Instant>)
    requires Settles(cfg) && Restores(cfg) && Serial.Sound(cfg.sem(h))
    requires Memory(cfg, s) && Enabled(cfg, s, Restart(h, times)) && s.disk.phase.Idle?
    requires D.Reopened(s.disk)
      == s.disk.(up := true, flushing := false, store := s.disk.store.(buffer := []),
                 history := s.disk.history[..D.Survivors(s.disk)])
    ensures Memory(cfg, Apply(cfg, s, Restart(h, times)))
  {
    RestartLinked(cfg, s, h, times);
    var r := Restarted(cfg, s, h, times);
    RestartSnapshots(cfg, s, r);
    FoldIsState(cfg.sem(h), Origin(cfg, r), r.items);
    AllFree(cfg.sem(h), r.clock, r.live);
  }

  lemma DiskKeeps<Seed, Loc, Cell, P>(cfg: Config<Seed, Loc, Cell, P>, s: System<Seed, Loc, Cell, P>,
        a: Action<Seed, Loc, Cell, P>)
    requires D.Inv(cfg.always, s.disk) && Enabled(cfg, s, a)
    ensures D.Inv(cfg.always, Apply(cfg, s, a).disk)
  {
    match a
    case Append(t) => D.StepKeeps(cfg.always, s.disk, D.Log(cfg.log(s.clock, s.inflight[t].command)));
    case Write(step) => D.StepKeeps(cfg.always, s.disk, step);
    case Capture(p) => D.StepKeeps(cfg.always, s.disk, D.Capture(p));
    case Install => D.StepKeeps(cfg.always, s.disk, D.Install);
    case Stop(step) => D.StepKeeps(cfg.always, s.disk, step);
    case Restart(_, _) => D.ReopenKeeps(cfg.always, s.disk);
    case _ =>
  }

  lemma MemoryKeeps<Seed, Loc(!new), Cell(!new), P>(cfg: Config<Seed, Loc, Cell, P>,
        s: System<Seed, Loc, Cell, P>, a: Action<Seed, Loc, Cell, P>)
    requires Serial.Sound(cfg.sem(s.seed)) && Inv(cfg, s) && Enabled(cfg, s, a) && !a.Restart?
    ensures Memory(cfg, Apply(cfg, s, a))
  {
    match a
    case Tick(later) => TickKeeps(cfg, s, later);
    case Run(t, c) => RunKeeps(cfg, s, t, c);
    case Append(t) => AppendKeeps(cfg, s, t);
    case Expire(l, at, cell) => ExpireKeeps(cfg, s, l, at, cell);
    case Write(step) =>
      if step.Rotate? {
        RotateKeeps(cfg, s);
      } else {
        WriteKeeps(cfg, s, step);
      }
    case Capture(p) => CaptureKeeps(cfg, s, p);
    case Install => InstallKeeps(cfg, s);
    case Stop(step) => StopKeeps(cfg, s, step);
  }

  lemma StepKeeps<Seed(!new), Loc(!new), Cell(!new), P(!new)>(cfg: Config<Seed, Loc, Cell, P>,
        s: System<Seed, Loc, Cell, P>, a: Action<Seed, Loc, Cell, P>)
    requires Sound(cfg) && Inv(cfg, s) && Enabled(cfg, s, a)
    ensures Inv(cfg, Apply(cfg, s, a))
  {
    DiskKeeps(cfg, s, a);
    if a.Restart? {
      D.ReopenKeeps(cfg.always, s.disk);
      RestartKeeps(cfg, s, a.seed, a.times);
    } else {
      MemoryKeeps(cfg, s, a);
    }
  }

  // Whole runs.

  // A server started on an empty directory.
  ghost function Fresh<Seed, Loc, Cell, P>(cfg: Config<Seed, Loc, Cell, P>, h: Seed,
        now: Instant): (s: System<Seed, Loc, Cell, P>) {
    var origin := cfg.restore(h, cfg.blank);
    System(D.Fresh(), now, h, origin, map[], cfg.blank, 0, [], Source(origin, now), Source(origin, now))
  }

  // The state after a run of actions, if every one of them was possible.
  ghost predicate Reaches<Seed(!new), Loc(!new), Cell(!new), P(!new)>(cfg: Config<Seed, Loc, Cell, P>,
        run: seq<Action<Seed, Loc, Cell, P>>, s: System<Seed, Loc, Cell, P>)
    decreases |run|
  {
    if run == [] then exists h, now :: s == Fresh(cfg, h, now)
    else
      var k := |run| - 1;
      exists prev :: Reaches(cfg, run[..k], prev) && Enabled(cfg, prev, run[k]) && s == Apply(cfg, prev, run[k])
  }

  lemma FreshInv<Seed(!new), Loc(!new), Cell(!new), P(!new)>(cfg: Config<Seed, Loc, Cell, P>, h: Seed, now: Instant)
    requires Sound(cfg)
    ensures Inv(cfg, Fresh(cfg, h, now))
  {
    AllFree(cfg.sem(h), now, cfg.restore(h, cfg.blank));
    D.FreshInv<P>(cfg.always);
    FreshMemory(cfg, h, now, cfg.sem(h), cfg.restore(h, cfg.blank));
  }

  lemma FreshMemory<Seed, Loc, Cell, P>(cfg: Config<Seed, Loc, Cell, P>, h: Seed, now: Instant,
        sem: Semantics<Loc, Cell>, origin: Shards<Loc, Cell>)
    requires sem == cfg.sem(h) && origin == cfg.restore(h, cfg.blank) && cfg.captures(h, origin, cfg.blank)
    requires sem.IsState(origin) && sem.Equal(now, origin, origin) && LogOrder(sem, now, origin, map[], origin)
    ensures Memory(cfg, Fresh(cfg, h, now))
  {
  }

  lemma {:induction false} ReachableInv<Seed(!new), Loc(!new), Cell(!new), P(!new)>(cfg: Config<Seed, Loc, Cell, P>,
        run: seq<Action<Seed, Loc, Cell, P>>, s: System<Seed, Loc, Cell, P>)
    requires Sound(cfg) && Reaches(cfg, run, s)
    ensures Inv(cfg, s)
    decreases |run|
  {
    if run == [] {
      var h, now :| s == Fresh(cfg, h, now);
      FreshInv(cfg, h, now);
    } else {
      var k := |run| - 1;
      var prev :| Reaches(cfg, run[..k], prev) && Enabled(cfg, prev, run[k]) && s == Apply(cfg, prev, run[k]);
      ReachableInv(cfg, run[..k], prev);
      StepKeeps(cfg, prev, run[k]);
    }
  }

  // Log order serialises concurrency: at any moment of any run, a shard that no thread holds
  // between running and logging shows the contents that the replayed and logged commands, one
  // after another and each at the instant it ran, give it.
  lemma LogOrderSerialises<Seed(!new), Loc(!new), Cell(!new), P(!new)>(cfg: Config<Seed, Loc, Cell, P>,
        run: seq<Action<Seed, Loc, Cell, P>>, s: System<Seed, Loc, Cell, P>, l: Loc)
    requires Sound(cfg) && Reaches(cfg, run, s)
    requires s.disk.up && l in cfg.sem(s.seed).locs && Free(cfg.sem(s.seed), s.inflight, l)
    ensures cfg.sem(s.seed).SameAt(s.clock, s.live, Fold(cfg.sem(s.seed), Origin(cfg, s), s.items), l)
    ensures Linked(cfg, s)
  {
    ReachableInv(cfg, run, s);
  }

  // What a stopped server leaves: recovery succeeds, and what it restores and replays is the
  // captured image of shards that stood for the log up to the snapshot, then the records of
  // every later command up to a point past every flushed one.
  ghost predicate Recoverable<Seed, Loc, Cell, P>(cfg: Config<Seed, Loc, Cell, P>, s: System<Seed, Loc, Cell, P>) {
    && D.Placed(s.disk) && s.first <= Cut(s.disk) <= D.Survivors(s.disk)
    && s.disk.durable <= D.Survivors(s.disk) <= |s.disk.history|
    && D.Recover(s.disk.store) == AppendLog.Replayed(s.disk.history[Cut(s.disk)..D.Survivors(s.disk)], true)
    && Linked(cfg, s) && cfg.sem(s.seed).IsState(Origin(cfg, s))
    && Stands(cfg, s, s.base, Payload(cfg, s.disk.store), Cut(s.disk) - s.first)
  }

  lemma InvRecoverable<Seed, Loc, Cell, P>(cfg: Config<Seed, Loc, Cell, P>, s: System<Seed, Loc, Cell, P>)
    requires Inv(cfg, s)
    ensures Recoverable(cfg, s)
  {
    D.Recoverable(cfg.always, s.disk);
  }

  lemma RecoverableParts<Seed, Loc, Cell, P>(cfg: Config<Seed, Loc, Cell, P>, s: System<Seed, Loc, Cell, P>)
    requires Recoverable(cfg, s)
    ensures Linked(cfg, s) && |s.disk.history| == s.first + |s.items|
    ensures D.Placed(s.disk) && s.first <= Cut(s.disk) <= D.Survivors(s.disk) <= |s.disk.history|
    ensures s.disk.durable <= D.Survivors(s.disk)
    ensures s.base.at <= s.clock && cfg.captures(s.seed, s.base.shards, Payload(cfg, s.disk.store))
    ensures cfg.sem(s.seed).Equal(s.base.at, s.base.shards,
              Fold(cfg.sem(s.seed), Origin(cfg, s), s.items[..Cut(s.disk) - s.first]))
  {
  }

  // Stop any run at any point.
  lemma CrashSafety<Seed(!new), Loc(!new), Cell(!new), P(!new)>(cfg: Config<Seed, Loc, Cell, P>,
        run: seq<Action<Seed, Loc, Cell, P>>, s: System<Seed, Loc, Cell, P>)
    requires Sound(cfg) && Reaches(cfg, run, s)
    ensures Recoverable(cfg, s)
  {
    ReachableInv(cfg, run, s);
    InvRecoverable(cfg, s);
  }

  // Building runs.

  lemma Then<Seed(!new), Loc(!new), Cell(!new), P(!new)>(cfg: Config<Seed, Loc, Cell, P>,
        run: seq<Action<Seed, Loc, Cell, P>>, s: System<Seed, Loc, Cell, P>, a: Action<Seed, Loc, Cell, P>)
    returns (run': seq<Action<Seed, Loc, Cell, P>>, s': System<Seed, Loc, Cell, P>)
    requires Reaches(cfg, run, s) && Enabled(cfg, s, a)
    ensures Reaches(cfg, run', s') && s' == Apply(cfg, s, a)
  {
    run', s' := run + [a], Apply(cfg, s, a);
    assert run'[..|run|] == run;
  }

  // Nothing is in flight, nothing is being written, and no compaction is under way.
  ghost predicate Quiet<Seed, Loc, Cell, P>(s: System<Seed, Loc, Cell, P>) {
    && s.disk.up && !s.disk.flushing && s.disk.phase.Idle? && s.inflight == map[]
    && s.disk.store.gen in s.disk.store.segments
  }

  // One thread runs and logs a command.
  lemma RunAndLog<Seed(!new), Loc(!new), Cell(!new), P(!new)>(cfg: Config<Seed, Loc, Cell, P>,
        run: seq<Action<Seed, Loc, Cell, P>>, s: System<Seed, Loc, Cell, P>, c: Record)
    returns (run': seq<Action<Seed, Loc, Cell, P>>, s': System<Seed, Loc, Cell, P>)
    requires !cfg.always && Reaches(cfg, run, s) && Quiet(s) && cfg.legal(c)
    ensures Reaches(cfg, run', s') && Quiet(s')
    ensures s' == s.(live := cfg.sem(s.seed).step(s.clock, s.live, c), items := s.items + [Item(s.clock, s.clock, c)],
                     disk := s.disk.(store := s.disk.store.Appended(cfg.log(s.clock, c)),
                                     history := s.disk.history + [cfg.log(s.clock, c)]))
  {
    run', s' := Then(cfg, run, s, Run(0, c));
    run', s' := Then(cfg, run', s', Append(0));
    assert s'.inflight == map[];
  }

  lemma CaptureAndRotate<Seed(!new), Loc(!new), Cell(!new), P(!new)>(cfg: Config<Seed, Loc, Cell, P>,
        run: seq<Action<Seed, Loc, Cell, P>>, s: System<Seed, Loc, Cell, P>, p: P)
    returns (run': seq<Action<Seed, Loc, Cell, P>>, s': System<Seed, Loc, Cell, P>)
    requires !cfg.always && Reaches(cfg, run, s) && Quiet(s) && cfg.captures(s.seed, s.live, p)
    ensures Reaches(cfg, run', s') && s'.disk.up && s'.disk.phase == D.Rotated(s.disk.store.gen + 1, p)
    ensures s' == s.(disk := s'.disk, next := Source(s.live, s.clock))
    ensures s'.disk.history == s.disk.history && s'.disk.starts == s.disk.starts + [|s.disk.history|]
  {
    run', s' := Then(cfg, run, s, Capture(p));
    run', s' := Then(cfg, run', s', Write(D.Rotate));
  }

  // A compaction, up to the installation of its snapshot.
  lemma Compact<Seed(!new), Loc(!new), Cell(!new), P(!new)>(cfg: Config<Seed, Loc, Cell, P>,
        run: seq<Action<Seed, Loc, Cell, P>>, s: System<Seed, Loc, Cell, P>, p: P)
    returns (run': seq<Action<Seed, Loc, Cell, P>>, s': System<Seed, Loc, Cell, P>)
    requires !cfg.always && Reaches(cfg, run, s) && Quiet(s) && cfg.captures(s.seed, s.live, p)
    ensures Reaches(cfg, run', s')
    ensures s' == s.(disk := s'.disk, base := Source(s.live, s.clock), next := Source(s.live, s.clock))
    ensures s'.disk.history == s.disk.history && s'.disk.starts == s.disk.starts + [|s.disk.history|]
    ensures s'.disk.store.snapshot == Present(s.disk.store.gen + 1, p)
  {
    run', s' := CaptureAndRotate(cfg, run, s, p);
    run', s' := Then(cfg, run', s', Install);
  }
}
