// Compaction, a crash and a restart under another seed, for the whole server: what the new
// process shows in each database, against what the old one had run (internal/server/server.go).
module Restarts {
  import opened ByteStrings
  import opened Commands
  import opened Expiry
  import opened Databases
  import opened Clusters
  import opened Serial
  import L = AppendLog
  import Scores
  import R = Replays
  import C = Captures
  import N = Snapshots
  import D = Durability
  import V = Servers

  type Payload = seq<N.Writable>

  type Config = V.Config<Seed, Loc, Keyspace, Payload>

  type System = V.System<Seed, Loc, Keyspace, Payload>

  type Action = V.Action<Seed, Loc, Keyspace, Payload>

  function EntryOf(s: C.Stored): (e: Entry) {
    Entry(C.ValueOf(s.content), s.expireAt)
  }

  function KeysIn(c: C.Contents): (r: set<Bytes>) {
    set p | p in c :: p.1
  }

  // One database of a snapshot's contents.
  function ViewOf(c: C.Contents, d: nat): (r: Keyspace)
    ensures forall k :: k in r <==> (d, k) in c
    ensures forall k :: k in r ==> r[k] == EntryOf(c[(d, k)])
  {
    assert forall k :: (d, k) in c ==> (d, k).1 in KeysIn(c);
    map k | k in KeysIn(c) && (d, k) in c :: EntryOf(c[(d, k)])
  }

  // The restore callback routes every record's key under the new process's seed.
  function RestoredCell(h: Seed, view: Keyspace, i: nat): (r: Keyspace) {
    map k | k in view && Index(h, k) == i :: view[k]
  }

  function RestoreInto(y: Layout, h: Seed, rs: Payload): (r: Cluster) {
    map x | x in Locs(y, h) :: RestoredCell(h, ViewOf(C.Restored(rs), x.0), x.1)
  }

  ghost predicate Sane(c: C.Content) {
    c.ZSetOf? ==> forall m :: m in c.scores ==> Scores.IsScore(c.scores[m])
  }

  // The shards hold these contents: every entry in the database and shard it belongs to.
  ghost predicate Represents(y: Layout, h: Seed, s: Cluster, c: C.Contents) {
    && s.Keys == Locs(y, h)
    && (forall p :: p in c ==> p.0 < y.dbs && Sane(c[p].content))
    && (forall d: nat :: d < y.dbs ==> Holds(Cells(y, h, s, d), h.hash, ViewOf(c, d)))
  }

  // What emitRecords may write: each stored key once, in any order.
  ghost predicate CapturedFrom(y: Layout, h: Seed, s: Cluster, rs: Payload) {
    exists c :: C.Captured(rs, c) && Represents(y, h, s, c)
  }

  ghost function Running(y: Layout, always: bool): (cfg: Config) {
    V.Config(
      h => Sem(y, h),
      c => Resolve(y, c).Resolved?,
      (t, c) => LogRecord(y, t, c),
      (h, s, rs) => CapturedFrom(y, h, s, rs),
      (h, rs) => RestoreInto(y, h, rs),
      [],
      always)
  }

  // The snapshot recovery restores; a missing one restores nothing.
  ghost function Snapshot(s: System): (rs: Payload) {
    if s.disk.store.snapshot.Present? then s.disk.store.snapshot.state else []
  }

  lemma RestoredHolds(y: Layout, h: Seed, rs: Payload, d: nat)
    requires d < y.dbs
    ensures RestoreInto(y, h, rs).Keys == Locs(y, h)
    ensures Holds(Cells(y, h, RestoreInto(y, h, rs), d), h.hash, ViewOf(C.Restored(rs), d))
  {
    var view, cells := ViewOf(C.Restored(rs), d), Cells(y, h, RestoreInto(y, h, rs), d);
    forall i | 0 <= i < h.shards ensures cells[i] == RestoredCell(h, view, i) {
      assert (d, i) in Locs(y, h);
    }
    CellsHold(h, view, cells);
  }

  lemma CellsHold(h: Seed, view: Keyspace, cells: seq<Keyspace>)
    requires |cells| == h.shards && forall i :: 0 <= i < h.shards ==> cells[i] == RestoredCell(h, view, i)
    ensures Holds(cells, h.hash, view)
  {
  }

  // Restored contents are in place.
  lemma RestoredRepresents(y: Layout, h: Seed, rs: Payload)
    requires forall p :: p in C.Restored(rs) ==> p.0 < y.dbs && Sane(C.Restored(rs)[p].content)
    ensures Represents(y, h, RestoreInto(y, h, rs), C.Restored(rs))
  {
    forall d: nat | d < y.dbs
      ensures Holds(Cells(y, h, RestoreInto(y, h, rs), d), h.hash, ViewOf(C.Restored(rs), d))
    {
      RestoredHolds(y, h, rs, d);
    }
  }

  lemma Recaptured(y: Layout, h: Seed, s: Cluster, k: Seed, rs: Payload)
    requires CapturedFrom(y, h, s, rs)
    ensures CapturedFrom(y, k, RestoreInto(y, k, rs), rs)
  {
    var c :| C.Captured(rs, c) && Represents(y, h, s, c);
    RestoredSane(y, h, s, rs, c);
    RestoredRepresents(y, k, rs);
  }

  lemma RestoredSane(y: Layout, h: Seed, s: Cluster, rs: Payload, c: C.Contents)
    requires C.Captured(rs, c) && Represents(y, h, s, c)
    ensures C.Captured(rs, C.Restored(rs))
    ensures forall p :: p in C.Restored(rs) ==> p.0 < y.dbs && Sane(C.Restored(rs)[p].content)
  {
    C.RestoredCaptured(rs, c);
    forall p | p in C.Restored(rs) ensures p.0 < y.dbs && Sane(C.Restored(rs)[p].content) {
      assert C.KeptAt(C.Restored(rs), c, p);
    }
  }

  lemma BlankCaptured(y: Layout, h: Seed)
    ensures CapturedFrom(y, h, RestoreInto(y, h, []), [])
  {
    var c: C.Contents := map[];
    assert C.Captured([], c) && C.Restored([]) == c;
    forall d: nat | d < y.dbs ensures Holds(Cells(y, h, RestoreInto(y, h, []), d), h.hash, ViewOf(c, d)) {
      RestoredHolds(y, h, [], d);
    }
  }

  lemma RunningRestores(y: Layout, always: bool)
    ensures V.Restores(Running(y, always))
  {
    var cfg := Running(y, always);
    forall h, p | V.IsSnapshot(cfg, p) ensures cfg.captures(h, cfg.restore(h, p), p) {
      var k, s :| cfg.captures(k, s, p);
      Recaptured(y, k, s, h, p);
    }
    forall h: Seed ensures cfg.captures(h, cfg.restore(h, cfg.blank), cfg.blank) {
      BlankCaptured(y, h);
    }
  }

  lemma RunningSettles(y: Layout, always: bool)
    requires Proper(y)
    ensures V.Settles(Running(y, always))
  {
    forall t, c: L.Record
      ensures Resolve(y, c).Resolved? ==> Resolve(y, LogRecord(y, t, c)).Resolved?
      ensures forall u :: LogRecord(y, u, LogRecord(y, t, c)) == LogRecord(y, t, c)
    {
      LogRecordResolves(y, t, c, 0);
    }
  }

  lemma RunningSound(y: Layout, always: bool)
    requires Proper(y)
    ensures V.Sound(Running(y, always))
  {
    RunningRestores(y, always);
    RunningSettles(y, always);
    forall h: Seed ensures Sound(Running(y, always).sem(h)) {
      SemSound(y, h);
    }
  }

  // The snapshot as a file: its bytes read back to the generation and the records that were
  // written, so restoring from the file is restoring from the records.
  lemma FileRestores(base: Word, rs: Payload)
    ensures
      var l := N.Read(N.Encode(base, rs));
      l.ok && l.base == base && C.Restored(l.records) == C.Restored(rs)
  {
    N.SnapshotRoundTrip(base, rs);
  }

  // What can be seen of a snapshot.

  // Every deadline stored in database d comes through the snapshot format, or is past either way.
  ghost predicate CarriedIn(s: Cluster, d: nat, now: Time) {
    forall x, k :: x in s && x.0 == d && k in s[x] ==> C.CarriedAt(s[x][k].expireAt, now)
  }

  ghost predicate CarriedView(view: Keyspace, now: Time) {
    forall k :: k in view ==> C.CarriedAt(view[k].expireAt, now)
  }

  lemma CarriedContents(y: Layout, h: Seed, s: Cluster, c: C.Contents, d: nat, now: Time)
    requires Represents(y, h, s, c) && d < y.dbs
    ensures CarriedIn(s, d, now) <==> CarriedView(ViewOf(c, d), now)
  {
    var view := ViewOf(c, d);
    if CarriedIn(s, d, now) {
      forall k | k in view ensures C.CarriedAt(view[k].expireAt, now) {
        FoundInShard(y, h, s, c, d, k);
      }
    } else {
      var x, k :| x in s && x.0 == d && k in s[x] && !C.CarriedAt(s[x][k].expireAt, now);
      ShownInView(y, h, s, c, d, x, k);
    }
  }

  lemma FoundInShard(y: Layout, h: Seed, s: Cluster, c: C.Contents, d: nat, k: Bytes)
    requires Represents(y, h, s, c) && d < y.dbs && k in ViewOf(c, d)
    ensures InShard(s, (d, Index(h, k)), k, ViewOf(c, d)[k])
  {
    var cells := Cells(y, h, s, d);
    assert Holds(cells, h.hash, ViewOf(c, d));
    assert (d, Index(h, k)) in s && cells[Index(h, k)] == s[(d, Index(h, k))];
  }

  lemma ShownInView(y: Layout, h: Seed, s: Cluster, c: C.Contents, d: nat, x: Loc, k: Bytes)
    requires Represents(y, h, s, c) && d < y.dbs && x in s && x.0 == d && k in s[x]
    ensures k in ViewOf(c, d) && s[x][k] == ViewOf(c, d)[k]
  {
    var cells := Cells(y, h, s, d);
    assert Holds(cells, h.hash, ViewOf(c, d));
    assert cells[x.1] == s[x];
  }

  ghost predicate InShard(s: Cluster, x: Loc, k: Bytes, e: Entry) {
    x in s && k in s[x] && s[x][k] == e
  }

  lemma RestoredEntry(rs: Payload, c: C.Contents, d: nat, k: Bytes)
    requires C.Captured(rs, c)
    ensures k in ViewOf(c, d) <==> k in ViewOf(C.Restored(rs), d)
    ensures k in ViewOf(c, d) ==>
      var e := ViewOf(c, d)[k];
      ViewOf(C.Restored(rs), d)[k] == e.(expireAt := C.FromMarker(C.Marker(e.expireAt)))
  {
    C.RestoredCaptured(rs, c);
    if (d, k) in c {
      assert C.KeptAt(C.Restored(rs), c, (d, k));
    }
  }

  // A snapshot, read back under any seed at a later instant, shows the database it was taken
  // of if and only if every deadline comes through or is past by then.
  lemma RestoredSeenIff(rs: Payload, c: C.Contents, d: nat, now: Time)
    requires C.Captured(rs, c)
    ensures Alike(ViewOf(c, d), ViewOf(C.Restored(rs), d), now) <==> CarriedView(ViewOf(c, d), now)
  {
    var a, b := ViewOf(c, d), ViewOf(C.Restored(rs), d);
    forall k ensures Lookup(a, k, now) == Lookup(b, k, now) <==> (k in a ==> C.CarriedAt(a[k].expireAt, now)) {
      RestoredEntry(rs, c, d, k);
      if k in a {
        C.CarriedAtIff(a[k], now);
      }
    }
  }

  // Shards that no reader can tell from a routed cluster show the same database.
  lemma EqualShows(y: Layout, h: Seed, t: Time, s: Cluster, a: Keyspace, r: Cluster, b: Keyspace, d: nat)
    requires d < y.dbs && Sem(y, h).Equal(t, s, r)
    requires Holds(Cells(y, h, s, d), h.hash, a) && Holds(Cells(y, h, r, d), h.hash, b)
    ensures Alike(a, b, t)
  {
    forall k ensures Lookup(a, k, t) == Lookup(b, k, t) {
      var x := (d, Index(h, k));
      assert x in Locs(y, h) && Sem(y, h).SameAt(t, s, r, x);
      HoldsLookup(Cells(y, h, s, d), h.hash, a, k, t);
      HoldsLookup(Cells(y, h, r, d), h.hash, b, k, t);
      assert Lookup(s[x], k, t) == Lookup(r[x], k, t);
    }
  }

  // The live run and the replay, as runs of one database.

  // Database d's part of logged commands, with the instants of their replay.
  ghost function StepsFor(y: Layout, d: nat, items: seq<Item>, times: seq<Time>): (r: seq<R.Step>)
    requires |items| == |times|
    ensures |r| == |items|
  {
    seq(|items|, i requires 0 <= i < |items| =>
      R.Step(items[i].at, items[i].logged, OpFor(y, items[i].command, d), times[i]))
  }

  // Records are the log forms of the commands they were logged for.
  ghost predicate Records(y: Layout, items: seq<Item>, times: seq<Time>, replayed: seq<Item>) {
    && |items| == |times| == |replayed|
    && forall i :: 0 <= i < |items| ==>
         replayed[i] == Item(times[i], times[i], LogRecord(y, items[i].logged, items[i].command))
  }

  lemma RecordsReplay(y: Layout, d: nat, items: seq<Item>, times: seq<Time>, replayed: seq<Item>)
    requires Proper(y) && Records(y, items, times, replayed)
    ensures RunFor(y, d, items) == R.AsRun(StepsFor(y, d, items, times))
    ensures RunFor(y, d, replayed) == R.AsReplayed(StepsFor(y, d, items, times))
  {
    forall i | 0 <= i < |items| ensures RunFor(y, d, replayed)[i] == R.AsReplayed(StepsFor(y, d, items, times))[i] {
      LogRecordResolves(y, items[i].logged, items[i].command, d);
    }
  }

  // Replaying the records over a restored database that looks like the one the commands ran
  // on gives what the commands gave.
  lemma ReplayShows(y: Layout, d: nat, live: Keyspace, restored: Keyspace, items: seq<Item>, times: seq<Time>,
        replayed: seq<Item>, now: Time)
    requires Proper(y) && Records(y, items, times, replayed) && V.Nondecreasing(now, times)
    requires R.FaithfulThroughout(live, StepsFor(y, d, items, times))
    requires Alike(live, restored, First(now, times))
    ensures Alike(R.Execute(live, RunFor(y, d, items)), R.Execute(restored, RunFor(y, d, replayed)), V.Last(now, times))
  {
    RecordsReplay(y, d, items, times, replayed);
    if times != [] {
      R.LiveExecutes(live, StepsFor(y, d, items, times));
      R.ReplayAllFaithful(live, restored, StepsFor(y, d, items, times));
    }
  }

  ghost function First(now: Time, times: seq<Time>): (t: Time) {
    if times == [] then now else times[0]
  }

  // The theorem.

  // A restart: the seed is any, the clock readings never go back.
  ghost predicate Restartable(s: System, times: seq<Time>) {
    D.Placed(s.disk) && V.Cut(s.disk) + |times| == D.Survivors(s.disk) <= |s.disk.history|
    && V.Nondecreasing(s.clock, times)
  }

  // What the next process starts with.
  ghost function Recovered(y: Layout, s: System, h: Seed, times: seq<Time>): (r: Cluster)
    requires Restartable(s, times)
  {
    Fold(Sem(y, h), RestoreInto(y, h, Snapshot(s)), V.Replayed(s.disk, times))
  }

  // Database d after the first n commands that the stopped process replayed or ran, on one
  // keyspace and one after another.
  ghost function After(y: Layout, s: System, d: nat, n: nat): (r: Keyspace)
    requires n <= |s.items|
  {
    R.Execute(ViewOf(C.Restored(s.from), d), RunFor(y, d, s.items[..n]))
  }

  ghost predicate Bounded(s: System) {
    D.Placed(s.disk) && s.first <= V.Cut(s.disk) <= D.Survivors(s.disk) <= |s.disk.history| == s.first + |s.items|
  }

  // Where in the process's own log the snapshot's part and the surviving part end.
  ghost function Covered(s: System): (n: nat)
    requires Bounded(s)
    ensures n <= |s.items|
  {
    V.Cut(s.disk) - s.first
  }

  ghost function Surviving(s: System): (n: nat)
    requires Bounded(s)
    ensures Covered(s) <= n <= |s.items|
  {
    D.Survivors(s.disk) - s.first
  }

  // The commands whose records a restart replays.
  ghost function Since(s: System): (r: seq<Item>)
    requires Bounded(s)
    ensures |r| == D.Survivors(s.disk) - V.Cut(s.disk)
  {
    s.items[Covered(s)..Surviving(s)]
  }

  // Every command logged since the snapshot is one that its record reproduces.
  ghost predicate FaithfulSince(y: Layout, s: System, times: seq<Time>, d: nat)
    requires Bounded(s) && Restartable(s, times)
  {
    var steps := StepsFor(y, d, Since(s), times);
    forall i :: 0 <= i < |steps| ==>
      steps[i].InRange() && R.Faithful(steps[i], R.Live(After(y, s, d, Covered(s)), steps[..i]))
  }

  lemma AfterSplits(y: Layout, s: System, d: nat, n: nat, m: nat)
    requires n <= m <= |s.items|
    ensures After(y, s, d, m) == R.Execute(After(y, s, d, n), RunFor(y, d, s.items[n..m]))
  {
    var a, b := s.items[..n], s.items[n..m];
    assert s.items[..m] == a + b;
    assert RunFor(y, d, a + b) == RunFor(y, d, a) + RunFor(y, d, b);
    R.ExecuteConcat(ViewOf(C.Restored(s.from), d), RunFor(y, d, a), RunFor(y, d, b));
  }

  // The captured shards show what the commands up to the snapshot gave.
  lemma SourceShows(y: Layout, s: System, n: nat, c: C.Contents, d: nat)
    requires d < y.dbs && n <= |s.items| && Represents(y, s.seed, s.base.shards, c)
    requires Sem(y, s.seed).Equal(s.base.at, s.base.shards,
               Fold(Sem(y, s.seed), RestoreInto(y, s.seed, s.from), s.items[..n]))
    ensures Alike(ViewOf(c, d), After(y, s, d, n), s.base.at)
  {
    var origin := RestoreInto(y, s.seed, s.from);
    RestoredHolds(y, s.seed, s.from, d);
    FoldRefines(y, s.seed, origin, s.items[..n], d, ViewOf(C.Restored(s.from), d));
    EqualShows(y, s.seed, s.base.at, s.base.shards, ViewOf(c, d),
      Fold(Sem(y, s.seed), origin, s.items[..n]), After(y, s, d, n), d);
  }

  // The snapshot was captured from shards that stood for the commands up to it.
  ghost predicate Based(y: Layout, s: System)
    requires Bounded(s)
  {
    && s.base.at <= s.clock && CapturedFrom(y, s.seed, s.base.shards, Snapshot(s))
    && Sem(y, s.seed).Equal(s.base.at, s.base.shards,
         Fold(Sem(y, s.seed), RestoreInto(y, s.seed, s.from), s.items[..Covered(s)]))
  }

  lemma StoppedIsBounded(y: Layout, always: bool, s: System)
    requires V.Recoverable(Running(y, always), s)
    ensures Bounded(s) && V.Linked(Running(y, always), s) && s.disk.durable <= D.Survivors(s.disk)
  {
    V.RecoverableParts(Running(y, always), s);
  }

  lemma StoppedIsBased(y: Layout, always: bool, s: System)
    requires V.Recoverable(Running(y, always), s) && Bounded(s)
    ensures Based(y, s)
  {
    RunningIs(y, always, s);
    SnapshotParts(Running(y, always), s, Sem(y, s.seed), RestoreInto(y, s.seed, s.from), Snapshot(s));
  }

  lemma SnapshotParts(cfg: Config, s: System, sem: Semantics<Loc, Keyspace>, origin: Cluster, p: Payload)
    requires V.Recoverable(cfg, s) && Bounded(s)
    requires cfg.sem(s.seed) == sem && V.Origin(cfg, s) == origin && V.Payload(cfg, s.disk.store) == p
    ensures s.base.at <= s.clock && cfg.captures(s.seed, s.base.shards, p)
    ensures sem.Equal(s.base.at, s.base.shards, Fold(sem, origin, s.items[..Covered(s)]))
  {
    V.RecoverableParts(cfg, s);
  }

  lemma RunningIs(y: Layout, always: bool, s: System)
    ensures Running(y, always).sem(s.seed) == Sem(y, s.seed)
    ensures V.Origin(Running(y, always), s) == RestoreInto(y, s.seed, s.from)
    ensures V.Payload(Running(y, always), s.disk.store) == Snapshot(s)
    ensures Running(y, always).captures(s.seed, s.base.shards, Snapshot(s))
      == CapturedFrom(y, s.seed, s.base.shards, Snapshot(s))
  {
  }

  // Stop any run at any point.
  lemma ReachedIsBased(y: Layout, always: bool, run: seq<Action>, s: System)
    requires Proper(y) && V.Reaches(Running(y, always), run, s)
    ensures Bounded(s) && Based(y, s) && V.Linked(Running(y, always), s) && s.disk.durable <= D.Survivors(s.disk)
  {
    RunningSound(y, always);
    V.CrashSafety(Running(y, always), run, s);
    StoppedIsBounded(y, always, s);
    StoppedIsBased(y, always, s);
  }

  // What is restored looks, at an instant, like the database up to the snapshot if and only
  // if the captured deadlines come through.
  lemma SnapshotShowsIff(y: Layout, s: System, d: nat, t: Time)
    requires Bounded(s) && Based(y, s) && d < y.dbs && s.clock <= t
    ensures Alike(After(y, s, d, Covered(s)), ViewOf(C.Restored(Snapshot(s)), d), t) <==> CarriedIn(s.base.shards, d, t)
  {
    var rs := Snapshot(s);
    var c :| C.Captured(rs, c) && Represents(y, s.seed, s.base.shards, c);
    var a, b, r := ViewOf(c, d), After(y, s, d, Covered(s)), ViewOf(C.Restored(rs), d);
    SourceShows(y, s, Covered(s), c, d);
    AlikeLater(a, b, s.base.at, t);
    RestoredSeenIff(rs, c, d, t);
    CarriedContents(y, s.seed, s.base.shards, c, d, t);
    AlikeEither(a, b, r, t);
  }

  lemma AlikeEither(a: Keyspace, b: Keyspace, c: Keyspace, t: Time)
    requires Alike(a, b, t)
    ensures Alike(a, c, t) <==> Alike(b, c, t)
  {
    if Alike(a, c, t) {
      AlikeTrans(b, a, c, t);
    } else if Alike(b, c, t) {
      AlikeTrans(a, b, c, t);
    }
  }

  // What recovery makes of database d, as one keyspace.
  ghost function Shown(y: Layout, s: System, times: seq<Time>, d: nat): (r: Keyspace)
    requires Restartable(s, times)
  {
    var rs := Snapshot(s);
    R.Execute(ViewOf(C.Restored(rs), d), RunFor(y, d, V.Replayed(s.disk, times)))
  }

  // The key reads in the shards as it does in the keyspace.
  ghost predicate Reads(y: Layout, h: Seed, s: Cluster, d: nat, key: Bytes, view: Keyspace, now: Time) {
    var x := (d, Index(h, key));
    x in s && Lookup(s[x], key, now) == Lookup(view, key, now)
  }

  lemma RecoveredReads(y: Layout, s: System, h: Seed, times: seq<Time>, d: nat, key: Bytes, now: Time)
    requires Restartable(s, times) && d < y.dbs
    ensures Reads(y, h, Recovered(y, s, h, times), d, key, Shown(y, s, times, d), now)
  {
    var rs := Snapshot(s);
    RestoredHolds(y, h, rs, d);
    FoldRefines(y, h, RestoreInto(y, h, rs), V.Replayed(s.disk, times), d, ViewOf(C.Restored(rs), d));
    var r := Recovered(y, s, h, times);
    HoldsLookup(Cells(y, h, r, d), h.hash, Shown(y, s, times, d), key, now);
    assert (d, Index(h, key)) in Locs(y, h);
  }

  // Each record is the log form of the command at its place.
  ghost predicate LoggedAs(y: Layout, items: seq<Item>, history: seq<L.Record>, first: nat) {
    && |history| == first + |items|
    && forall k :: 0 <= k < |items| ==> history[first + k] == LogRecord(y, items[k].logged, items[k].command)
  }

  lemma LinkedIsLogged(y: Layout, always: bool, s: System)
    requires V.Linked(Running(y, always), s)
    ensures LoggedAs(y, s.items, s.disk.history, s.first)
  {
    forall k | 0 <= k < |s.items|
      ensures s.disk.history[s.first + k] == LogRecord(y, s.items[k].logged, s.items[k].command)
    {
      LoggedRecord(y, always, s, k);
    }
  }

  lemma LoggedRecord(y: Layout, always: bool, s: System, k: nat)
    requires V.Linked(Running(y, always), s) && k < |s.items|
    ensures s.disk.history[s.first + k] == LogRecord(y, s.items[k].logged, s.items[k].command)
  {
    assert V.LinkedAt(Running(y, always), s.clock, s.items[k], s.disk.history[s.first + k]);
  }

  // A stretch of the log, replayed at these instants.
  ghost function Stretch(history: seq<L.Record>, cut: nat, times: seq<Time>): (r: seq<Item>)
    requires cut + |times| <= |history|
  {
    seq(|times|, i requires 0 <= i < |times| => Item(times[i], times[i], history[cut + i]))
  }

  lemma StretchRecords(y: Layout, items: seq<Item>, history: seq<L.Record>, first: nat, n: nat, times: seq<Time>)
    requires LoggedAs(y, items, history, first) && n + |times| <= |items|
    ensures Records(y, items[n..n + |times|], times, Stretch(history, first + n, times))
  {
    var since, replayed := items[n..n + |times|], Stretch(history, first + n, times);
    forall i | 0 <= i < |times|
      ensures replayed[i] == Item(times[i], times[i], LogRecord(y, since[i].logged, since[i].command))
    {
      assert since[i] == items[n + i] && history[first + (n + i)] == replayed[i].command;
    }
  }

  lemma ReplayedIsStretch(s: System, times: seq<Time>)
    requires Bounded(s) && Restartable(s, times)
    ensures V.Replayed(s.disk, times) == Stretch(s.disk.history, s.first + Covered(s), times)
    ensures Since(s) == s.items[Covered(s)..Covered(s) + |times|]
  {
  }

  lemma ReplayedRecords(y: Layout, s: System, times: seq<Time>)
    requires LoggedAs(y, s.items, s.disk.history, s.first) && Bounded(s) && Restartable(s, times)
    ensures Records(y, Since(s), times, V.Replayed(s.disk, times))
  {
    ReplayedIsStretch(s, times);
    StretchRecords(y, s.items, s.disk.history, s.first, Covered(s), times);
  }

  // Commands were logged after they ran and are replayed after both, and the table admits only
  // commands with enough arguments.
  lemma LoggedInTime(y: Layout, always: bool, s: System, times: seq<Time>, d: nat, i: nat)
    requires V.Linked(Running(y, always), s) && Bounded(s) && Restartable(s, times) && i < |times|
    ensures
      var step := StepsFor(y, d, Since(s), times)[i];
      step.now <= step.logged <= step.replayed && Accepted(step.op)
  {
    V.LinkedTimes(Running(y, always), s, Covered(s) + i);
    OpForAccepted(y, s.items[Covered(s) + i].command, d);
  }

  lemma SinceIsFaithful(y: Layout, always: bool, s: System, times: seq<Time>, d: nat)
    requires V.Linked(Running(y, always), s) && Bounded(s) && Restartable(s, times) && FaithfulSince(y, s, times, d)
    ensures R.FaithfulThroughout(After(y, s, d, Covered(s)), StepsFor(y, d, Since(s), times))
  {
    forall i | 0 <= i < |times|
      ensures StepsFor(y, d, Since(s), times)[i].Timely() && Accepted(StepsFor(y, d, Since(s), times)[i].op)
    {
      LoggedInTime(y, always, s, times, d, i);
    }
  }

  // The visible state of a database after recovery, as one keyspace.
  lemma ShowsAfter(y: Layout, s: System, times: seq<Time>, d: nat)
    requires Proper(y) && Bounded(s) && Based(y, s) && Restartable(s, times) && d < y.dbs
    requires Records(y, Since(s), times, V.Replayed(s.disk, times))
    requires CarriedIn(s.base.shards, d, First(s.clock, times))
    requires R.FaithfulThroughout(After(y, s, d, Covered(s)), StepsFor(y, d, Since(s), times))
    ensures Alike(After(y, s, d, Surviving(s)), Shown(y, s, times, d), V.Last(s.clock, times))
  {
    SnapshotShowsIff(y, s, d, First(s.clock, times));
    AfterSplits(y, s, d, Covered(s), Surviving(s));
    ReplayShows(y, d, After(y, s, d, Covered(s)), ViewOf(C.Restored(Snapshot(s)), d), Since(s), times,
      V.Replayed(s.disk, times), s.clock);
  }

  lemma ReadsAlike(y: Layout, h: Seed, s: Cluster, d: nat, key: Bytes, a: Keyspace, b: Keyspace, now: Time)
    requires Reads(y, h, s, d, key, b, now) && Alike(a, b, now)
    ensures Reads(y, h, s, d, key, a, now)
  {
    assert Lookup(a, key, now) == Lookup(b, key, now);
  }

  // The whole stack: stop any run of the server at any point, restart it under any seed with
  // any clock readings that do not go back, and every key of a database reads as it would
  // after a prefix of what the stopped server had run, each command at the instant it ran;
  // the prefix holds every flushed write. It takes deadlines that the snapshot carries and
  // commands that their records reproduce.
  lemma RecoveredDatabases(y: Layout, always: bool, run: seq<Action>, s: System, h: Seed, times: seq<Time>,
        d: nat, key: Bytes)
    requires Proper(y) && V.Reaches(Running(y, always), run, s) && Restartable(s, times) && d < y.dbs
    ensures Bounded(s) && s.disk.durable <= D.Survivors(s.disk)
    ensures CarriedIn(s.base.shards, d, First(s.clock, times)) && FaithfulSince(y, s, times, d) ==>
      Reads(y, h, Recovered(y, s, h, times), d, key,
            After(y, s, d, Surviving(s)), V.Last(s.clock, times))
  {
    ReachedIsBased(y, always, run, s);
    if CarriedIn(s.base.shards, d, First(s.clock, times)) && FaithfulSince(y, s, times, d) {
      var t := V.Last(s.clock, times);
      LinkedIsLogged(y, always, s);
      ReplayedRecords(y, s, times);
      SinceIsFaithful(y, always, s, times, d);
      ShowsAfter(y, s, times, d);
      RecoveredReads(y, s, h, times, d, key, t);
      ReadsAlike(y, h, Recovered(y, s, h, times), d, key,
        After(y, s, d, Surviving(s)), Shown(y, s, times, d), t);
    }
  }

  // With nothing logged since the snapshot, every key reads as before the stop if and only
  // if every captured deadline comes through or is past by then.
  lemma RecoveredIff(y: Layout, always: bool, run: seq<Action>, s: System, h: Seed, d: nat)
    requires Proper(y) && V.Reaches(Running(y, always), run, s) && Restartable(s, []) && d < y.dbs
    ensures Bounded(s)
    ensures (forall key :: Reads(y, h, Recovered(y, s, h, []), d, key, After(y, s, d, Surviving(s)), s.clock))
      <==> CarriedIn(s.base.shards, d, s.clock)
  {
    ReachedIsBased(y, always, run, s);
    BasedRecoveredIff(y, s, h, d);
  }

  lemma BasedRecoveredIff(y: Layout, s: System, h: Seed, d: nat)
    requires Bounded(s) && Based(y, s) && Restartable(s, []) && d < y.dbs
    ensures (forall key :: Reads(y, h, Recovered(y, s, h, []), d, key, After(y, s, d, Surviving(s)), s.clock))
      <==> CarriedIn(s.base.shards, d, s.clock)
  {
    SnapshotShowsIff(y, s, d, s.clock);
    assert Covered(s) == Surviving(s);
    RestoredReadsIff(y, s, h, d, After(y, s, d, Covered(s)));
  }

  lemma ShownAtOnce(y: Layout, s: System, d: nat)
    requires Restartable(s, [])
    ensures Shown(y, s, [], d) == ViewOf(C.Restored(Snapshot(s)), d)
  {
    assert RunFor(y, d, V.Replayed(s.disk, [])) == [];
  }

  lemma AllRecoveredRead(y: Layout, s: System, h: Seed, times: seq<Time>, d: nat, now: Time)
    requires Restartable(s, times) && d < y.dbs
    ensures forall key :: Reads(y, h, Recovered(y, s, h, times), d, key, Shown(y, s, times, d), now)
  {
    forall key ensures Reads(y, h, Recovered(y, s, h, times), d, key, Shown(y, s, times, d), now) {
      RecoveredReads(y, s, h, times, d, key, now);
    }
  }

  lemma AllReadIff(y: Layout, h: Seed, r: Cluster, d: nat, a: Keyspace, b: Keyspace, now: Time)
    requires forall key :: Reads(y, h, r, d, key, b, now)
    ensures (forall key :: Reads(y, h, r, d, key, a, now)) <==> Alike(a, b, now)
  {
    forall key ensures Reads(y, h, r, d, key, a, now) <==> Lookup(a, key, now) == Lookup(b, key, now) {
      assert Reads(y, h, r, d, key, b, now);
    }
  }

  lemma RestoredReadsIff(y: Layout, s: System, h: Seed, d: nat, a: Keyspace)
    requires Restartable(s, []) && d < y.dbs
    ensures (forall key :: Reads(y, h, Recovered(y, s, h, []), d, key, a, s.clock))
      <==> Alike(a, ViewOf(C.Restored(Snapshot(s)), d), s.clock)
  {
    ShownAtOnce(y, s, d);
    AllRecoveredRead(y, s, h, [], d, s.clock);
    AllReadIff(y, h, Recovered(y, s, h, []), d, a, Shown(y, s, [], d), s.clock);
  }

  // At any moment of any run, a key whose shard no command holds between running and logging
  // reads as it does after the commands replayed and logged so far, on one keyspace.
  lemma LiveDatabases(y: Layout, always: bool, run: seq<Action>, s: System, d: nat, key: Bytes)
    requires Proper(y) && V.Reaches(Running(y, always), run, s) && s.disk.up && d < y.dbs
    requires Free(Sem(y, s.seed), s.inflight, (d, Index(s.seed, key)))
    ensures Reads(y, s.seed, s.live, d, key, After(y, s, d, |s.items|), s.clock)
  {
    RunningSound(y, always);
    var x, origin := (d, Index(s.seed, key)), RestoreInto(y, s.seed, s.from);
    assert x in Locs(y, s.seed);
    V.LogOrderSerialises(Running(y, always), run, s, x);
    FoldReads(y, s, d, key, s.clock);
    SameReads(y, s.seed, s.clock, s.live, Fold(Sem(y, s.seed), origin, s.items), d, key, After(y, s, d, |s.items|));
  }

  lemma SameReads(y: Layout, h: Seed, now: Time, s: Cluster, r: Cluster, d: nat, key: Bytes, view: Keyspace)
    requires Sem(y, h).SameAt(now, s, r, (d, Index(h, key))) && Reads(y, h, r, d, key, view, now)
    ensures Reads(y, h, s, d, key, view, now)
  {
    var x := (d, Index(h, key));
    assert Alike(s[x], r[x], now);
    assert Lookup(s[x], key, now) == Lookup(r[x], key, now);
  }

  lemma FoldReads(y: Layout, s: System, d: nat, key: Bytes, now: Time)
    requires d < y.dbs
    ensures Reads(y, s.seed, Fold(Sem(y, s.seed), RestoreInto(y, s.seed, s.from), s.items), d, key,
              After(y, s, d, |s.items|), now)
  {
    var origin := RestoreInto(y, s.seed, s.from);
    assert s.items[..|s.items|] == s.items;
    RestoredHolds(y, s.seed, s.from, d);
    FoldRefines(y, s.seed, origin, s.items, d, ViewOf(C.Restored(s.from), d));
    HoldsLookup(Cells(y, s.seed, Fold(Sem(y, s.seed), origin, s.items), d), s.seed.hash,
      After(y, s, d, |s.items|), key, now);
    assert (d, Index(s.seed, key)) in Locs(y, s.seed);
  }

  // Every record that recovery replays names a database, a command and enough arguments.
  lemma ReplayDispatches(y: Layout, always: bool, run: seq<Action>, s: System, i: nat)
    requires Proper(y) && V.Reaches(Running(y, always), run, s)
    requires s.first <= i < |s.disk.history|
    ensures Resolve(y, s.disk.history[i]).Resolved?
  {
    ReachedIsBased(y, always, run, s);
    LinkedDispatches(y, always, s, i - s.first);
  }

  lemma LinkedDispatches(y: Layout, always: bool, s: System, k: nat)
    requires Proper(y) && V.Linked(Running(y, always), s) && k < |s.items|
    ensures Resolve(y, s.disk.history[s.first + k]).Resolved?
  {
    assert V.LinkedAt(Running(y, always), s.clock, s.items[k], s.disk.history[s.first + k]);
    LogRecordResolves(y, s.items[k].logged, s.items[k].command, 0);
  }
}
