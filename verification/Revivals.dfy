// A run of the server in which a key that has expired comes back: the snapshot writes its
// deadline, the Unix epoch, as the marker for no deadline.
module Revivals {
  import opened ByteStrings
  import opened Options
  import opened Decimals
  import opened Commands
  import opened Databases
  import opened Clusters
  import opened Serial
  import opened Restarts
  import L = AppendLog
  import R = Replays
  import C = Captures
  import N = Snapshots
  import V = Servers
  import Stores
  import G = Names

  // SET k v, as named in the command table, and PEXPIREAT k 0.
  predicate Named(y: Layout, name: Bytes, k: Bytes, v: Bytes) {
    y.dbs >= 1 && y.verb(name) == Some(G.Set) && |name| < TWO63 && |k| < TWO63 && |v| < TWO63
  }

  function SetRecord(name: Bytes, k: Bytes, v: Bytes): (r: L.Record)
    requires |name| < TWO63 && |k| < TWO63 && |v| < TWO63
  {
    L.Command(0, [name, k, v])
  }

  function EpochRecord(k: Bytes): (r: L.Record)
    requires |k| < TWO63
  {
    L.Command(0, [PEXPIREAT, k, [48]])
  }

  lemma ParseZero()
    ensures ParseInt([48]) == Some(0)
  {
    IntRoundTrip(0);
    assert FormatInt(0) == [48];
  }

  lemma Resolves(y: Layout, name: Bytes, k: Bytes, v: Bytes)
    requires Proper(y) && Named(y, name, k, v)
    ensures Resolve(y, SetRecord(name, k, v)) == Resolved(G.Set, Set(k, v))
    ensures Resolve(y, EpochRecord(k)) == Resolved(G.PExpireAt, PExpireAt(k, [48]))
    ensures forall t :: LogRecord(y, t, SetRecord(name, k, v)) == SetRecord(name, k, v)
    ensures forall t :: LogRecord(y, t, EpochRecord(k)) == EpochRecord(k)
  {
  }

  // The shards once both commands have run.
  function OneKey(y: Layout, h: Seed, k: Bytes, e: Entry): (r: Cluster) {
    map x | x in Locs(y, h) :: if x == (0, Index(h, k)) then map[k := e] else map[]
  }

  lemma StartsEmpty(y: Layout, h: Seed, x: Loc)
    requires x in Locs(y, h)
    ensures x in RestoreInto(y, h, []) && RestoreInto(y, h, [])[x] == map[]
  {
    assert C.Restored([]) == map[];
  }

  // A resolved command, one shard at a time.
  lemma StepAt(y: Layout, h: Seed, s: Cluster, c: L.Command, x: Loc)
    requires Resolve(y, c).Resolved? && x in s
    ensures Step(y, h, 0, s, c)[x] == if x.0 == c.db then CellAfter(h, 0, Resolve(y, c).op, x.1, s[x]) else s[x]
  {
  }

  lemma SetCell(h: Seed, k: Bytes, v: Bytes, i: nat)
    ensures CellAfter(h, 0, Set(k, v), i, map[])
      == if i == Index(h, k) then map[k := Entry(Str(v), ZERO_TIME)] else map[]
  {
  }

  lemma SetStep(y: Layout, h: Seed, name: Bytes, k: Bytes, v: Bytes)
    requires Proper(y) && Named(y, name, k, v)
    ensures Step(y, h, 0, RestoreInto(y, h, []), SetRecord(name, k, v)) == OneKey(y, h, k, Entry(Str(v), ZERO_TIME))
  {
    Resolves(y, name, k, v);
    var s, t := RestoreInto(y, h, []), OneKey(y, h, k, Entry(Str(v), ZERO_TIME));
    var r := Step(y, h, 0, s, SetRecord(name, k, v));
    forall x | x in Locs(y, h) ensures r[x] == t[x] {
      StartsEmpty(y, h, x);
      StepAt(y, h, s, SetRecord(name, k, v), x);
      SetCell(h, k, v, x.1);
    }
    SameCluster(r, t);
  }

  lemma SameCluster(r: Cluster, t: Cluster)
    requires r.Keys == t.Keys && forall x :: x in r.Keys ==> r[x] == t[x]
    ensures r == t
  {
  }

  lemma EpochExec(k: Bytes, v: Bytes)
    ensures Exec(0, PExpireAt(k, [48]), map[k := Entry(Str(v), ZERO_TIME)]).keyspace == map[k := Entry(Str(v), 0)]
  {
    ParseZero();
    assert Lookup(map[k := Entry(Str(v), ZERO_TIME)], k, 0) == Some(Entry(Str(v), ZERO_TIME));
  }

  lemma EpochCell(h: Seed, k: Bytes, v: Bytes, i: nat)
    ensures
      var cell := if i == Index(h, k) then map[k := Entry(Str(v), ZERO_TIME)] else map[];
      CellAfter(h, 0, PExpireAt(k, [48]), i, cell)
      == if i == Index(h, k) then map[k := Entry(Str(v), 0)] else map[]
  {
    EpochExec(k, v);
  }

  lemma EpochStepAt(y: Layout, h: Seed, name: Bytes, k: Bytes, v: Bytes, x: Loc)
    requires Proper(y) && Named(y, name, k, v) && x in Locs(y, h)
    ensures Step(y, h, 0, OneKey(y, h, k, Entry(Str(v), ZERO_TIME)), EpochRecord(k))[x]
      == OneKey(y, h, k, Entry(Str(v), 0))[x]
  {
    Resolves(y, name, k, v);
    StepAt(y, h, OneKey(y, h, k, Entry(Str(v), ZERO_TIME)), EpochRecord(k), x);
    EpochCell(h, k, v, x.1);
  }

  lemma EpochStep(y: Layout, h: Seed, name: Bytes, k: Bytes, v: Bytes)
    requires Proper(y) && Named(y, name, k, v)
    ensures Step(y, h, 0, OneKey(y, h, k, Entry(Str(v), ZERO_TIME)), EpochRecord(k))
      == OneKey(y, h, k, Entry(Str(v), 0))
  {
    var s, t := OneKey(y, h, k, Entry(Str(v), ZERO_TIME)), OneKey(y, h, k, Entry(Str(v), 0));
    forall x | x in Locs(y, h) ensures Step(y, h, 0, s, EpochRecord(k))[x] == t[x] {
      EpochStepAt(y, h, name, k, v, x);
    }
    SameCluster(Step(y, h, 0, s, EpochRecord(k)), t);
  }

  function Emitted(k: Bytes, v: Bytes): (rs: Payload)
    requires |k| < TWO63 && |v| < TWO63
  {
    [N.Rec(0, k, 0, N.Text(v))]
  }

  function Content(k: Bytes, v: Bytes, at: Time): (c: C.Contents) {
    map[(0, k) := C.Stored(C.StringOf(v), at)]
  }

  lemma ContentView(k: Bytes, v: Bytes, at: Time, d: nat)
    ensures ViewOf(Content(k, v, at), d) == if d == 0 then map[k := Entry(Str(v), at)] else map[]
  {
  }

  lemma OneKeyHolds(y: Layout, h: Seed, k: Bytes, e: Entry, d: nat)
    requires d < y.dbs
    ensures Holds(Cells(y, h, OneKey(y, h, k, e), d), h.hash, if d == 0 then map[k := e] else map[])
  {
    var cells := Cells(y, h, OneKey(y, h, k, e), d);
    forall i | 0 <= i < h.shards ensures cells[i] == if d == 0 && i == Index(h, k) then map[k := e] else map[] {
      assert (d, i) in Locs(y, h);
    }
  }

  lemma OneKeyCaptured(y: Layout, h: Seed, k: Bytes, v: Bytes)
    requires y.dbs >= 1 && |k| < TWO63 && |v| < TWO63
    ensures CapturedFrom(y, h, OneKey(y, h, k, Entry(Str(v), 0)), Emitted(k, v))
  {
    var s, c := OneKey(y, h, k, Entry(Str(v), 0)), Content(k, v, 0);
    assert C.Captured(Emitted(k, v), c) by {
      assert Emitted(k, v)[0].db == 0 && Emitted(k, v)[0].key == k;
    }
    forall d: nat | d < y.dbs ensures Holds(Cells(y, h, s, d), h.hash, ViewOf(c, d)) {
      ContentView(k, v, 0, d);
      OneKeyHolds(y, h, k, Entry(Str(v), 0), d);
    }
  }

  // One thread runs and logs a command that is logged as it is.
  lemma Write(y: Layout, run: seq<Action>, s: System, c: L.Record, after: Cluster)
    returns (run': seq<Action>, s': System)
    requires V.Reaches(Running(y, false), run, s) && V.Quiet(s)
    requires Resolve(y, c).Resolved? && LogRecord(y, s.clock, c) == c
    requires Step(y, s.seed, s.clock, s.live, c) == after
    ensures V.Reaches(Running(y, false), run', s') && V.Quiet(s')
    ensures s'.clock == s.clock && s'.seed == s.seed && s'.from == s.from && s'.first == s.first
    ensures s'.items == s.items + [Item(s.clock, s.clock, c)]
    ensures s'.live == after
    ensures |s'.disk.history| == |s.disk.history| + 1 && s'.disk.starts == s.disk.starts
    ensures s'.disk.store.gen == s.disk.store.gen
  {
    run', s' := V.RunAndLog(Running(y, false), run, s, c);
  }

  lemma Started(y: Layout, h: Seed) returns (s: System)
    ensures V.Reaches(Running(y, false), [], s) && V.Quiet(s)
    ensures s.clock == 0 && s.seed == h && s.from == [] && s.first == 0 && s.items == []
    ensures s.live == RestoreInto(y, h, [])
    ensures |s.disk.history| == 0 && s.disk.starts == [0] && s.disk.store.gen == 0
  {
    s := V.Fresh(Running(y, false), h, 0);
  }

  lemma LoggedAsTheyAre(y: Layout, name: Bytes, k: Bytes, v: Bytes)
    requires Proper(y) && Named(y, name, k, v)
    ensures Resolve(y, SetRecord(name, k, v)).Resolved? && Resolve(y, EpochRecord(k)).Resolved?
    ensures LogRecord(y, 0, SetRecord(name, k, v)) == SetRecord(name, k, v)
    ensures LogRecord(y, 0, EpochRecord(k)) == EpochRecord(k)
  {
    Resolves(y, name, k, v);
  }

  function TwoItems(name: Bytes, k: Bytes, v: Bytes): (r: seq<Item>)
    requires |name| < TWO63 && |k| < TWO63 && |v| < TWO63
  {
    [Item(0, 0, SetRecord(name, k, v))] + [Item(0, 0, EpochRecord(k))]
  }

  lemma FirstWrite(y: Layout, h: Seed, name: Bytes, k: Bytes, v: Bytes) returns (run: seq<Action>, s: System)
    requires Proper(y) && Named(y, name, k, v)
    ensures V.Reaches(Running(y, false), run, s) && V.Quiet(s)
    ensures s.clock == 0 && s.seed == h && s.from == [] && s.first == 0
    ensures s.items == [Item(0, 0, SetRecord(name, k, v))]
    ensures s.live == OneKey(y, h, k, Entry(Str(v), ZERO_TIME))
    ensures |s.disk.history| == 1 && s.disk.starts == [0] && s.disk.store.gen == 0
  {
    LoggedAsTheyAre(y, name, k, v);
    SetStep(y, h, name, k, v);
    s := Started(y, h);
    run, s := Write(y, [], s, SetRecord(name, k, v), OneKey(y, h, k, Entry(Str(v), ZERO_TIME)));
  }

  lemma TwoWrites(y: Layout, h: Seed, name: Bytes, k: Bytes, v: Bytes) returns (run: seq<Action>, s: System)
    requires Proper(y) && Named(y, name, k, v)
    ensures V.Reaches(Running(y, false), run, s) && V.Quiet(s)
    ensures s.clock == 0 && s.seed == h && s.from == [] && s.first == 0
    ensures s.items == TwoItems(name, k, v)
    ensures s.live == OneKey(y, h, k, Entry(Str(v), 0))
    ensures |s.disk.history| == 2 && s.disk.starts == [0] && s.disk.store.gen == 0
  {
    LoggedAsTheyAre(y, name, k, v);
    run, s := FirstWrite(y, h, name, k, v);
    EpochStep(y, h, name, k, v);
    run, s := Write(y, run, s, EpochRecord(k), OneKey(y, h, k, Entry(Str(v), 0)));
  }

  lemma EpochRun(y: Layout, h: Seed, name: Bytes, k: Bytes, v: Bytes) returns (run: seq<Action>, s: System)
    requires Proper(y) && Named(y, name, k, v)
    ensures V.Reaches(Running(y, false), run, s)
    ensures s.clock == 0 && s.seed == h && s.from == [] && s.first == 0
    ensures s.items == TwoItems(name, k, v)
    ensures |s.disk.history| == 2 && s.disk.starts == [0, 2]
    ensures s.disk.store.snapshot == Stores.Present(1, Emitted(k, v))
  {
    run, s := TwoWrites(y, h, name, k, v);
    OneKeyCaptured(y, h, k, v);
    run, s := V.Compact(Running(y, false), run, s, Emitted(k, v));
  }

  // Where that run stops, the whole log is in the snapshot.
  lemma AllCovered(y: Layout, run: seq<Action>, s: System)
    requires Proper(y) && V.Reaches(Running(y, false), run, s)
    requires |s.disk.history| == 2 && s.disk.starts == [0, 2] && s.disk.store.Base() == 1
    ensures Restartable(s, [])
  {
    ReachedIsBased(y, false, run, s);
  }

  lemma DeadBefore(y: Layout, s: System, name: Bytes, k: Bytes, v: Bytes)
    requires Proper(y) && Named(y, name, k, v) && s.from == []
    requires s.items == TwoItems(name, k, v)
    ensures Lookup(After(y, s, 0, 2), k, 0) == None
  {
    Resolves(y, name, k, v);
    var run := RunFor(y, 0, s.items[..2]);
    assert run == [R.Timed(0, Set(k, v)), R.Timed(0, PExpireAt(k, [48]))];
    R.ExecuteLast(map[], run, 1);
    assert run[..1] == [R.Timed(0, Set(k, v))] && run[..1][..0] == [];
    R.ExecuteLast(map[], run[..1], 0);
    assert Exec(0, Set(k, v), map[]).keyspace == map[k := Entry(Str(v), ZERO_TIME)];
    EpochExec(k, v);
    assert ViewOf(C.Restored([]), 0) == map[];
  }

  lemma RestoredAlive(k: Bytes, v: Bytes)
    requires |k| < TWO63 && |v| < TWO63
    ensures C.Restored(Emitted(k, v)) == Content(k, v, ZERO_TIME)
  {
    assert Emitted(k, v)[..0] == [];
  }

  lemma AliveAfter(y: Layout, s: System, g: Seed, k: Bytes, v: Bytes)
    requires y.dbs >= 1 && |k| < TWO63 && |v| < TWO63 && Restartable(s, []) && Snapshot(s) == Emitted(k, v)
    ensures Reads(y, g, Recovered(y, s, g, []), 0, k, map[k := Entry(Str(v), ZERO_TIME)], 0)
  {
    RestoredAlive(k, v);
    ContentView(k, v, ZERO_TIME, 0);
    ShownAtOnce(y, s, 0);
    RecoveredReads(y, s, g, [], 0, k, 0);
  }

  // SET k v; PEXPIREAT k 0; a compaction. The key is dead, and every restart brings it back
  // to stay.
  lemma EpochKeyComesBack(y: Layout, h: Seed, name: Bytes, k: Bytes, v: Bytes)
    requires Proper(y) && Named(y, name, k, v)
    ensures exists run, s ::
      && V.Reaches(Running(y, false), run, s) && s.clock == 0 && |s.items| == 2 && Restartable(s, [])
      && Lookup(After(y, s, 0, 2), k, 0) == None
      && forall g: Seed :: Reads(y, g, Recovered(y, s, g, []), 0, k, map[k := Entry(Str(v), ZERO_TIME)], 0)
  {
    var run, s := EpochRun(y, h, name, k, v);
    AllCovered(y, run, s);
    DeadBefore(y, s, name, k, v);
    forall g: Seed ensures Reads(y, g, Recovered(y, s, g, []), 0, k, map[k := Entry(Str(v), ZERO_TIME)], 0) {
      AliveAfter(y, s, g, k, v);
    }
  }
}
