// The locks each part of the server takes, and in which order (internal/shard, server and
// persistence). All of them keep the discipline under which no deadlock is possible.
module LockPrograms {
  import opened ByteStrings
  import opened Databases
  import opened Locks
  import opened Registry
  import Names
  import Clusters
  import L = AppendLog

  ghost predicate Ascending(ls: seq<nat>) {
    forall i, j :: 0 <= i < j < |ls| ==> ls[i] < ls[j]
  }

  ghost predicate Below(h: map<nat, bool>, l: nat) {
    forall m :: m in h ==> m < l
  }

  // Take the locks in order, do the work, release them in reverse.
  function Bracket(ls: seq<nat>, write: bool, inner: seq<Op>): (r: seq<Op>) {
    if ls == [] then inner
    else [Acquire(ls[0], write)] + Bracket(ls[1..], write, inner) + [Release(ls[0], write)]
  }

  // A method of the store runs under its mutex.
  function Guarded(mutex: nat): (r: seq<Op>) {
    [Acquire(mutex, true), Work, Release(mutex, true)]
  }

  lemma {:induction false} AfterConcat(h: map<nat, bool>, a: seq<Op>, b: seq<Op>)
    ensures After(h, a + b) == After(After(h, a), b)
    decreases |b|
  {
    if b == [] {
      assert a + b == a;
    } else {
      var k := |b| - 1;
      var all := a + b;
      assert all[..|all| - 1] == a + b[..k] && all[|all| - 1] == b[k];
      AfterConcat(h, a, b[..k]);
    }
  }

  lemma RunsConcat(h: map<nat, bool>, a: seq<Op>, b: seq<Op>)
    requires Runs(h, a) && Runs(After(h, a), b)
    ensures Runs(h, a + b)
  {
    forall i | 0 <= i < |a + b| ensures Allowed(After(h, (a + b)[..i]), (a + b)[i]) {
      if i < |a| {
        assert (a + b)[..i] == a[..i];
      } else {
        var j := i - |a|;
        assert (a + b)[..i] == a + b[..j];
        AfterConcat(h, a, b[..j]);
        assert Allowed(After(After(h, a), b[..j]), b[j]);
      }
    }
  }

  lemma OneOp(h: map<nat, bool>, op: Op)
    requires Allowed(h, op)
    ensures Runs(h, [op])
    ensures After(h, [op]) == Effect(h, op)
  {
    assert [op][..0] == [];
  }

  // Holding h, the program keeps the discipline and ends holding h again.
  ghost predicate Balanced(h: map<nat, bool>, ops: seq<Op>) {
    Runs(h, ops) && After(h, ops) == h
  }

  lemma BalancedConcat(h: map<nat, bool>, a: seq<Op>, b: seq<Op>)
    requires Balanced(h, a) && Balanced(h, b)
    ensures Balanced(h, a + b)
  {
    RunsConcat(h, a, b);
    AfterConcat(h, a, b);
  }

  lemma Nested(h: map<nat, bool>, l: nat, write: bool, inner: seq<Op>)
    requires Below(h, l) && Balanced(h[l := write], inner)
    ensures Balanced(h, [Acquire(l, write)] + inner + [Release(l, write)])
  {
    var a, z := [Acquire(l, write)], [Release(l, write)];
    OneOp(h, Acquire(l, write));
    OneOp(h[l := write], Release(l, write));
    Chained(h, a, h[l := write], inner, h[l := write]);
    TakenAndGiven(h, l, write);
    Chained(h, a + inner, h[l := write], z, h);
  }

  lemma TakenAndGiven(h: map<nat, bool>, l: nat, write: bool)
    requires Below(h, l)
    ensures h[l := write] - {l} == h
  {
  }

  // From h through mid to end.
  lemma Chained(h: map<nat, bool>, a: seq<Op>, mid: map<nat, bool>, b: seq<Op>, end: map<nat, bool>)
    requires Runs(h, a) && After(h, a) == mid && Runs(mid, b) && After(mid, b) == end
    ensures Runs(h, a + b) && After(h, a + b) == end
  {
    RunsConcat(h, a, b);
    AfterConcat(h, a, b);
  }

  lemma GuardedBalanced(h: map<nat, bool>, mutex: nat)
    requires Below(h, mutex)
    ensures Balanced(h, Guarded(mutex))
  {
    OneOp(h[mutex := true], Work);
    Nested(h, mutex, true, [Work]);
    assert [Acquire(mutex, true)] + [Work] + [Release(mutex, true)] == Guarded(mutex);
  }

  // What happens while a command's shard locks are held: run it and, perhaps, log it.
  function Body(logs: bool, mutex: nat): (r: seq<Op>) {
    [Work] + if logs then Guarded(mutex) else []
  }

  lemma BodyBalanced(h: map<nat, bool>, logs: bool, mutex: nat)
    requires Below(h, mutex)
    ensures Balanced(h, Body(logs, mutex))
  {
    OneOp(h, Work);
    if logs {
      GuardedBalanced(h, mutex);
      BalancedConcat(h, [Work], Guarded(mutex));
    } else {
      assert Body(logs, mutex) == [Work];
    }
  }

  lemma {:induction false} BracketBalanced(h: map<nat, bool>, ls: seq<nat>, write: bool, logs: bool, mutex: nat)
    requires Ascending(ls) && Below(h, mutex)
    requires forall i :: 0 <= i < |ls| ==> ls[i] < mutex && Below(h, ls[i])
    ensures Balanced(h, Bracket(ls, write, Body(logs, mutex)))
    decreases |ls|
  {
    if ls == [] {
      BodyBalanced(h, logs, mutex);
    } else {
      var l := ls[0];
      BracketBalanced(h[l := write], ls[1..], write, logs, mutex);
      Nested(h, l, write, Bracket(ls[1..], write, Body(logs, mutex)));
    }
  }

  // Everything a thread of the server does with locks. A command holds the locks of its
  // shards, ascending; an expiry pass holds one shard at a time; compaction reads the next
  // generation, holds every lock of every database while it captures and rotates, and
  // installs; a flush is one call on the store.
  datatype Job =
    | Command(locks: seq<nat>, write: bool, logs: bool)
    | ExpiryPass(locks: seq<nat>)
    | Compaction(locks: seq<nat>)
    | StoreCall

  ghost predicate Proper(j: Job, mutex: nat) {
    j.StoreCall? || (Ascending(j.locks) && forall i :: 0 <= i < |j.locks| ==> j.locks[i] < mutex)
  }

  function OneAtATime(ls: seq<nat>, mutex: nat): (r: seq<Op>) {
    if ls == [] then [] else Bracket([ls[0]], true, Body(false, mutex)) + OneAtATime(ls[1..], mutex)
  }

  function Program(j: Job, mutex: nat): (r: seq<Op>) {
    match j
    case Command(ls, write, logs) => Bracket(ls, write, Body(logs, mutex))
    case ExpiryPass(ls) => OneAtATime(ls, mutex)
    case Compaction(ls) => Guarded(mutex) + (Bracket(ls, true, Body(true, mutex)) + Guarded(mutex))
    case StoreCall => Guarded(mutex)
  }

  lemma {:induction false} OneAtATimeBalanced(ls: seq<nat>, mutex: nat)
    requires forall i :: 0 <= i < |ls| ==> ls[i] < mutex
    ensures Balanced(map[], OneAtATime(ls, mutex))
    decreases |ls|
  {
    if ls != [] {
      OneAtATimeBalanced(ls[1..], mutex);
      BracketBalanced(map[], [ls[0]], true, false, mutex);
      BalancedConcat(map[], Bracket([ls[0]], true, Body(false, mutex)), OneAtATime(ls[1..], mutex));
    }
  }

  lemma ProgramBalanced(j: Job, mutex: nat)
    requires Proper(j, mutex)
    ensures Balanced(map[], Program(j, mutex))
  {
    match j
    case Command(ls, write, logs) => BracketBalanced(map[], ls, write, logs, mutex);
    case ExpiryPass(ls) => OneAtATimeBalanced(ls, mutex);
    case Compaction(ls) =>
      GuardedBalanced(map[], mutex);
      BracketBalanced(map[], ls, true, true, mutex);
      var held := Bracket(ls, true, Body(true, mutex));
      BalancedConcat(map[], held, Guarded(mutex));
      BalancedConcat(map[], Guarded(mutex), held + Guarded(mutex));
    case StoreCall => GuardedBalanced(map[], mutex);
  }

  // A thread does one job after another.
  function Jobs(js: seq<Job>, mutex: nat): (r: seq<Op>) {
    if js == [] then [] else Program(js[0], mutex) + Jobs(js[1..], mutex)
  }

  lemma {:induction false} JobsDisciplined(js: seq<Job>, mutex: nat)
    requires forall i :: 0 <= i < |js| ==> Proper(js[i], mutex)
    ensures Disciplined(Jobs(js, mutex))
    decreases |js|
  {
    if js != [] {
      JobsDisciplined(js[1..], mutex);
      ProgramBalanced(js[0], mutex);
      BalancedConcat(map[], Program(js[0], mutex), Jobs(js[1..], mutex));
    }
  }

  ghost predicate AllProper(work: seq<seq<Job>>, mutex: nat) {
    forall i, k :: 0 <= i < |work| && 0 <= k < |work[i]| ==> Proper(work[i][k], mutex)
  }

  function Programs(work: seq<seq<Job>>, mutex: nat): (r: seq<seq<Op>>)
    ensures |r| == |work|
  {
    seq(|work|, i requires 0 <= i < |work| => Jobs(work[i], mutex))
  }

  // Insertion of a shard index into a sorted list.
  method InsertSorted(idx: seq<nat>, x: nat) returns (r: seq<nat>)
    requires Ascending(idx) && x !in idx
    ensures Ascending(r) && (forall y :: y in r <==> y == x || y in idx)
  {
    var i := 0;
    while i < |idx| && idx[i] < x
      invariant 0 <= i <= |idx|
      invariant forall j :: 0 <= j < i ==> idx[j] < x
    {
      i := i + 1;
    }
    r := idx[..i] + [x] + idx[i..];
    InsertedAscending(idx, x, i);
    InsertedMembers(idx, x, i);
  }

  lemma InsertedAscending(idx: seq<nat>, x: nat, i: nat)
    requires Ascending(idx) && x !in idx && i <= |idx|
    requires (forall j :: 0 <= j < i ==> idx[j] < x) && (i < |idx| ==> idx[i] >= x)
    ensures Ascending(idx[..i] + [x] + idx[i..])
  {
    assert i < |idx| ==> idx[i] in idx;
    AscendingJoin(idx[..i], [x]);
    AscendingJoin(idx[..i] + [x], idx[i..]);
  }

  lemma InsertedMembers(idx: seq<nat>, x: nat, i: nat)
    requires i <= |idx|
    ensures forall y :: y in idx[..i] + [x] + idx[i..] <==> y == x || y in idx
  {
    assert idx == idx[..i] + idx[i..];
  }

  lemma AscendingJoin(a: seq<nat>, b: seq<nat>)
    requires Ascending(a) && Ascending(b) && (a != [] && b != [] ==> a[|a| - 1] < b[0])
    ensures Ascending(a + b)
  {
  }

  method SortInts(idx: seq<nat>) returns (r: seq<nat>)
    requires forall i, j :: 0 <= i < j < |idx| ==> idx[i] != idx[j]
    ensures Ascending(r) && (forall y :: y in r <==> y in idx)
  {
    r := [];
    for i := 0 to |idx|
      invariant Ascending(r) && (forall y :: y in r <==> y in idx[..i])
    {
      assert idx[i] !in idx[..i];
      r := InsertSorted(r, idx[i]);
      assert idx[..i + 1] == idx[..i] + [idx[i]];
    }
    assert idx[..|idx|] == idx;
  }

  // The shards from `from` up that some key routes to.
  function ShardsFrom(hash: Bytes -> nat, n: nat, keys: seq<Bytes>, from: nat): (r: seq<nat>)
    requires n >= 1
    ensures Ascending(r)
    ensures forall i :: 0 <= i < |r| ==> from <= r[i] < n && RoutedTo(hash, n, keys, r[i])
    ensures forall x :: from <= x < n && RoutedTo(hash, n, keys, x) ==> x in r
    decreases n - from
  {
    if from >= n then []
    else (if RoutedTo(hash, n, keys, from) then [from] else []) + ShardsFrom(hash, n, keys, from + 1)
  }

  predicate RoutedTo(hash: Bytes -> nat, n: nat, keys: seq<Bytes>, x: nat)
    requires n >= 1
  {
    exists k :: k in keys && Route(hash, n, k) == x
  }

  // An ascending list is known by its members.
  lemma {:induction false} AscendingUnique(a: seq<nat>, b: seq<nat>)
    requires Ascending(a) && Ascending(b) && forall x :: x in a <==> x in b
    ensures a == b
    decreases |a|
  {
    if a == [] {
      assert forall i :: 0 <= i < |b| ==> b[i] in a;
    } else {
      assert a[0] in a && a[0] in b;
      assert b[0] in b && b[0] in a;
      assert a[0] == b[0];
      forall x ensures x in a[1..] <==> x in b[1..] {
        assert x in a[1..] <==> x in a && x != a[0];
        assert x in b[1..] <==> x in b && x != b[0];
      }
      AscendingUnique(a[1..], b[1..]);
    }
  }

  // shardSet: the distinct shards of the keys, ascending.
  method ShardSet(hash: Bytes -> nat, n: nat, keys: seq<Bytes>) returns (idx: seq<nat>)
    requires n >= 1
    ensures Ascending(idx) && (forall i :: i in idx <==> RoutedTo(hash, n, keys, i))
    ensures idx == ShardsFrom(hash, n, keys, 0)
  {
    if |keys| == 0 {
      idx := [];
    } else if |keys| == 1 {
      assert keys[0] in keys;
      idx := [Route(hash, n, keys[0])];
    } else {
      idx := DistinctShards(hash, n, keys);
    }
    AscendingUnique(idx, ShardsFrom(hash, n, keys, 0));
  }

  method DistinctShards(hash: Bytes -> nat, n: nat, keys: seq<Bytes>) returns (idx: seq<nat>)
    requires n >= 1
    ensures Ascending(idx) && (forall i :: i in idx <==> RoutedTo(hash, n, keys, i))
  {
    var seen: set<nat>, found: seq<nat> := {}, [];
    for j := 0 to |keys|
      invariant forall i :: i in seen <==> i in found
      invariant forall a, b :: 0 <= a < b < |found| ==> found[a] != found[b]
      invariant forall i :: i in found ==> RoutedTo(hash, n, keys, i)
      invariant forall a :: 0 <= a < j ==> Route(hash, n, keys[a]) in found
    {
      var i := Route(hash, n, keys[j]);
      assert keys[j] in keys;
      if i !in seen {
        seen, found := seen + {i}, found + [i];
      }
    }
    idx := SortInts(found);
  }

  // The rank of shard i of database d among n shards each.
  function Rank(n: nat, d: nat, i: nat): (r: nat) {
    d * n + i
  }

  function Ranks(n: nat, d: nat, idx: seq<nat>): (r: seq<nat>)
    ensures |r| == |idx|
    ensures forall i :: 0 <= i < |r| ==> r[i] == Rank(n, d, idx[i])
  {
    seq(|idx|, i requires 0 <= i < |idx| => Rank(n, d, idx[i]))
  }

  // Every shard of a database, in order.
  function Indices(n: nat): (r: seq<nat>)
    ensures |r| == n && Ascending(r) && forall i :: 0 <= i < n ==> r[i] == i
  {
    seq(n, i => i)
  }

  // Every lock of every database, database by database, shard by shard.
  function AllRanks(n: nat, dbs: nat): (r: seq<nat>)
    ensures |r| == dbs * n && forall i :: 0 <= i < |r| ==> r[i] == i
  {
    if dbs == 0 then [] else AllRanks(n, dbs - 1) + Ranks(n, dbs - 1, Indices(n))
  }

  // The store's mutex, above every shard lock.
  function Mutex(y: Clusters.Layout, h: Clusters.Seed): (m: nat) {
    y.dbs * h.shards
  }

  // The work of the server: requests from connections, passes of active expiry over every
  // database, compactions, and calls on the store such as the periodic flush.
  datatype Work =
    | Request(command: L.Command, succeeds: bool)
    | Expiry
    | Compact
    | Flush

  // The shards execute and lockShards lock for a resolved command, in order.
  function LockedShards(h: Clusters.Seed, verb: Names.Verb, args: seq<Bytes>): (r: seq<nat>) {
    if Table(verb).wholeDB then Indices(h.shards) else ShardsFrom(h.hash, h.shards, DeclaredKeys(Table(verb), args), 0)
  }

  // A shared lock for read-only commands; only writes that answer without an error are logged.
  function RequestJob(y: Clusters.Layout, h: Clusters.Seed, c: L.Command, succeeds: bool): (j: Job) {
    var cmd := Clusters.Resolve(y, c);
    if cmd.NoCommand? then Command([], false, false)
    else
      var spec := Table(cmd.verb);
      Command(Ranks(h.shards, c.db, LockedShards(h, cmd.verb, c.args)), spec.wholeDB || !spec.readOnly,
              succeeds && !spec.readOnly)
  }

  function JobOf(y: Clusters.Layout, h: Clusters.Seed, w: Work): (j: Job) {
    match w
    case Request(c, succeeds) => RequestJob(y, h, c, succeeds)
    case Expiry => ExpiryPass(AllRanks(h.shards, y.dbs))
    case Compact => Compaction(AllRanks(h.shards, y.dbs))
    case Flush => StoreCall
  }

  // Ascending shards of one database are ascending locks, below the store's mutex.
  lemma RanksProper(n: nat, dbs: nat, d: nat, idx: seq<nat>)
    requires Ascending(idx) && d < dbs && forall i :: 0 <= i < |idx| ==> idx[i] < n
    ensures Ascending(Ranks(n, d, idx)) && forall i :: 0 <= i < |idx| ==> Ranks(n, d, idx)[i] < dbs * n
  {
    assert d * n + n == (d + 1) * n <= dbs * n;
  }

  // Whatever the work, its locks are taken in ascending order.
  lemma WorkIsProper(y: Clusters.Layout, h: Clusters.Seed, w: Work)
    ensures Proper(JobOf(y, h, w), Mutex(y, h))
  {
    if w.Request? {
      var cmd := Clusters.Resolve(y, w.command);
      if cmd.Resolved? {
        var idx := LockedShards(h, cmd.verb, w.command.args);
        forall i | 0 <= i < |idx| ensures idx[i] < h.shards {
          assert idx[i] in idx;
        }
        RanksProper(h.shards, y.dbs, w.command.db, idx);
      }
    }
  }

  // The locks a request takes are those of the shards its command reads and writes.
  lemma RequestLocks(y: Clusters.Layout, h: Clusters.Seed, c: L.Command, succeeds: bool, l: nat)
    ensures l in RequestJob(y, h, c, succeeds).locks
      <==> exists x :: x in Clusters.LockSet(y, h, c) && Rank(h.shards, x.0, x.1) == l
  {
    var cmd, locks := Clusters.Resolve(y, c), RequestJob(y, h, c, succeeds).locks;
    if cmd.Resolved? {
      var idx := LockedShards(h, cmd.verb, c.args);
      LockedIsLockSet(y, h, c);
      if l in locks {
        var i :| 0 <= i < |locks| && locks[i] == l;
        assert idx[i] in idx && (c.db, idx[i]) in Clusters.LockSet(y, h, c);
        assert Rank(h.shards, (c.db, idx[i]).0, (c.db, idx[i]).1) == l;
      }
      forall x | x in Clusters.LockSet(y, h, c) && Rank(h.shards, x.0, x.1) == l ensures l in locks {
        var i :| 0 <= i < |idx| && idx[i] == x.1;
        assert locks[i] == l;
      }
    }
  }

  lemma LockedIsLockSet(y: Clusters.Layout, h: Clusters.Seed, c: L.Command)
    requires Clusters.Resolve(y, c).Resolved?
    ensures
      var idx := LockedShards(h, Clusters.Resolve(y, c).verb, c.args);
      forall x :: x in Clusters.LockSet(y, h, c) <==> x.0 == c.db && x.1 in idx
  {
    var cmd := Clusters.Resolve(y, c);
    var idx, keys := LockedShards(h, cmd.verb, c.args), DeclaredKeys(Table(cmd.verb), c.args);
    forall x ensures x in Clusters.LockSet(y, h, c) <==> x.0 == c.db && x.1 in idx {
      if Table(cmd.verb).wholeDB {
        assert x.1 < h.shards ==> idx[x.1] == x.1;
      } else {
        assert x.0 == c.db && x.1 in idx ==> RoutedTo(h.hash, h.shards, keys, x.1);
      }
    }
  }

  // The fast path of execute locks the one shard of its key.
  lemma SingleKeyLocks(h: Clusters.Seed, verb: Names.Verb, args: seq<Bytes>)
    requires Table(verb).Accepts(|args|) && Table(verb).SingleKey()
    ensures LockedShards(h, verb, args) == [Clusters.Index(h, args[1])]
  {
    StridedByOne(args, 1, 1);
    assert DeclaredKeys(Table(verb), args) == [args[1]];
    AscendingUnique(LockedShards(h, verb, args), [Clusters.Index(h, args[1])]);
  }

  // Each thread of the server, with the list of work it does.
  function Threads(y: Clusters.Layout, h: Clusters.Seed, work: seq<seq<Work>>): (r: seq<seq<Job>>)
    ensures |r| == |work|
    ensures forall i :: 0 <= i < |work| ==> |r[i]| == |work[i]|
    ensures forall i, k :: 0 <= i < |work| && 0 <= k < |work[i]| ==> r[i][k] == JobOf(y, h, work[i][k])
  {
    seq(|work|, i requires 0 <= i < |work| =>
      seq(|work[i]|, k requires 0 <= k < |work[i]| => JobOf(y, h, work[i][k])))
  }

  lemma ThreadsProper(y: Clusters.Layout, h: Clusters.Seed, work: seq<seq<Work>>)
    ensures AllProper(Threads(y, h, work), Mutex(y, h))
  {
    var jobs := Threads(y, h, work);
    forall i, k | 0 <= i < |jobs| && 0 <= k < |jobs[i]| ensures Proper(jobs[i][k], Mutex(y, h)) {
      WorkIsProper(y, h, work[i][k]);
    }
  }

  // Whatever requests arrive, with whatever keys, on however many connections, and however
  // they interleave with expiry passes, compactions and flushes, the server never deadlocks.
  lemma ServerDeadlockFree(y: Clusters.Layout, h: Clusters.Seed, work: seq<seq<Work>>, turns: seq<nat>, s: State)
    requires Reaches(Programs(Threads(y, h, work), Mutex(y, h)), turns, s)
    requires exists u :: 0 <= u < |s.threads| && s.threads[u].Unfinished()
    ensures exists t :: CanStep(s, t)
  {
    var jobs, mutex := Threads(y, h, work), Mutex(y, h);
    ThreadsProper(y, h, work);
    var programs := Programs(jobs, mutex);
    forall i | 0 <= i < |programs| ensures Disciplined(programs[i]) {
      JobsDisciplined(jobs[i], mutex);
    }
    DeadlockFree(programs, turns, s);
  }
}
