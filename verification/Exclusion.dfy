// What the locks are for: while a request runs and is logged, while an expiry pass sweeps a
// shard and while a compaction captures, no other thread is at work on the same shards.
module Exclusion {
  import opened Locks
  import opened LockPrograms
  import opened Verbs
  import Clusters

  // A stretch of a job between its last acquire and its first release: where its bracket
  // starts in the job's program, and the locks it holds.
  datatype Section = Section(offset: nat, locks: seq<nat>, write: bool, logs: bool)

  predicate HasSection(j: Job, i: nat) {
    match j
    case Command(_, _, _) => i == 0
    case ExpiryPass(ls) => i < |ls|
    case Compaction(_) => i == 0
    case StoreCall => false
  }

  function SectionOf(j: Job, i: nat): (r: Section)
    requires HasSection(j, i)
  {
    match j
    case Command(ls, write, logs) => Section(0, ls, write, logs)
    case ExpiryPass(ls) => Section(3 * i, [ls[i]], true, false)
    case Compaction(ls) => Section(3, ls, true, true)
  }

  function Locked(c: Section, mutex: nat): (r: seq<Op>) {
    Bracket(c.locks, c.write, Body(c.logs, mutex))
  }

  // The k-th job of a thread's list, and the section within it.
  datatype Place = Place(job: nat, section: nat)

  ghost predicate IsPlace(js: seq<Job>, p: Place) {
    p.job < |js| && HasSection(js[p.job], p.section)
  }

  ghost function At(js: seq<Job>, p: Place): (c: Section)
    requires IsPlace(js, p)
  {
    SectionOf(js[p.job], p.section)
  }

  // At step pc of its program, the thread holds the locks of that section.
  ghost predicate Inside(js: seq<Job>, p: Place, mutex: nat, pc: nat) {
    && IsPlace(js, p)
    && var c := At(js, p);
       var first := |Jobs(js[..p.job], mutex)| + c.offset + |c.locks|;
       first <= pc <= first + |Body(c.logs, mutex)|
  }

  // What a program does not touch stays held.
  ghost predicate Spares(ops: seq<Op>, l: nat) {
    forall i :: 0 <= i < |ops| ==> ops[i].Work? || ops[i].lock != l
  }

  lemma {:induction false} SparedStaysHeld(h: map<nat, bool>, ops: seq<Op>, l: nat)
    requires l in h && Spares(ops, l)
    ensures l in After(h, ops) && After(h, ops)[l] == h[l]
    decreases |ops|
  {
    if ops != [] {
      SparedStaysHeld(h, ops[..|ops| - 1], l);
    }
  }

  lemma {:induction false} BracketSpares(ls: seq<nat>, write: bool, inner: seq<Op>, l: nat)
    requires l !in ls && Spares(inner, l)
    ensures Spares(Bracket(ls, write, inner), l)
    decreases |ls|
  {
    if ls != [] {
      assert ls[0] in ls;
      BracketSpares(ls[1..], write, inner, l);
    }
  }

  lemma {:induction false} BracketLength(ls: seq<nat>, write: bool, inner: seq<Op>)
    ensures |Bracket(ls, write, inner)| == 2 * |ls| + |inner|
    decreases |ls|
  {
    if ls != [] {
      BracketLength(ls[1..], write, inner);
    }
  }

  lemma BracketHead(ls: seq<nat>, write: bool, inner: seq<Op>, m: nat)
    requires ls != [] && 0 < m <= |ls| + |inner|
    ensures m <= |Bracket(ls, write, inner)| && m - 1 <= |Bracket(ls[1..], write, inner)|
    ensures Bracket(ls, write, inner)[..m] == [Acquire(ls[0], write)] + Bracket(ls[1..], write, inner)[..m - 1]
  {
    BracketLength(ls[1..], write, inner);
  }

  // Between the last acquire and the first release, every lock is held.
  lemma {:induction false} BracketHolds(h: map<nat, bool>, ls: seq<nat>, write: bool, inner: seq<Op>, m: nat, l: nat)
    requires l in ls && |ls| <= m <= |ls| + |inner| && Spares(inner, l)
    ensures m <= |Bracket(ls, write, inner)|
    ensures var held := After(h, Bracket(ls, write, inner)[..m]); l in held && held[l] == write
    decreases |ls|
  {
    BracketHead(ls, write, inner, m);
    var rest, h' := Bracket(ls[1..], write, inner)[..m - 1], h[ls[0] := write];
    AfterFirst(h, Acquire(ls[0], write), rest);
    if l in ls[1..] {
      BracketHolds(h', ls[1..], write, inner, m - 1, l);
    } else {
      BracketSpares(ls[1..], write, inner, l);
      SparedStaysHeld(h', rest, l);
    }
  }

  lemma AfterFirst(h: map<nat, bool>, op: Op, ops: seq<Op>)
    ensures After(h, [op] + ops) == After(Effect(h, op), ops)
  {
    AfterConcat(h, [op], ops);
    assert [op][..0] == [];
  }

  lemma BodySpares(logs: bool, mutex: nat, l: nat)
    requires l != mutex
    ensures Spares(Body(logs, mutex), l)
  {
  }

  lemma Reassociate(o: seq<Op>, a: seq<Op>, b: seq<Op>, c: seq<Op>)
    ensures o + (a + b + c) == (o + a) + b + c && a + (b + c) == a + b + c
  {
  }

  // Where a section lies in its job's program.
  lemma {:induction false} PassSplit(ls: seq<nat>, i: nat, mutex: nat) returns (before: seq<Op>, after: seq<Op>)
    requires i < |ls| && forall k :: 0 <= k < |ls| ==> ls[k] < mutex
    ensures |before| == 3 * i && Balanced(map[], before)
    ensures OneAtATime(ls, mutex) == before + Bracket([ls[i]], true, Body(false, mutex)) + after
    decreases |ls|
  {
    var b := Bracket([ls[0]], true, Body(false, mutex));
    if i == 0 {
      before, after := [], OneAtATime(ls[1..], mutex);
      assert OneAtATime(ls, mutex) == [] + b + after;
    } else {
      before, after := PassSplit(ls[1..], i - 1, mutex);
      BracketBalanced(map[], [ls[0]], true, false, mutex);
      BalancedConcat(map[], b, before);
      BracketLength([ls[0]], true, Body(false, mutex));
      Reassociate(b, before, Bracket([ls[i]], true, Body(false, mutex)), after);
      before := b + before;
    }
  }

  lemma SectionSplit(j: Job, i: nat, mutex: nat) returns (before: seq<Op>, after: seq<Op>)
    requires Proper(j, mutex) && HasSection(j, i)
    ensures var c := SectionOf(j, i); |before| == c.offset && Program(j, mutex) == before + Locked(c, mutex) + after
    ensures Balanced(map[], before)
  {
    match j
    case Command(ls, write, logs) =>
      before, after := [], [];
      assert Program(j, mutex) == [] + Program(j, mutex) + [];
    case ExpiryPass(ls) =>
      before, after := PassSplit(ls, i, mutex);
    case Compaction(ls) =>
      GuardedBalanced(map[], mutex);
      before, after := Guarded(mutex), Guarded(mutex);
      Reassociate([], before, Bracket(ls, true, Body(true, mutex)), after);
  }

  lemma {:induction false} JobsSplit(js: seq<Job>, k: nat, mutex: nat)
    requires k < |js|
    ensures Jobs(js, mutex) == Jobs(js[..k], mutex) + Program(js[k], mutex) + Jobs(js[k + 1..], mutex)
    decreases k
  {
    if k == 0 {
      assert Jobs(js[..0], mutex) == [];
    } else {
      JobsSplit(js[1..], k - 1, mutex);
      assert js[1..][..k - 1] == js[..k][1..] && js[1..][k..] == js[k + 1..];
      Reassociate(Program(js[0], mutex), Jobs(js[..k][1..], mutex), Program(js[k], mutex), Jobs(js[k + 1..], mutex));
    }
  }

  // A cut inside the middle of three.
  lemma CutMiddle(all: seq<Op>, a: seq<Op>, mid: seq<Op>, d: seq<Op>, x: seq<Op>, b: seq<Op>, y: seq<Op>, m: nat)
    requires all == a + mid + d && mid == x + b + y && |a| + |x| <= m <= |a| + |x| + |b|
    ensures m <= |all| && all[..m] == (a + x) + b[..m - |a + x|]
  {
  }

  // What a thread has done when it is inside: whole brackets, then a part of this one.
  lemma DoneSoFar(js: seq<Job>, p: Place, mutex: nat, pc: nat) returns (before: seq<Op>)
    requires (forall i :: 0 <= i < |js| ==> Proper(js[i], mutex)) && Inside(js, p, mutex, pc)
    ensures |before| == |Jobs(js[..p.job], mutex)| + At(js, p).offset && Balanced(map[], before)
    ensures
      var b := Locked(At(js, p), mutex);
      |before| <= pc <= |before| + |b| && pc <= |Jobs(js, mutex)|
      && Jobs(js, mutex)[..pc] == before + b[..pc - |before|]
  {
    var c, a, d := At(js, p), Jobs(js[..p.job], mutex), Jobs(js[p.job + 1..], mutex);
    var x, y := SectionSplit(js[p.job], p.section, mutex);
    before := a + x;
    JobsSplit(js, p.job, mutex);
    BracketLength(c.locks, c.write, Body(c.logs, mutex));
    CutMiddle(Jobs(js, mutex), a, Program(js[p.job], mutex), d, x, Locked(c, mutex), y, pc);
    JobsDisciplined(js[..p.job], mutex);
    BalancedConcat(map[], a, x);
  }

  // Inside a section, the thread holds all the section's locks, in the section's mode.
  lemma InsideHolds(js: seq<Job>, p: Place, mutex: nat, pc: nat, l: nat)
    requires (forall i :: 0 <= i < |js| ==> Proper(js[i], mutex)) && Inside(js, p, mutex, pc) && l in At(js, p).locks
    ensures pc <= |Jobs(js, mutex)|
    ensures var held := Held(Jobs(js, mutex)[..pc]); l in held && held[l] == At(js, p).write
  {
    var before := DoneSoFar(js, p, mutex, pc);
    var m := pc - |before|;
    SectionHolds(js[p.job], p.section, mutex, m, l);
    HeldAfterBalanced(before, Locked(At(js, p), mutex)[..m], Jobs(js, mutex)[..pc]);
  }

  lemma HeldAfterBalanced(before: seq<Op>, ops: seq<Op>, all: seq<Op>)
    requires Balanced(map[], before) && all == before + ops
    ensures Held(all) == Held(ops)
  {
    AfterConcat(map[], before, ops);
  }

  lemma SectionHolds(j: Job, i: nat, mutex: nat, m: nat, l: nat)
    requires Proper(j, mutex) && HasSection(j, i)
    requires var c := SectionOf(j, i); l in c.locks && |c.locks| <= m <= |c.locks| + |Body(c.logs, mutex)|
    ensures
      var c := SectionOf(j, i);
      m <= |Locked(c, mutex)| && var held := Held(Locked(c, mutex)[..m]); l in held && held[l] == c.write
  {
    var c := SectionOf(j, i);
    BodySpares(c.logs, mutex, l);
    BracketHolds(map[], c.locks, c.write, Body(c.logs, mutex), m, l);
  }

  lemma {:induction false} ProgramsStay(programs: seq<seq<Op>>, turns: seq<nat>, s: State)
    requires Reaches(programs, turns, s)
    ensures |s.threads| == |programs| && forall t :: 0 <= t < |programs| ==> s.threads[t].ops == programs[t]
    decreases |turns|
  {
    if turns != [] {
      var k := |turns| - 1;
      var prev :| Reaches(programs, turns[..k], prev) && CanStep(prev, turns[k]) && s == Step(prev, turns[k]);
      ProgramsStay(programs, turns[..k], prev);
      StepKeepsPrograms(prev, turns[k]);
    }
  }

  lemma StepKeepsPrograms(s: State, t: nat)
    requires t < |s.threads| && s.threads[t].Unfinished()
    ensures |Step(s, t).threads| == |s.threads|
    ensures forall u :: 0 <= u < |s.threads| ==> Step(s, t).threads[u].ops == s.threads[u].ops
  {
  }

  // In every reachable state, two threads inside sections of which one is exclusive hold
  // no lock in common.
  lemma SectionsApart(jobs: seq<seq<Job>>, mutex: nat, turns: seq<nat>, s: State, t: nat, p: Place, u: nat, q: Place)
    requires AllProper(jobs, mutex) && Reaches(Programs(jobs, mutex), turns, s)
    requires t < |jobs| == |s.threads| && u < |jobs| && t != u
    requires Inside(jobs[t], p, mutex, s.threads[t].pc) && Inside(jobs[u], q, mutex, s.threads[u].pc)
    requires At(jobs[t], p).write || At(jobs[u], q).write
    ensures forall l :: l in At(jobs[t], p).locks ==> l !in At(jobs[u], q).locks
  {
    var programs := Programs(jobs, mutex);
    ProgramsStay(programs, turns, s);
    forall i | 0 <= i < |programs| ensures Disciplined(programs[i]) {
      JobsDisciplined(jobs[i], mutex);
    }
    forall l | l in At(jobs[t], p).locks && l in At(jobs[u], q).locks ensures false {
      InsideHolds(jobs[t], p, mutex, s.threads[t].pc, l);
      InsideHolds(jobs[u], q, mutex, s.threads[u].pc, l);
      if At(jobs[t], p).write {
        MutualExclusion(programs, turns, s, t, u, l, At(jobs[u], q).write);
      } else {
        MutualExclusion(programs, turns, s, u, t, l, At(jobs[t], p).write);
      }
    }
  }

  // The state of the whole server's threads, and a thread at some piece of its work.
  ghost predicate Reached(y: Clusters.Layout, h: Clusters.Seed, work: seq<seq<Work>>, turns: seq<nat>, s: State) {
    Reaches(Programs(Threads(y, h, work), Mutex(y, h)), turns, s)
  }

  ghost predicate AtWork(y: Clusters.Layout, h: Clusters.Seed, work: seq<seq<Work>>, s: State, t: nat, p: Place) {
    && t < |work| && t < |s.threads|
    && Inside(Threads(y, h, work)[t], p, Mutex(y, h), s.threads[t].pc)
  }

  ghost function WorkAt(work: seq<seq<Work>>, t: nat, p: Place): (w: Work)
    requires t < |work| && p.job < |work[t]|
  {
    work[t][p.job]
  }

  lemma ThreadsApart(y: Clusters.Layout, h: Clusters.Seed, work: seq<seq<Work>>, turns: seq<nat>, s: State,
        t: nat, p: Place, u: nat, q: Place)
    requires Reached(y, h, work, turns, s) && t != u && AtWork(y, h, work, s, t, p) && AtWork(y, h, work, s, u, q)
    requires var jobs := Threads(y, h, work); At(jobs[t], p).write || At(jobs[u], q).write
    ensures var jobs := Threads(y, h, work); forall l :: l in At(jobs[t], p).locks ==> l !in At(jobs[u], q).locks
  {
    ThreadsProper(y, h, work);
    ProgramsStay(Programs(Threads(y, h, work), Mutex(y, h)), turns, s);
    SectionsApart(Threads(y, h, work), Mutex(y, h), turns, s, t, p, u, q);
  }

  lemma ShardIsLocked(y: Clusters.Layout, h: Clusters.Seed, w: Work, x: Clusters.Loc)
    requires w.Request? && x in Clusters.LockSet(y, h, w.command)
    ensures Rank(h.shards, x.0, x.1) in JobOf(y, h, w).locks
  {
    RequestLocks(y, h, w.command, w.succeeds, Rank(h.shards, x.0, x.1));
  }

  // Whether the command the request names does more than read.
  ghost predicate Writes(y: Clusters.Layout, w: Work) {
    w.Request? && Clusters.Resolve(y, w.command).Resolved? && !OnlyReads(Clusters.Resolve(y, w.command).verb)
  }

  // Such a request takes its locks exclusively, and logs when it succeeds.
  lemma RequestMode(y: Clusters.Layout, h: Clusters.Seed, w: Work)
    requires w.Request?
    ensures JobOf(y, h, w).Command? && (JobOf(y, h, w).write <==> Writes(y, w))
    ensures JobOf(y, h, w).logs <==> w.succeeds && Writes(y, w)
  {
    var cmd := Clusters.Resolve(y, w.command);
    if cmd.Resolved? {
      ReadersAre(cmd.verb);
    }
  }

  // Running and logging a command that writes excludes every other command on its shards.
  lemma RequestsApart(y: Clusters.Layout, h: Clusters.Seed, work: seq<seq<Work>>, turns: seq<nat>, s: State,
        t: nat, p: Place, u: nat, q: Place)
    requires Reached(y, h, work, turns, s) && t != u && AtWork(y, h, work, s, t, p) && AtWork(y, h, work, s, u, q)
    requires WorkAt(work, t, p).Request? && WorkAt(work, u, q).Request?
    requires Writes(y, WorkAt(work, t, p)) || Writes(y, WorkAt(work, u, q))
    ensures Clusters.LockSet(y, h, WorkAt(work, t, p).command) !! Clusters.LockSet(y, h, WorkAt(work, u, q).command)
  {
    var a, b := WorkAt(work, t, p), WorkAt(work, u, q);
    RequestMode(y, h, a);
    RequestMode(y, h, b);
    ThreadsApart(y, h, work, turns, s, t, p, u, q);
    forall x | x in Clusters.LockSet(y, h, a.command) && x in Clusters.LockSet(y, h, b.command) ensures false {
      ShardIsLocked(y, h, a, x);
      ShardIsLocked(y, h, b, x);
    }
  }

  lemma CompactionLocksIt(y: Clusters.Layout, h: Clusters.Seed, w: Work, x: Clusters.Loc)
    requires w.Request? && x in Clusters.LockSet(y, h, w.command)
    ensures Rank(h.shards, x.0, x.1) in JobOf(y, h, w).locks && Rank(h.shards, x.0, x.1) in JobOf(y, h, Compact).locks
  {
    var l := Rank(h.shards, x.0, x.1);
    ShardIsLocked(y, h, w, x);
    WorkIsProper(y, h, w);
    assert AllRanks(h.shards, y.dbs)[l] == l;
  }

  // Past its acquires, a bracket does what is inside it.
  lemma {:induction false} BracketInner(h: map<nat, bool>, ls: seq<nat>, write: bool, inner: seq<Op>, k: nat)
    returns (h': map<nat, bool>)
    requires k <= |inner|
    ensures |ls| + k <= |Bracket(ls, write, inner)|
    ensures After(h, Bracket(ls, write, inner)[..|ls| + k]) == After(h', inner[..k])
    decreases |ls|
  {
    if ls == [] {
      h' := h;
    } else {
      h' := BracketInner(h[ls[0] := write], ls[1..], write, inner, k);
      if |ls| + k > 0 {
        BracketHead(ls, write, inner, |ls| + k);
        AfterFirst(h, Acquire(ls[0], write), Bracket(ls[1..], write, inner)[..|ls| + k - 1]);
      }
    }
  }

  // The thread is writing its command to the log.
  ghost predicate Logging(js: seq<Job>, p: Place, mutex: nat, pc: nat) {
    && IsPlace(js, p) && At(js, p).logs
    && pc == |Jobs(js[..p.job], mutex)| + At(js, p).offset + |At(js, p).locks| + 2
  }

  // It then has the store's mutex.
  lemma LoggingHolds(js: seq<Job>, p: Place, mutex: nat, pc: nat)
    requires (forall i :: 0 <= i < |js| ==> Proper(js[i], mutex)) && Logging(js, p, mutex, pc)
    ensures pc < |Jobs(js, mutex)| && Jobs(js, mutex)[pc] == Op.Work
    ensures var held := Held(Jobs(js, mutex)[..pc]); mutex in held && held[mutex]
  {
    var before := DoneSoFar(js, p, mutex, pc + 1);
    var n := |At(js, p).locks| + 2;
    var b := LockedLogs(At(js, p), mutex);
    OneEarlier(Jobs(js, mutex), before, b, pc, n);
    HeldAfterBalanced(before, b[..n], Jobs(js, mutex)[..pc]);
  }

  // The op after the mutex is taken, in a section that logs.
  lemma LockedLogs(c: Section, mutex: nat) returns (b: seq<Op>)
    requires c.logs
    ensures b == Locked(c, mutex)
    ensures var n := |c.locks| + 2;
      n < |b| && b[n] == Op.Work && mutex in Held(b[..n]) && Held(b[..n])[mutex]
  {
    b := Locked(c, mutex);
    var inner := Body(true, mutex);
    var h' := BracketInner(map[], c.locks, c.write, inner, 2);
    BracketOp(c.locks, c.write, inner, 2);
    MutexTaken(h', mutex);
  }

  lemma OneEarlier(all: seq<Op>, before: seq<Op>, b: seq<Op>, pc: nat, n: nat)
    requires pc < |all| && n < |b| && pc == |before| + n && all[..pc + 1] == before + b[..n + 1]
    ensures all[pc] == b[n] && all[..pc] == before + b[..n]
  {
    assert all[..pc + 1][pc] == all[pc] && all[..pc + 1][..pc] == all[..pc];
    assert (before + b[..n + 1])[..pc] == before + b[..n];
  }

  lemma {:induction false} BracketOp(ls: seq<nat>, write: bool, inner: seq<Op>, k: nat)
    requires k < |inner|
    ensures |ls| + k < |Bracket(ls, write, inner)| && Bracket(ls, write, inner)[|ls| + k] == inner[k]
    decreases |ls|
  {
    BracketLength(ls, write, inner);
    if ls != [] {
      BracketOp(ls[1..], write, inner, k);
      BracketLength(ls[1..], write, inner);
    }
  }

  lemma MutexTaken(h: map<nat, bool>, mutex: nat)
    ensures var held := After(h, Body(true, mutex)[..2]); mutex in held && held[mutex]
  {
    var two := Body(true, mutex)[..2];
    assert two == [Op.Work, Acquire(mutex, true)];
    assert two[..1] == [Op.Work] && [Op.Work][..0] == [];
  }

  // No two threads ever write to the log at once.
  lemma LogsApart(y: Clusters.Layout, h: Clusters.Seed, work: seq<seq<Work>>, turns: seq<nat>, s: State,
        t: nat, p: Place, u: nat, q: Place)
    requires Reached(y, h, work, turns, s) && t < |work| && u < |work| && |s.threads| == |work|
    requires Logging(Threads(y, h, work)[t], p, Mutex(y, h), s.threads[t].pc)
    requires Logging(Threads(y, h, work)[u], q, Mutex(y, h), s.threads[u].pc)
    ensures t == u
  {
    var jobs, mutex := Threads(y, h, work), Mutex(y, h);
    var programs := Programs(jobs, mutex);
    ThreadsProper(y, h, work);
    ProgramsStay(programs, turns, s);
    LoggingHolds(jobs[t], p, mutex, s.threads[t].pc);
    LoggingHolds(jobs[u], q, mutex, s.threads[u].pc);
    forall i | 0 <= i < |programs| ensures Disciplined(programs[i]) {
      JobsDisciplined(jobs[i], mutex);
    }
    MutualExclusion(programs, turns, s, t, u, mutex, true);
  }

  // While a compaction captures and rotates, only requests that lock nothing are at work.
  lemma CaptureAlone(y: Clusters.Layout, h: Clusters.Seed, work: seq<seq<Work>>, turns: seq<nat>, s: State,
        t: nat, p: Place, u: nat, q: Place)
    requires Reached(y, h, work, turns, s) && t != u && AtWork(y, h, work, s, t, p) && AtWork(y, h, work, s, u, q)
    requires WorkAt(work, t, p).Compact? && WorkAt(work, u, q).Request?
    ensures Clusters.LockSet(y, h, WorkAt(work, u, q).command) == {}
  {
    var b := WorkAt(work, u, q);
    ThreadsApart(y, h, work, turns, s, t, p, u, q);
    forall x | x in Clusters.LockSet(y, h, b.command) ensures false {
      CompactionLocksIt(y, h, b, x);
    }
  }

  // While an expiry pass sweeps a shard, no request at work has that shard.
  lemma SweepAlone(y: Clusters.Layout, h: Clusters.Seed, work: seq<seq<Work>>, turns: seq<nat>, s: State,
        t: nat, p: Place, u: nat, q: Place, x: Clusters.Loc)
    requires Reached(y, h, work, turns, s) && t != u && AtWork(y, h, work, s, t, p) && AtWork(y, h, work, s, u, q)
    requires WorkAt(work, t, p).Expiry? && WorkAt(work, u, q).Request? && p.section == Rank(h.shards, x.0, x.1)
    ensures x !in Clusters.LockSet(y, h, WorkAt(work, u, q).command)
  {
    var jobs, b := Threads(y, h, work), WorkAt(work, u, q);
    ThreadsApart(y, h, work, turns, s, t, p, u, q);
    assert At(jobs[t], p).locks[0] == p.section;
    if x in Clusters.LockSet(y, h, b.command) {
      ShardIsLocked(y, h, b, x);
    }
  }
}
