// Threads taking the server's locks. Locks are ranked by database, then shard, with the
// store's mutex above them all. Shard locks are read-write locks that prefer writers: once
// a writer has announced itself, new readers wait behind it.
module Locks {
  import opened Options

  datatype Op =
    | Acquire(lock: nat, write: bool)
    | Release(lock: nat, write: bool)
    | Work

  function Effect(h: map<nat, bool>, op: Op): (r: map<nat, bool>) {
    match op
    case Acquire(l, w) => h[l := w]
    case Release(l, _) => h - {l}
    case Work => h
  }

  // The locks held, and whether exclusively, after a stretch of program begun holding h.
  function After(h: map<nat, bool>, ops: seq<Op>): (r: map<nat, bool>) {
    if ops == [] then h
    else
      var k := |ops| - 1;
      Effect(After(h, ops[..k]), ops[k])
  }

  function Held(ops: seq<Op>): (h: map<nat, bool>) {
    After(map[], ops)
  }

  // A thread takes only locks above every lock it holds, and releases only what it holds.
  predicate Allowed(h: map<nat, bool>, op: Op) {
    match op
    case Acquire(l, _) => forall m :: m in h ==> m < l
    case Release(l, w) => l in h && h[l] == w
    case Work => true
  }

  ghost predicate Runs(h: map<nat, bool>, ops: seq<Op>) {
    forall i :: 0 <= i < |ops| ==> Allowed(After(h, ops[..i]), ops[i])
  }

  ghost predicate Disciplined(ops: seq<Op>) {
    Runs(map[], ops) && Held(ops) == map[]
  }

  datatype Thread = Thread(ops: seq<Op>, pc: nat) {
    predicate Valid() {
      pc <= |ops|
    }

    predicate Unfinished() {
      pc < |ops|
    }

    function Holding(): (h: map<nat, bool>)
      requires Valid()
    {
      Held(ops[..pc])
    }

    function Next(): (op: Op)
      requires Unfinished()
    {
      ops[pc]
    }
  }

  // A read-write lock: who has it exclusively, who has announced, who shares it.
  datatype RW = RW(writer: Option<nat>, pending: Option<nat>, readers: set<nat>)

  const FREE := RW(None, None, {})

  datatype State = State(threads: seq<Thread>, locks: map<nat, RW>) {
    function Lock(l: nat): (r: RW) {
      if l in locks then locks[l] else FREE
    }
  }

  // Whether thread t can take a step.
  predicate Enabled(s: State, t: nat)
    requires t < |s.threads| && s.threads[t].Unfinished()
  {
    match s.threads[t].Next()
    case Acquire(l, w) =>
      var rw := s.Lock(l);
      if !w then rw.writer.None? && rw.pending.None?
      else if rw.pending == Some(t) then rw.readers == {}
      else rw.writer.None? && rw.pending.None?
    case Release(_, _) => true
    case Work => true
  }

  function Advance(s: State, t: nat): (r: seq<Thread>)
    requires t < |s.threads|
    ensures |r| == |s.threads|
  {
    s.threads[t := s.threads[t].(pc := s.threads[t].pc + 1)]
  }

  function Step(s: State, t: nat): (r: State)
    requires t < |s.threads| && s.threads[t].Unfinished()
  {
    match s.threads[t].Next()
    case Acquire(l, w) =>
      var rw := s.Lock(l);
      if !w then State(Advance(s, t), s.locks[l := rw.(readers := rw.readers + {t})])
      else if rw.pending == Some(t) then State(Advance(s, t), s.locks[l := rw.(writer := Some(t), pending := None)])
      else s.(locks := s.locks[l := rw.(pending := Some(t))])
    case Release(l, w) =>
      var rw := s.Lock(l);
      State(Advance(s, t), s.locks[l := if w then rw.(writer := None) else rw.(readers := rw.readers - {t})])
    case Work => s.(threads := Advance(s, t))
  }

  ghost predicate HoldsLock(s: State, t: nat, l: nat, w: bool) {
    && t < |s.threads| && s.threads[t].Valid()
    && l in s.threads[t].Holding() && s.threads[t].Holding()[l] == w
  }

  // Each lock's bookkeeping matches the threads, and a writer excludes everyone else.
  ghost predicate Consistent(s: State, l: nat) {
    var rw := s.Lock(l);
    && (forall t: nat :: rw.writer == Some(t) <==> HoldsLock(s, t, l, true))
    && (forall t: nat :: t in rw.readers <==> HoldsLock(s, t, l, false))
    && (rw.writer.Some? ==> rw.readers == {} && rw.pending.None?)
    && (rw.pending.Some? ==>
          var t := rw.pending.value;
          t < |s.threads| && s.threads[t].Unfinished() && s.threads[t].Next() == Acquire(l, true))
  }

  ghost predicate Inv(s: State) {
    && (forall t :: 0 <= t < |s.threads| ==> s.threads[t].Valid() && Disciplined(s.threads[t].ops))
    && (forall l :: Consistent(s, l))
  }

  lemma HoldingAfter(th: Thread)
    requires th.Valid() && th.Unfinished()
    ensures th.(pc := th.pc + 1).Holding() == Effect(th.Holding(), th.Next())
  {
    var more := th.ops[..th.pc + 1];
    assert more[..|more| - 1] == th.ops[..th.pc];
  }

  // A thread's own step changes what that thread holds and nothing else.
  lemma OthersHold(s: State, t: nat, u: nat, l: nat, w: bool)
    requires t < |s.threads| && s.threads[t].Unfinished() && u != t
    ensures HoldsLock(Step(s, t), u, l, w) <==> HoldsLock(s, u, l, w)
  {
  }

  lemma OwnHold(s: State, t: nat, l: nat, w: bool)
    requires Inv(s) && t < |s.threads| && s.threads[t].Unfinished() && Step(s, t).threads != s.threads
    ensures HoldsLock(Step(s, t), t, l, w) <==>
      match s.threads[t].Next()
      case Acquire(m, v) => if m == l then v == w else HoldsLock(s, t, l, w)
      case Release(m, _) => m != l && HoldsLock(s, t, l, w)
      case Work => HoldsLock(s, t, l, w)
  {
    HoldingAfter(s.threads[t]);
  }

  lemma OtherLocksKeep(s: State, t: nat, l: nat)
    requires Inv(s) && t < |s.threads| && s.threads[t].Unfinished()
    requires var op := s.threads[t].Next(); op.Work? || op.lock != l
    ensures Consistent(Step(s, t), l)
  {
    var r := Step(s, t);
    assert Consistent(s, l) && r.Lock(l) == s.Lock(l);
    forall u: nat, w ensures HoldsLock(r, u, l, w) <==> HoldsLock(s, u, l, w) {
      if u != t {
        OthersHold(s, t, u, l, w);
      } else if r.threads != s.threads {
        OwnHold(s, t, l, w);
      }
    }
  }

  lemma AcquireKeeps(s: State, t: nat)
    requires Inv(s) && t < |s.threads| && s.threads[t].Unfinished() && Enabled(s, t)
    requires s.threads[t].Next().Acquire?
    ensures Consistent(Step(s, t), s.threads[t].Next().lock)
  {
    var r, l := Step(s, t), s.threads[t].Next().lock;
    assert Consistent(s, l);
    NotHeldYet(s, t);
    forall u: nat, w | u != t ensures HoldsLock(r, u, l, w) <==> HoldsLock(s, u, l, w) {
      OthersHold(s, t, u, l, w);
    }
    if r.threads != s.threads {
      OwnHold(s, t, l, true);
      OwnHold(s, t, l, false);
    }
  }

  lemma NotHeldYet(s: State, t: nat)
    requires Inv(s) && t < |s.threads| && s.threads[t].Unfinished() && s.threads[t].Next().Acquire?
    ensures s.threads[t].Next().lock !in s.threads[t].Holding()
  {
    var th := s.threads[t];
    assert Allowed(Held(th.ops[..th.pc]), th.ops[th.pc]);
  }

  lemma ReleaseKeeps(s: State, t: nat)
    requires Inv(s) && t < |s.threads| && s.threads[t].Unfinished()
    requires s.threads[t].Next().Release?
    ensures Consistent(Step(s, t), s.threads[t].Next().lock)
  {
    var r, th := Step(s, t), s.threads[t];
    var l := th.Next().lock;
    assert Consistent(s, l);
    assert Allowed(Held(th.ops[..th.pc]), th.ops[th.pc]);
    assert HoldsLock(s, t, l, th.Next().write);
    forall u: nat, w | u != t ensures HoldsLock(r, u, l, w) <==> HoldsLock(s, u, l, w) {
      OthersHold(s, t, u, l, w);
    }
    OwnHold(s, t, l, true);
    OwnHold(s, t, l, false);
  }

  lemma StepKeeps(s: State, t: nat)
    requires Inv(s) && t < |s.threads| && s.threads[t].Unfinished() && Enabled(s, t)
    ensures Inv(Step(s, t))
  {
    var op := s.threads[t].Next();
    forall l: nat ensures Consistent(Step(s, t), l) {
      if op.Work? || op.lock != l {
        OtherLocksKeep(s, t, l);
      } else if op.Acquire? {
        AcquireKeeps(s, t);
      } else {
        ReleaseKeeps(s, t);
      }
    }
  }

  // All threads at the start of their programs, all locks free.
  function Start(programs: seq<seq<Op>>): (s: State) {
    State(seq(|programs|, i requires 0 <= i < |programs| => Thread(programs[i], 0)), map[])
  }

  // Running the threads in the given order of turns, each turn one the thread could take.
  ghost predicate Reaches(programs: seq<seq<Op>>, turns: seq<nat>, s: State)
    decreases |turns|
  {
    if turns == [] then s == Start(programs)
    else
      var k := |turns| - 1;
      exists prev :: Reaches(programs, turns[..k], prev) && CanStep(prev, turns[k]) && s == Step(prev, turns[k])
  }

  predicate CanStep(s: State, t: nat) {
    t < |s.threads| && s.threads[t].Unfinished() && Enabled(s, t)
  }

  lemma {:induction false} ReachableInv(programs: seq<seq<Op>>, turns: seq<nat>, s: State)
    requires (forall i :: 0 <= i < |programs| ==> Disciplined(programs[i])) && Reaches(programs, turns, s)
    ensures Inv(s)
    decreases |turns|
  {
    if turns == [] {
      forall l: nat ensures Consistent(s, l) {}
    } else {
      var k := |turns| - 1;
      var prev :| Reaches(programs, turns[..k], prev) && CanStep(prev, turns[k]) && s == Step(prev, turns[k]);
      ReachableInv(programs, turns[..k], prev);
      StepKeeps(prev, turns[k]);
    }
  }

  // Mutual exclusion: in every reachable state, a thread that holds a lock exclusively is
  // the only one holding it.
  lemma MutualExclusion(programs: seq<seq<Op>>, turns: seq<nat>, s: State, t: nat, u: nat, l: nat, w: bool)
    requires (forall i :: 0 <= i < |programs| ==> Disciplined(programs[i])) && Reaches(programs, turns, s)
    requires HoldsLock(s, t, l, true) && HoldsLock(s, u, l, w)
    ensures t == u
  {
    ReachableInv(programs, turns, s);
    assert Consistent(s, l);
  }

  // Once a writer has announced itself, nobody else gets the lock before it has.
  lemma NoOvertaking(programs: seq<seq<Op>>, turns: seq<nat>, s: State, t: nat, u: nat, l: nat, w: bool)
    requires (forall i :: 0 <= i < |programs| ==> Disciplined(programs[i])) && Reaches(programs, turns, s)
    requires s.Lock(l).pending == Some(u) && t != u && CanStep(s, t) && HoldsLock(Step(s, t), t, l, w)
    ensures HoldsLock(s, t, l, w)
  {
    ReachableInv(programs, turns, s);
    if Step(s, t).threads != s.threads {
      OwnHold(s, t, l, w);
    }
  }

  ghost predicate Wants(s: State, t: nat, l: nat) {
    t < |s.threads| && s.threads[t].Unfinished() && s.threads[t].Next().Acquire? && s.threads[t].Next().lock == l
  }

  // The highest lock that any unfinished thread is about to take.
  lemma {:induction false} HighestWanted(s: State, n: nat) returns (t: nat)
    requires 0 < n <= |s.threads|
    requires exists u :: 0 <= u < n && s.threads[u].Unfinished()
    requires forall u :: 0 <= u < n && s.threads[u].Unfinished() ==> s.threads[u].Next().Acquire?
    ensures t < n && s.threads[t].Unfinished() && s.threads[t].Next().Acquire?
    ensures forall u: nat, m: nat :: u < n && Wants(s, u, m) ==> m <= s.threads[t].Next().lock
  {
    if n > 1 && exists u :: 0 <= u < n - 1 && s.threads[u].Unfinished() {
      t := HighestWanted(s, n - 1);
      var v := s.threads[n - 1];
      if v.Unfinished() && v.Next().lock > s.threads[t].Next().lock {
        t := n - 1;
      }
    } else {
      t := n - 1;
    }
  }

  // Nobody holds the highest wanted lock: its holder would want a higher one.
  lemma HighestIsFree(s: State, l: nat)
    requires Inv(s)
    requires forall u :: 0 <= u < |s.threads| && s.threads[u].Unfinished() ==> s.threads[u].Next().Acquire?
    requires forall u: nat, m: nat :: Wants(s, u, m) ==> m <= l
    ensures s.Lock(l).writer.None? && s.Lock(l).readers == {}
  {
    assert Consistent(s, l);
    forall u: nat, w ensures !HoldsLock(s, u, l, w) {
      if HoldsLock(s, u, l, w) {
        HolderWantsHigher(s, u, l);
      }
    }
    assert forall u: nat :: s.Lock(l).writer != Some(u) && u !in s.Lock(l).readers;
  }

  lemma HolderWantsHigher(s: State, u: nat, l: nat)
    requires Inv(s) && u < |s.threads| && l in s.threads[u].Holding()
    ensures s.threads[u].Unfinished()
    ensures s.threads[u].Next().Acquire? ==> s.threads[u].Next().lock > l && Wants(s, u, s.threads[u].Next().lock)
  {
    var th := s.threads[u];
    assert th.ops[..|th.ops|] == th.ops;
    if th.Unfinished() {
      assert Allowed(Held(th.ops[..th.pc]), th.ops[th.pc]);
    }
  }

  // Deadlock freedom: while any thread is unfinished, some thread can step.
  lemma Progress(s: State)
    requires Inv(s) && exists u :: 0 <= u < |s.threads| && s.threads[u].Unfinished()
    ensures exists t :: CanStep(s, t)
  {
    if u :| 0 <= u < |s.threads| && s.threads[u].Unfinished() && !s.threads[u].Next().Acquire? {
      assert CanStep(s, u);
    } else {
      var t := HighestWanted(s, |s.threads|);
      var l := s.threads[t].Next().lock;
      HighestIsFree(s, l);
      assert Consistent(s, l);
      if s.Lock(l).pending.Some? {
        assert CanStep(s, s.Lock(l).pending.value);
      } else {
        assert CanStep(s, t);
      }
    }
  }

  lemma DeadlockFree(programs: seq<seq<Op>>, turns: seq<nat>, s: State)
    requires (forall i :: 0 <= i < |programs| ==> Disciplined(programs[i])) && Reaches(programs, turns, s)
    requires exists u :: 0 <= u < |s.threads| && s.threads[u].Unfinished()
    ensures exists t :: CanStep(s, t)
  {
    ReachableInv(programs, turns, s);
    Progress(s);
  }

  // How far a thread has come: two per finished operation, one more for having announced.
  function Weight(s: State, t: nat): (n: nat)
    requires t < |s.threads|
  {
    var th := s.threads[t];
    2 * th.pc + if th.Unfinished() && th.Next().Acquire? && s.Lock(th.Next().lock).pending == Some(t) then 1 else 0
  }

  function Total(s: State, n: nat): (r: nat)
    requires n <= |s.threads|
  {
    if n == 0 then 0 else Total(s, n - 1) + Weight(s, n - 1)
  }

  lemma StepAdds(s: State, t: nat, u: nat)
    requires Inv(s) && CanStep(s, t) && u < |s.threads|
    ensures Weight(Step(s, t), u) >= Weight(s, u) + if u == t then 1 else 0
  {
    var op := s.threads[t].Next();
    if !op.Work? {
      assert Consistent(s, op.lock);
    }
    if u != t {
      assert Step(s, t).threads[u] == s.threads[u];
    }
  }

  lemma {:induction false} TotalMonotone(s: State, r: State, t: nat, n: nat)
    requires n <= |s.threads| == |r.threads|
    requires forall u: nat :: u < n ==> Weight(r, u) >= Weight(s, u) + if u == t then 1 else 0
    ensures Total(r, n) >= Total(s, n) + if t < n then 1 else 0
    decreases n
  {
    if n > 0 {
      TotalMonotone(s, r, t, n - 1);
    }
  }

  lemma TotalGrows(s: State, t: nat)
    requires Inv(s) && CanStep(s, t)
    ensures Total(Step(s, t), |s.threads|) > Total(s, |s.threads|)
  {
    var r := Step(s, t);
    forall u: nat | u < |s.threads| ensures Weight(r, u) >= Weight(s, u) + if u == t then 1 else 0 {
      StepAdds(s, t, u);
    }
    TotalMonotone(s, r, t, |s.threads|);
  }

  function Size(programs: seq<seq<Op>>): (n: nat) {
    if programs == [] then 0 else Size(programs[..|programs| - 1]) + |programs[|programs| - 1]|
  }

  lemma {:induction false} TotalBounded(programs: seq<seq<Op>>, s: State, n: nat)
    requires n <= |s.threads| == |programs|
    requires forall i :: 0 <= i < n ==> s.threads[i].Valid() && s.threads[i].ops == programs[i]
    ensures Total(s, n) <= 2 * Size(programs[..n])
    decreases n
  {
    if n > 0 {
      TotalBounded(programs, s, n - 1);
      assert programs[..n][..n - 1] == programs[..n - 1];
    }
  }

  lemma {:induction false} TurnsCounted(programs: seq<seq<Op>>, turns: seq<nat>, s: State)
    requires (forall i :: 0 <= i < |programs| ==> Disciplined(programs[i])) && Reaches(programs, turns, s)
    ensures |s.threads| == |programs| && |turns| <= Total(s, |s.threads|)
    ensures forall i :: 0 <= i < |programs| ==> s.threads[i].ops == programs[i]
    decreases |turns|
  {
    if turns != [] {
      var k := |turns| - 1;
      var prev :| Reaches(programs, turns[..k], prev) && CanStep(prev, turns[k]) && s == Step(prev, turns[k]);
      ReachableInv(programs, turns[..k], prev);
      TurnsCounted(programs, turns[..k], prev);
      TotalGrows(prev, turns[k]);
    }
  }

  // No run goes on for ever: with deadlock freedom, a server that keeps taking turns
  // finishes every thread.
  lemma RunsEnd(programs: seq<seq<Op>>, turns: seq<nat>, s: State)
    requires (forall i :: 0 <= i < |programs| ==> Disciplined(programs[i])) && Reaches(programs, turns, s)
    ensures |turns| <= 2 * Size(programs)
  {
    ReachableInv(programs, turns, s);
    TurnsCounted(programs, turns, s);
    TotalBounded(programs, s, |programs|);
    assert programs[..|programs|] == programs;
  }
}
