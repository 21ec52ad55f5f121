// Commands run on shards and are logged before their locks are released
// (internal/server/conn.go). This module says what a log order means: the logged commands,
// each at the instant it ran, folded one after another, against shards that several threads
// change at once while the clock moves on.
module Serial {
  import opened AppendLog

  type Instant = int

  type Shards<Loc, Cell> = map<Loc, Cell>

  // What commands do to the shards. `locks` is what the executor holds while a command
  // runs and is logged; `same` relates shard contents no reader can tell apart from an
  // instant on.
  datatype Semantics<!Loc(==), !Cell> = Semantics(
    locs: set<Loc>,
    step: (Instant, Shards<Loc, Cell>, Command) -> Shards<Loc, Cell>,
    locks: Command -> set<Loc>,
    same: (Instant, Cell, Cell) -> bool)
  {
    ghost predicate IsState(s: Shards<Loc, Cell>) {
      s.Keys == locs
    }

    // Indistinguishable on one shard.
    ghost predicate SameAt(t: Instant, s: Shards<Loc, Cell>, r: Shards<Loc, Cell>, l: Loc) {
      l in s && l in r && same(t, s[l], r[l])
    }

    ghost predicate Agree(t: Instant, s: Shards<Loc, Cell>, r: Shards<Loc, Cell>, on: set<Loc>) {
      forall l :: l in on && l in locs ==> SameAt(t, s, r, l)
    }

    ghost predicate Equal(t: Instant, s: Shards<Loc, Cell>, r: Shards<Loc, Cell>) {
      IsState(s) && IsState(r) && Agree(t, s, r, locs)
    }
  }

  // `same` is an equivalence at every instant, and what is the same stays the same.
  ghost predicate Equivalence<Loc, Cell(!new)>(sem: Semantics<Loc, Cell>) {
    && (forall t, a :: sem.same(t, a, a))
    && (forall t, a, b :: sem.same(t, a, b) ==> sem.same(t, b, a))
    && (forall t, a, b, c :: sem.same(t, a, b) && sem.same(t, b, c) ==> sem.same(t, a, c))
    && (forall t, u, a, b :: t <= u && sem.same(t, a, b) ==> sem.same(u, a, b))
  }

  // A command changes only the shards it locked.
  ghost predicate Confined<Loc(!new), Cell(!new)>(sem: Semantics<Loc, Cell>) {
    forall t, s, c :: sem.IsState(s) ==> Within(sem, s, sem.step(t, s, c), sem.locks(c))
  }

  ghost predicate Within<Loc(!new), Cell(!new)>(sem: Semantics<Loc, Cell>, s: Shards<Loc, Cell>,
        r: Shards<Loc, Cell>, on: set<Loc>)
    requires sem.IsState(s)
  {
    sem.IsState(r) && forall l :: l in sem.locs && l !in on ==> r[l] == s[l]
  }

  // What it leaves there depends only on what it found there.
  ghost predicate Local<Loc(!new), Cell(!new)>(sem: Semantics<Loc, Cell>) {
    forall t, s, r, c :: sem.IsState(s) && sem.IsState(r) && sem.Agree(t, s, r, sem.locks(c)) ==>
      sem.Agree(t, sem.step(t, s, c), sem.step(t, r, c), sem.locks(c))
  }

  ghost predicate Sound<Loc(!new), Cell(!new)>(sem: Semantics<Loc, Cell>) {
    Equivalence(sem) && Confined(sem) && Local(sem)
  }

  // A command as it ran, with the clock readings at its run and at its logging.
  datatype Item = Item(at: Instant, logged: Instant, command: Record)

  // The state after running the commands one at a time, each at its own instant.
  ghost function Fold<Loc, Cell>(sem: Semantics<Loc, Cell>, s: Shards<Loc, Cell>,
        items: seq<Item>): (r: Shards<Loc, Cell>) {
    if items == [] then s
    else
      var k := |items| - 1;
      sem.step(items[k].at, Fold(sem, s, items[..k]), items[k].command)
  }

  lemma {:induction false} FoldIsState<Loc(!new), Cell(!new)>(sem: Semantics<Loc, Cell>,
        s: Shards<Loc, Cell>, items: seq<Item>)
    requires Confined(sem) && sem.IsState(s)
    ensures sem.IsState(Fold(sem, s, items))
    decreases |items|
  {
    if items != [] {
      var k := |items| - 1;
      FoldIsState(sem, s, items[..k]);
      var before := Fold(sem, s, items[..k]);
      assert Within(sem, before, sem.step(items[k].at, before, items[k].command), sem.locks(items[k].command));
    }
  }

  lemma FoldAppend<Loc, Cell>(sem: Semantics<Loc, Cell>, s: Shards<Loc, Cell>, items: seq<Item>, i: Item)
    ensures Fold(sem, s, items + [i]) == sem.step(i.at, Fold(sem, s, items), i.command)
  {
    assert (items + [i])[..|items|] == items;
  }

  // A command that locks nothing changes nothing.
  lemma PlainStep<Loc(!new), Cell(!new)>(sem: Semantics<Loc, Cell>, t: Instant, s: Shards<Loc, Cell>, c: Command)
    requires Confined(sem) && sem.IsState(s) && sem.locks(c) == {}
    ensures sem.step(t, s, c) == s
  {
    var r := sem.step(t, s, c);
    assert Within(sem, s, r, sem.locks(c));
    assert forall l :: l in s ==> r[l] == s[l];
  }

  // A command that has run but is not logged yet.
  datatype Ran = Ran(at: Instant, command: Record)

  type InFlight = map<nat, Ran>

  ghost predicate Exclusive<Loc, Cell>(sem: Semantics<Loc, Cell>, inflight: InFlight) {
    forall t, u :: t in inflight && u in inflight && t != u ==>
      sem.locks(inflight[t].command) !! sem.locks(inflight[u].command)
  }

  ghost predicate Free<Loc, Cell>(sem: Semantics<Loc, Cell>, inflight: InFlight, l: Loc) {
    forall t :: t in inflight ==> l !in sem.locks(inflight[t].command)
  }

  // The shards a command holds are, as far as can be seen now, one command ahead of the log.
  ghost predicate Ahead<Loc, Cell>(sem: Semantics<Loc, Cell>, now: Instant, live: Shards<Loc, Cell>,
        log: Shards<Loc, Cell>, r: Ran) {
    r.at <= now && sem.Agree(now, live, sem.step(r.at, log, r.command), sem.locks(r.command))
  }

  // The log order explains the live shards: every shard no thread is holding matches the
  // fold of the log, and a shard held between run and append is one command ahead.
  ghost predicate LogOrder<Loc, Cell>(sem: Semantics<Loc, Cell>, now: Instant, live: Shards<Loc, Cell>,
        inflight: InFlight, log: Shards<Loc, Cell>) {
    && sem.IsState(live) && sem.IsState(log) && Exclusive(sem, inflight)
    && (forall l :: l in sem.locs && Free(sem, inflight, l) ==> sem.SameAt(now, live, log, l))
    && (forall t :: t in inflight ==> Ahead(sem, now, live, log, inflight[t]))
  }

  lemma AgreeLater<Loc, Cell(!new)>(sem: Semantics<Loc, Cell>, t: Instant, u: Instant, s: Shards<Loc, Cell>,
        r: Shards<Loc, Cell>, on: set<Loc>)
    requires Equivalence(sem) && t <= u && sem.Agree(t, s, r, on)
    ensures sem.Agree(u, s, r, on)
  {
    forall l | l in on && l in sem.locs ensures sem.SameAt(u, s, r, l) {
      assert sem.SameAt(t, s, r, l);
    }
  }

  lemma AgreeTrans<Loc, Cell(!new)>(sem: Semantics<Loc, Cell>, t: Instant, a: Shards<Loc, Cell>, b: Shards<Loc, Cell>,
        c: Shards<Loc, Cell>, on: set<Loc>)
    requires Equivalence(sem) && sem.Agree(t, a, b, on) && sem.Agree(t, b, c, on)
    ensures sem.Agree(t, a, c, on)
  {
    forall l | l in on && l in sem.locs ensures sem.SameAt(t, a, c, l) {
      assert sem.SameAt(t, a, b, l) && sem.SameAt(t, b, c, l);
    }
  }

  // Time passing.
  lemma TickKeepsLogOrder<Loc(!new), Cell(!new)>(sem: Semantics<Loc, Cell>, now: Instant, later: Instant,
        live: Shards<Loc, Cell>, inflight: InFlight, log: Shards<Loc, Cell>)
    requires Equivalence(sem) && LogOrder(sem, now, live, inflight, log) && now <= later
    ensures LogOrder(sem, later, live, inflight, log)
  {
    forall l | l in sem.locs && Free(sem, inflight, l) ensures sem.SameAt(later, live, log, l) {
      assert sem.SameAt(now, live, log, l);
    }
    forall t | t in inflight ensures Ahead(sem, later, live, log, inflight[t]) {
      var r := inflight[t];
      assert Ahead(sem, now, live, log, r);
      AgreeLater(sem, now, later, live, sem.step(r.at, log, r.command), sem.locks(r.command));
    }
  }

  // Running a command, once its shards are held.
  lemma RunKeepsLogOrder<Loc(!new), Cell(!new)>(sem: Semantics<Loc, Cell>, now: Instant, live: Shards<Loc, Cell>,
        inflight: InFlight, log: Shards<Loc, Cell>, t: nat, c: Record)
    requires Sound(sem) && LogOrder(sem, now, live, inflight, log)
    requires t !in inflight && forall u :: u in inflight ==> sem.locks(inflight[u].command) !! sem.locks(c)
    ensures LogOrder(sem, now, sem.step(now, live, c), inflight[t := Ran(now, c)], log)
  {
    var live', flight' := sem.step(now, live, c), inflight[t := Ran(now, c)];
    assert Within(sem, live, live', sem.locks(c));
    RunAhead(sem, now, live, inflight, log, c);
    forall l | l in sem.locs && Free(sem, flight', l) ensures sem.SameAt(now, live', log, l) {
      FreeBefore(sem, inflight, t, Ran(now, c), l);
      assert sem.SameAt(now, live, log, l);
    }
    forall u | u in flight' ensures Ahead(sem, now, live', log, flight'[u]) {
      if u != t {
        RunElsewhere(sem, now, live, live', sem.locks(c), log, inflight[u]);
      }
    }
  }

  lemma RunAhead<Loc(!new), Cell(!new)>(sem: Semantics<Loc, Cell>, now: Instant, live: Shards<Loc, Cell>,
        inflight: InFlight, log: Shards<Loc, Cell>, c: Record)
    requires Sound(sem) && LogOrder(sem, now, live, inflight, log)
    requires forall u :: u in inflight ==> sem.locks(inflight[u].command) !! sem.locks(c)
    ensures Ahead(sem, now, sem.step(now, live, c), log, Ran(now, c))
  {
    forall l | l in sem.locks(c) && l in sem.locs ensures sem.SameAt(now, live, log, l) {
      assert Free(sem, inflight, l);
    }
    assert sem.Agree(now, live, log, sem.locks(c));
  }

  lemma FreeBefore<Loc, Cell>(sem: Semantics<Loc, Cell>, inflight: InFlight, t: nat, r: Ran, l: Loc)
    requires t !in inflight && Free(sem, inflight[t := r], l)
    ensures Free(sem, inflight, l) && l !in sem.locks(r.command)
  {
    var flight' := inflight[t := r];
    assert t in flight' && flight'[t] == r;
    forall u | u in inflight ensures l !in sem.locks(inflight[u].command) {
      assert u in flight' && flight'[u] == inflight[u];
    }
  }

  lemma RunElsewhere<Loc(!new), Cell(!new)>(sem: Semantics<Loc, Cell>, now: Instant, live: Shards<Loc, Cell>,
        live': Shards<Loc, Cell>, on: set<Loc>, log: Shards<Loc, Cell>, r: Ran)
    requires sem.IsState(live) && Within(sem, live, live', on) && on !! sem.locks(r.command)
    requires Ahead(sem, now, live, log, r)
    ensures Ahead(sem, now, live', log, r)
  {
    var other := sem.step(r.at, log, r.command);
    forall l | l in sem.locks(r.command) && l in sem.locs ensures sem.SameAt(now, live', other, l) {
      assert sem.SameAt(now, live, other, l) && live'[l] == live[l];
    }
  }

  // Logging it, with the locks still held.
  lemma AppendKeepsLogOrder<Loc(!new), Cell(!new)>(sem: Semantics<Loc, Cell>, now: Instant, live: Shards<Loc, Cell>,
        inflight: InFlight, log: Shards<Loc, Cell>, t: nat)
    requires Sound(sem) && LogOrder(sem, now, live, inflight, log) && t in inflight
    ensures LogOrder(sem, now, live, inflight - {t}, sem.step(inflight[t].at, log, inflight[t].command))
  {
    var r, flight' := inflight[t], inflight - {t};
    var log' := sem.step(r.at, log, r.command);
    assert Within(sem, log, log', sem.locks(r.command)) && Ahead(sem, now, live, log, r);
    forall l | l in sem.locs && Free(sem, flight', l) ensures sem.SameAt(now, live, log', l) {
      if l !in sem.locks(r.command) {
        FreeAfter(sem, inflight, t, l);
        assert sem.SameAt(now, live, log, l);
      }
    }
    forall u | u in flight' ensures Ahead(sem, now, live, log', flight'[u]) {
      assert Ahead(sem, now, live, log, inflight[u]);
      OthersUnaffected(sem, now, live, log, log', sem.locks(r.command), inflight[u]);
    }
  }

  lemma FreeAfter<Loc, Cell>(sem: Semantics<Loc, Cell>, inflight: InFlight, t: nat, l: Loc)
    requires t in inflight && Free(sem, inflight - {t}, l) && l !in sem.locks(inflight[t].command)
    ensures Free(sem, inflight, l)
  {
    forall u | u in inflight ensures l !in sem.locks(inflight[u].command) {
      if u != t {
        assert u in inflight - {t};
      }
    }
  }

  // A write logged by another thread, on other shards, keeps a held shard one command ahead.
  lemma OthersUnaffected<Loc(!new), Cell(!new)>(sem: Semantics<Loc, Cell>, now: Instant, live: Shards<Loc, Cell>,
        log: Shards<Loc, Cell>, log': Shards<Loc, Cell>, on: set<Loc>, r: Ran)
    requires Sound(sem) && sem.IsState(log) && Within(sem, log, log', on) && on !! sem.locks(r.command)
    requires Ahead(sem, now, live, log, r)
    ensures Ahead(sem, now, live, log', r)
  {
    var mine := sem.locks(r.command);
    forall l | l in mine && l in sem.locs ensures sem.SameAt(r.at, log, log', l) {
      assert log'[l] == log[l];
    }
    assert sem.Agree(r.at, log, log', mine);
    var a, b := sem.step(r.at, log, r.command), sem.step(r.at, log', r.command);
    AgreeLater(sem, r.at, now, a, b, mine);
    AgreeTrans(sem, now, live, a, b, mine);
  }

  // Active expiry replaces a free shard's contents by contents no reader can tell apart from
  // an instant on, which may be earlier than now: a pass reads the clock once, before its locks.
  lemma ExpireKeepsLogOrder<Loc(!new), Cell(!new)>(sem: Semantics<Loc, Cell>, now: Instant, live: Shards<Loc, Cell>,
        inflight: InFlight, log: Shards<Loc, Cell>, l: Loc, at: Instant, cell: Cell)
    requires Sound(sem) && LogOrder(sem, now, live, inflight, log) && at <= now
    requires l in sem.locs && Free(sem, inflight, l) && sem.same(at, live[l], cell)
    ensures LogOrder(sem, now, live[l := cell], inflight, log)
  {
    var live' := live[l := cell];
    SweptMatches(sem, now, live, log, l, at, cell);
    forall m | m in sem.locs && Free(sem, inflight, m) ensures sem.SameAt(now, live', log, m) {
      assert sem.SameAt(now, live, log, m);
    }
    assert Within(sem, live, live', {l});
    forall t | t in inflight ensures Ahead(sem, now, live', log, inflight[t]) {
      RunElsewhere(sem, now, live, live', {l}, log, inflight[t]);
    }
  }

  lemma SweptMatches<Loc(!new), Cell(!new)>(sem: Semantics<Loc, Cell>, now: Instant, live: Shards<Loc, Cell>,
        log: Shards<Loc, Cell>, l: Loc, at: Instant, cell: Cell)
    requires Equivalence(sem) && at <= now && sem.SameAt(now, live, log, l) && sem.same(at, live[l], cell)
    ensures sem.SameAt(now, live[l := cell], log, l)
  {
    assert sem.same(now, live[l], cell);
    assert sem.same(now, cell, live[l]);
  }

  // With every lock held by one thread, the live shards are the fold of the log.
  lemma QuiescentMatchesLog<Loc(!new), Cell(!new)>(sem: Semantics<Loc, Cell>, now: Instant, live: Shards<Loc, Cell>,
        inflight: InFlight, log: Shards<Loc, Cell>)
    requires LogOrder(sem, now, live, inflight, log)
    requires forall t :: t in inflight ==> sem.locks(inflight[t].command) == {}
    ensures sem.Equal(now, live, log)
  {
    forall l | l in sem.locs ensures sem.SameAt(now, live, log, l) {
      assert Free(sem, inflight, l);
    }
  }
}
