// Whole runs of one database: commands and active-expiry sweeps in any interleaving. An
// expiry pass reads the clock once and then sweeps shard after shard, releasing each shard's
// lock in between, so its sweeps are separate events whose clock reading may be older than
// that of commands run meanwhile. Sweeps are invisible, errors change nothing, and no empty
// collection is ever stored.
module Expiry {
  import opened ByteStrings
  import opened Options
  import opened Commands
  import opened Keyspaces

  // No command can tell the two keyspaces apart at this instant.
  ghost predicate Alike(a: Keyspace, b: Keyspace, now: Time) {
    forall k :: Lookup(a, k, now) == Lookup(b, k, now)
  }

  // Keyspaces alike now stay alike: what has expired stays expired.
  lemma AlikeLater(a: Keyspace, b: Keyspace, now: Time, later: Time)
    requires Alike(a, b, now) && now <= later
    ensures Alike(a, b, later)
  {
    forall k ensures Lookup(a, k, later) == Lookup(b, k, later) {
      assert Lookup(a, k, now) == Lookup(b, k, now);
    }
  }

  lemma {:induction false} CountsAlike(a: Keyspace, b: Keyspace, keys: seq<Bytes>, now: Time)
    requires Alike(a, b, now)
    ensures CountLive(a, keys, now) == CountLive(b, keys, now)
    ensures CountExisting(a, keys, now) == CountExisting(b, keys, now)
    ensures Gather(a, keys, now) == Gather(b, keys, now)
    decreases |keys|
  {
    if keys != [] {
      var k := |keys| - 1;
      assert Lookup(a, keys[k], now) == Lookup(b, keys[k], now);
      CountsAlike(a, b, keys[..k], now);
    }
  }

  lemma UpdatesAlike(a: Keyspace, b: Keyspace, key: Bytes, u: Update, now: Time)
    requires Alike(a, b, now)
    ensures Alike(Updated(a, key, u), Updated(b, key, u), now)
  {
    forall k ensures Lookup(Updated(a, key, u), k, now) == Lookup(Updated(b, key, u), k, now) {
      assert Lookup(a, k, now) == Lookup(b, k, now);
    }
  }

  lemma DropsAlike(a: Keyspace, b: Keyspace, keys: set<Bytes>, now: Time)
    requires Alike(a, b, now)
    ensures Alike(a - keys, b - keys, now)
  {
    forall k ensures Lookup(a - keys, k, now) == Lookup(b - keys, k, now) {
      assert Lookup(a, k, now) == Lookup(b, k, now);
    }
  }

  lemma SingleAlike(now: Time, op: Op, a: Keyspace, b: Keyspace)
    requires Alike(a, b, now) && IsSingle(op)
    ensures Exec(now, op, a).answer == Exec(now, op, b).answer
    ensures Alike(Exec(now, op, a).keyspace, Exec(now, op, b).keyspace, now)
  {
    var e := Lookup(a, op.key, now);
    assert e == Lookup(b, op.key, now);
    UpdatesAlike(a, b, op.key, Single(now, op, e).update, now);
  }

  // A command answers the same on keyspaces that are alike, and leaves them alike.
  lemma ExecAlike(now: Time, op: Op, a: Keyspace, b: Keyspace)
    requires Alike(a, b, now)
    ensures Exec(now, op, a).answer == Exec(now, op, b).answer
    ensures Alike(Exec(now, op, a).keyspace, Exec(now, op, b).keyspace, now)
  {
    if IsSingle(op) {
      SingleAlike(now, op, a, b);
    } else if op.Del? || op.Unlink? {
      CountsAlike(a, b, op.keys, now);
      DropsAlike(a, b, Elements(op.keys), now);
    } else if op.Exists? || op.SInter? {
      CountsAlike(a, b, op.keys, now);
    }
  }

  // A sweep of one shard removes some of its keys, for a clock reading made earlier.
  datatype Event =
    | Command(now: Time, op: Op)
    | Sweeping(now: Time, gone: set<Bytes>)

  function After(ks: Keyspace, e: Event): (r: Keyspace) {
    match e
    case Command(now, op) => Exec(now, op, ks).keyspace
    case Sweeping(now, gone) => ks - gone
  }

  function State(ks: Keyspace, run: seq<Event>): (r: Keyspace) {
    if run == [] then ks else After(State(ks, run[..|run| - 1]), run[|run| - 1])
  }

  // The replies, in order.
  function Answers(ks: Keyspace, run: seq<Event>): (r: seq<Answer>) {
    if run == [] then []
    else
      var k := |run| - 1;
      Answers(ks, run[..k]) +
        if run[k].Command? then [Exec(run[k].now, run[k].op, State(ks, run[..k])).answer] else []
  }

  // The same run without its sweeps.
  function WithoutSweeps(run: seq<Event>): (r: seq<Event>) {
    if run == [] then []
    else
      var k := |run| - 1;
      WithoutSweeps(run[..k]) + if run[k].Command? then [run[k]] else []
  }

  // No command's clock reading is older than one made for an event before it. Nothing is
  // asked of a sweep's.
  ghost predicate Timed(run: seq<Event>) {
    forall i, j :: 0 <= i < j < |run| && run[j].Command? ==> run[i].now <= run[j].now
  }

  ghost predicate Past(run: seq<Event>, t: Time) {
    forall i :: 0 <= i < |run| ==> run[i].now <= t
  }

  // Every sweep removes only keys that had expired by its own clock reading.
  ghost predicate SweepsExpired(ks: Keyspace, run: seq<Event>) {
    forall i :: 0 <= i < |run| ==> SweepsAt(ks, run, i)
  }

  ghost predicate SweepsAt(ks: Keyspace, run: seq<Event>, i: nat)
    requires i < |run|
  {
    var before := State(ks, run[..i]);
    run[i].Sweeping? ==> Sweep(before, before - run[i].gone, run[i].gone, run[i].now)
  }

  lemma SweepAlike(ks: Keyspace, gone: set<Bytes>, now: Time)
    requires Sweep(ks, ks - gone, gone, now)
    ensures Alike(ks - gone, ks, now)
  {
  }

  // Active expiry is invisible: every reply is the one the run without it gives, and from
  // the latest clock reading on the keyspaces look the same.
  lemma {:induction false} ExpiryInvisible(ks: Keyspace, run: seq<Event>, t: Time)
    requires Timed(run) && SweepsExpired(ks, run) && Past(run, t)
    ensures Answers(ks, run) == Answers(ks, WithoutSweeps(run))
    ensures Alike(State(ks, run), State(ks, WithoutSweeps(run)), t)
    decreases |run|
  {
    if run != [] {
      var k := |run| - 1;
      var init, last := run[..k], run[k];
      InitIsRun(ks, run);
      // A command is judged at its own instant, a sweep at the later one.
      ExpiryInvisible(ks, init, if last.Command? then last.now else t);
      var a, b := State(ks, init), State(ks, WithoutSweeps(init));
      assert SweepsAt(ks, run, k);
      EventInvisible(a, b, last, t);
      SkipSweeps(ks, run);
    }
  }

  lemma SkipSweeps(ks: Keyspace, run: seq<Event>)
    requires run != []
    ensures
      var last, init := run[|run| - 1], WithoutSweeps(run[..|run| - 1]);
      if last.Command? then
        && State(ks, WithoutSweeps(run)) == After(State(ks, init), last)
        && Answers(ks, WithoutSweeps(run)) == Answers(ks, init) + [Exec(last.now, last.op, State(ks, init)).answer]
      else WithoutSweeps(run) == init
  {
    var last, init := run[|run| - 1], WithoutSweeps(run[..|run| - 1]);
    if last.Command? {
      assert WithoutSweeps(run)[..|init|] == init;
    }
  }

  lemma EventInvisible(a: Keyspace, b: Keyspace, e: Event, t: Time)
    requires e.now <= t && Alike(a, b, if e.Command? then e.now else t)
    requires e.Sweeping? ==> Sweep(a, a - e.gone, e.gone, e.now)
    ensures Alike(After(a, e), if e.Command? then After(b, e) else b, t)
    ensures e.Command? ==> Exec(e.now, e.op, a).answer == Exec(e.now, e.op, b).answer
  {
    if e.Command? {
      ExecAlike(e.now, e.op, a, b);
      AlikeLater(After(a, e), After(b, e), e.now, t);
    } else {
      SweepAlike(a, e.gone, e.now);
      AlikeLater(a - e.gone, a, e.now, t);
      AlikeTrans(a - e.gone, a, b, t);
    }
  }

  lemma AlikeTrans(a: Keyspace, b: Keyspace, c: Keyspace, now: Time)
    requires Alike(a, b, now) && Alike(b, c, now)
    ensures Alike(a, c, now)
  {
    forall k ensures Lookup(a, k, now) == Lookup(c, k, now) {
      assert Lookup(a, k, now) == Lookup(b, k, now) && Lookup(b, k, now) == Lookup(c, k, now);
    }
  }

  lemma InitIsRun(ks: Keyspace, run: seq<Event>)
    requires run != [] && Timed(run) && SweepsExpired(ks, run)
    ensures Timed(run[..|run| - 1]) && SweepsExpired(ks, run[..|run| - 1])
  {
    var init := run[..|run| - 1];
    forall i | 0 <= i < |init| ensures SweepsAt(ks, init, i) {
      assert SweepsAt(ks, run, i) && init[..i] == run[..i];
    }
  }

  lemma SingleErrorKeeps(now: Time, op: Op, e: Option<Entry>)
    requires IsSingle(op) && Single(now, op, e).answer.Fail?
    ensures Single(now, op, e).update.Keep?
  {
  }

  // A command that answers with an error has changed nothing, so it need not be logged.
  lemma ErrorChangesNothing(now: Time, op: Op, ks: Keyspace)
    requires Exec(now, op, ks).answer.Fail?
    ensures Exec(now, op, ks).keyspace == ks
  {
    if IsSingle(op) {
      SingleErrorKeeps(now, op, Lookup(ks, op.key, now));
    }
  }

  predicate IsEmpty(v: Value) {
    match v
    case Str(_) => false
    case ListV(l) => l == []
    case HashV(h) => h == map[]
    case SetV(s) => s == {}
    case ZSetV(z) => z == map[]
  }

  ghost predicate NoneEmpty(ks: Keyspace) {
    forall k :: k in ks ==> !IsEmpty(ks[k].value)
  }

  lemma FieldsNotEmpty(m: map<Bytes, Bytes>, rest: seq<Bytes>)
    requires |rest| % 2 == 0 && |rest| >= 2
    ensures FieldsSet(m, rest) != map[]
  {
    assert rest[|rest| - 2] in FieldsSet(m, rest);
  }

  lemma ScoresNotEmpty(m: map<Bytes, int>, pairs: seq<ScoredMember>)
    requires AllScored(pairs) && |pairs| >= 1
    ensures ScoresSet(m, pairs) != map[]
  {
    assert pairs[|pairs| - 1].member in ScoresSet(m, pairs);
  }

  lemma BuildersPutNonEmpty(now: Time, op: Op, e: Option<Entry>)
    requires (op.Push? || op.HSet? || op.SAdd? || op.ZAdd?) && Accepted(op)
    ensures Single(now, op, e).update.Put? ==> !IsEmpty(Single(now, op, e).update.entry.value)
  {
    if op.HSet? {
      HSetPutsNonEmpty(e, op.rest);
    } else if op.SAdd? {
      SAddPutsNonEmpty(e, op.rest);
    } else if op.ZAdd? {
      ZAddPutsNonEmpty(e, op.pairs, op.odd);
    }
  }

  lemma HSetPutsNonEmpty(e: Option<Entry>, rest: seq<Bytes>)
    requires |rest| >= 2
    ensures HSetEffect(e, rest).update.Put? ==> !IsEmpty(HSetEffect(e, rest).update.entry.value)
  {
    if |rest| % 2 == 0 {
      FieldsNotEmpty(if e.Some? && e.value.value.HashV? then e.value.value.fields else map[], rest);
    }
  }

  lemma SAddPutsNonEmpty(e: Option<Entry>, rest: seq<Bytes>)
    requires |rest| >= 1
    ensures SAddEffect(e, rest).update.Put? ==> !IsEmpty(SAddEffect(e, rest).update.entry.value)
  {
    assert rest[0] in Elements(rest);
  }

  lemma ZAddPutsNonEmpty(e: Option<Entry>, pairs: seq<ScoredMember>, odd: bool)
    requires |pairs| >= 1 || odd
    ensures ZAddEffect(e, pairs, odd).update.Put? ==> !IsEmpty(ZAddEffect(e, pairs, odd).update.entry.value)
  {
    if !odd && AllScored(pairs) {
      ScoresNotEmpty(if e.Some? && e.value.value.ZSetV? then e.value.value.scores else map[], pairs);
    }
  }

  lemma SinglePutsNonEmpty(now: Time, op: Op, e: Option<Entry>)
    requires IsSingle(op) && Accepted(op)
    requires e.Some? ==> !IsEmpty(e.value.value)
    ensures Single(now, op, e).update.Put? ==> !IsEmpty(Single(now, op, e).update.entry.value)
  {
    if op.Push? || op.HSet? || op.SAdd? || op.ZAdd? {
      BuildersPutNonEmpty(now, op, e);
    }
  }

  lemma ExecKeepsNonEmpty(now: Time, op: Op, ks: Keyspace)
    requires Accepted(op) && NoneEmpty(ks)
    ensures NoneEmpty(Exec(now, op, ks).keyspace)
  {
    if IsSingle(op) {
      SinglePutsNonEmpty(now, op, Lookup(ks, op.key, now));
      UpdateKeepsNonEmpty(ks, op.key, Single(now, op, Lookup(ks, op.key, now)).update);
    }
  }

  lemma UpdateKeepsNonEmpty(ks: Keyspace, key: Bytes, u: Update)
    requires NoneEmpty(ks) && (u.Put? ==> !IsEmpty(u.entry.value))
    ensures NoneEmpty(Updated(ks, key, u))
  {
  }

  // In every reachable state, no stored list, hash, set or sorted set is empty.
  lemma {:induction false} NeverEmpty(ks: Keyspace, run: seq<Event>)
    requires NoneEmpty(ks)
    requires forall i :: 0 <= i < |run| && run[i].Command? ==> Accepted(run[i].op)
    ensures NoneEmpty(State(ks, run))
    decreases |run|
  {
    if run != [] {
      var k := |run| - 1;
      NeverEmpty(ks, run[..k]);
      if run[k].Command? {
        ExecKeepsNonEmpty(run[k].now, run[k].op, State(ks, run[..k]));
      }
    }
  }
}
