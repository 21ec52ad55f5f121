// Replaying the append log after the clock has moved on. A write is logged as it was given,
// except that EXPIRE becomes PEXPIREAT with an absolute deadline, and recovery runs it at a
// later instant. This module says exactly when that reproduces the live keyspace.
module Replays {
  import opened ByteStrings
  import opened Options
  import opened Decimals
  import opened Commands
  import opened Keyspaces
  import opened Expiry

  // Instants a clock can show: 146 million years around the epoch.
  const CLOCK_RANGE: int := 0x4000_0000_0000_0000 * MILLISECOND

  // One command: when it ran, when persistArgs read the clock again to log it, and when
  // recovery replayed it.
  datatype Step = Step(now: Time, logged: Time, op: Op, replayed: Time) {
    ghost predicate Timely() {
      now <= logged <= replayed && InRange()
    }

    ghost predicate InRange() {
      -CLOCK_RANGE <= now && logged <= CLOCK_RANGE
    }
  }

  predicate IsWrite(op: Op) {
    !(op.Get? || op.Exists? || op.Ttl? || op.Type? || op.LRange? || op.LLen? || op.HGet? || op.HGetAll?
      || op.SMembers? || op.SInter? || op.ZRange? || op.ZScore?)
  }

  // UnixMilli, which wraps around at 64 bits.
  function Milliseconds(t: Time): (ms: int)
    ensures MIN_INT64 <= ms <= MAX_INT64
  {
    Wrap64(t / MILLISECOND)
  }

  // persistArgs.
  function LogForm(clock: Time, op: Op): (r: Op) {
    if op.Expire? && ParseInt(op.secs).Some?
    then PExpireAt(op.key, FormatInt(Milliseconds(ExpireDeadline(clock, ParseInt(op.secs).value))))
    else op
  }

  // Only writes that answered without an error are logged.
  predicate IsLogged(s: Step, ks: Keyspace) {
    IsWrite(s.op) && !Exec(s.now, s.op, ks).answer.Fail?
  }

  function Live(ks: Keyspace, steps: seq<Step>): (r: Keyspace) {
    if steps == [] then ks
    else
      var k := |steps| - 1;
      Exec(steps[k].now, steps[k].op, Live(ks, steps[..k])).keyspace
  }

  datatype Timed = Timed(at: Time, op: Op)

  // What the run logged, each record with the instant at which it will be replayed.
  function Log(ks: Keyspace, steps: seq<Step>): (r: seq<Timed>) {
    if steps == [] then []
    else
      var k := |steps| - 1;
      var s := steps[k];
      Log(ks, steps[..k]) +
        if IsLogged(s, Live(ks, steps[..k])) then [Timed(s.replayed, LogForm(s.logged, s.op))] else []
  }

  // Commands one after another, each at its own instant.
  function Execute(ks: Keyspace, run: seq<Timed>): (r: Keyspace) {
    if run == [] then ks
    else
      var k := |run| - 1;
      Exec(run[k].at, run[k].op, Execute(ks, run[..k])).keyspace
  }

  // The entry was live when the command ran and is dead when it is replayed.
  predicate Dies(s: Step, e: Option<Entry>) {
    e.Some? && e.value.Expired(s.replayed)
  }

  // The deadline PEXPIREAT will set for a logged EXPIRE.
  function LoggedDeadline(s: Step, secs: int): (at: Time) {
    Milliseconds(ExpireDeadline(s.logged, secs)) * MILLISECOND
  }

  // When replaying the record has the effect the command had, as far as can be seen at the
  // replay: a command that builds on its key must find the key still alive, unless its
  // arguments are refused anyway, and EXPIRE must lose nothing to the second clock reading
  // or to rounding.
  predicate Faithful(s: Step, ks: Keyspace) {
    match s.op
    case IncrBy(k, _) => !Dies(s, Lookup(ks, k, s.now))
    case Push(k, _, _) => !Dies(s, Lookup(ks, k, s.now))
    case HSet(k, rest) => |rest| % 2 != 0 || !Dies(s, Lookup(ks, k, s.now))
    case SAdd(k, _) => !Dies(s, Lookup(ks, k, s.now))
    case ZAdd(k, pairs, odd) => odd || !AllScored(pairs) || !Dies(s, Lookup(ks, k, s.now))
    case Persist(k) => !Dies(s, Lookup(ks, k, s.now))
    case PExpireAt(k, ms) =>
      Dies(s, Lookup(ks, k, s.now)) ==> ParseInt(ms).None? || Gone(ParseInt(ms).value * MILLISECOND, s.replayed)
    case Expire(k, secs) =>
      var e, n := Lookup(ks, k, s.now), ParseInt(secs);
      e.Some? && n.Some? ==>
        var at, again := ExpireDeadline(s.now, n.value), LoggedDeadline(s, n.value);
        || (Gone(at, s.replayed) && (Dies(s, e) || Gone(again, s.replayed)))
        || (at == again && !Dies(s, e))
    case _ => true
  }

  // How a single-key command's log form affects the entry found at replay.
  lemma LoggedEffect(s: Step, e: Option<Entry>)
    requires s.Timely() && IsSingle(s.op) && IsWrite(s.op) && !s.op.Expire?
    ensures LogForm(s.logged, s.op) == s.op
    ensures Single(s.replayed, s.op, e) == Single(s.now, s.op, e)
  {
  }

  lemma LoggedExpire(s: Step, secs: int)
    requires s.Timely() && s.op.Expire? && ParseInt(s.op.secs) == Some(secs)
    ensures
      var r := LogForm(s.logged, s.op);
      r.PExpireAt? && r.key == s.op.key && ParseInt(r.ms) == Some(Milliseconds(ExpireDeadline(s.logged, secs)))
  {
    var ms := Milliseconds(ExpireDeadline(s.logged, secs));
    assert MIN_INT64 <= ms <= MAX_INT64;
    IntRoundTrip(ms);
  }

  // What is visible under the key after an update.
  function Seen(ks: Keyspace, key: Bytes, u: Update, now: Time): (r: Option<Entry>) {
    match u
    case Keep => Lookup(ks, key, now)
    case Put(e) => if e.Expired(now) then None else Some(e)
    case Drop => None
  }

  lemma KeyDecides(ks: Keyspace, key: Bytes, u: Update, v: Update, now: Time)
    ensures Alike(Updated(ks, key, u), Updated(ks, key, v), now) <==> Seen(ks, key, u, now) == Seen(ks, key, v, now)
  {
    var a, b := Updated(ks, key, u), Updated(ks, key, v);
    assert Lookup(a, key, now) == Seen(ks, key, u, now) && Lookup(b, key, now) == Seen(ks, key, v, now);
    if Seen(ks, key, u, now) == Seen(ks, key, v, now) {
      forall k ensures Lookup(a, k, now) == Lookup(b, k, now) {
        assert k == key || (Lookup(a, k, now) == Lookup(ks, k, now) == Lookup(b, k, now));
      }
    }
  }

  // The entry found at the replay is the one the command found, unless that died.
  lemma FoundAtReplay(s: Step, ks: Keyspace, key: Bytes)
    requires s.Timely()
    ensures Lookup(ks, key, s.replayed) == if Dies(s, Lookup(ks, key, s.now)) then None else Lookup(ks, key, s.now)
  {
  }

  // Arguments that HSET and ZADD refuse whatever they find.
  predicate Refused(op: Op) {
    (op.HSet? && |op.rest| % 2 != 0) || (op.ZAdd? && (op.odd || !AllScored(op.pairs)))
  }

  // A command that finds its key dead builds a new value, which the live run never had.
  lemma BuildersNeedTheKey(s: Step, e: Entry)
    requires s.op.IncrBy? || s.op.Push? || s.op.HSet? || s.op.SAdd? || s.op.ZAdd?
    requires Accepted(s.op) && e.Expired(s.replayed)
    ensures var u := Single(s.now, s.op, Some(e)).update;
      u.Keep? || (u.Put? && u.entry.Expired(s.replayed))
    ensures var u := Single(s.now, s.op, None).update;
      if Refused(s.op) then u.Keep? else u.Put? && !u.entry.Expired(s.replayed)
  {
  }

  lemma BuildersIff(s: Step, ks: Keyspace)
    requires s.op.IncrBy? || s.op.Push? || s.op.HSet? || s.op.SAdd? || s.op.ZAdd?
    requires s.Timely() && Accepted(s.op)
    ensures Faithful(s, ks) <==> Reproduces(s, ks)
  {
    var key := s.op.key;
    var e := Lookup(ks, key, s.now);
    FoundAtReplay(s, ks, key);
    LoggedEffect(s, Lookup(ks, key, s.replayed));
    var u, v := Single(s.now, s.op, e).update, Single(s.now, s.op, Lookup(ks, key, s.replayed)).update;
    KeyDecides(ks, key, u, v, s.replayed);
    if Dies(s, e) {
      BuildersNeedTheKey(s, e.value);
    }
  }

  // Replaying the record leaves what the command left, as far as anyone can see by then.
  ghost predicate Reproduces(s: Step, ks: Keyspace) {
    Alike(Exec(s.now, s.op, ks).keyspace, Exec(s.replayed, LogForm(s.logged, s.op), ks).keyspace, s.replayed)
  }

  lemma TakersReproduce(s: Step, ks: Keyspace)
    requires s.op.Set? || s.op.Pop? || s.op.HDel? || s.op.SRem?
    requires s.Timely()
    ensures Reproduces(s, ks)
  {
    var key := s.op.key;
    var e := Lookup(ks, key, s.now);
    FoundAtReplay(s, ks, key);
    LoggedEffect(s, Lookup(ks, key, s.replayed));
    var e' := Lookup(ks, key, s.replayed);
    KeyDecides(ks, key, Single(s.now, s.op, e).update, Single(s.now, s.op, e').update, s.replayed);
  }

  lemma PersistIff(s: Step, ks: Keyspace)
    requires s.op.Persist? && s.Timely()
    ensures Faithful(s, ks) <==> Reproduces(s, ks)
  {
    var key := s.op.key;
    var e := Lookup(ks, key, s.now);
    FoundAtReplay(s, ks, key);
    KeyDecides(ks, key, PersistEffect(e).update, PersistEffect(Lookup(ks, key, s.replayed)).update, s.replayed);
  }

  lemma PExpireAtIff(s: Step, ks: Keyspace)
    requires s.op.PExpireAt? && s.Timely()
    ensures Faithful(s, ks) <==> Reproduces(s, ks)
  {
    var key, ms := s.op.key, s.op.ms;
    var e := Lookup(ks, key, s.now);
    FoundAtReplay(s, ks, key);
    var e' := Lookup(ks, key, s.replayed);
    KeyDecides(ks, key, PExpireAtEffect(e, ms).update, PExpireAtEffect(e', ms).update, s.replayed);
  }

  lemma ExpireIff(s: Step, ks: Keyspace)
    requires s.op.Expire? && s.Timely()
    ensures Faithful(s, ks) <==> Reproduces(s, ks)
  {
    var key, secs := s.op.key, ParseInt(s.op.secs);
    if secs.Some? {
      var e := Lookup(ks, key, s.now);
      FoundAtReplay(s, ks, key);
      LoggedExpire(s, secs.value);
      var r := LogForm(s.logged, s.op);
      var e' := Lookup(ks, key, s.replayed);
      KeyDecides(ks, key, ExpireEffect(s.now, e, s.op.secs).update, PExpireAtEffect(e', r.ms).update, s.replayed);
    }
  }

  // One step, for every command: the replay reproduces it if and only if it is faithful.
  lemma ReplayIff(s: Step, ks: Keyspace)
    requires s.Timely() && Accepted(s.op)
    ensures Faithful(s, ks) <==> Reproduces(s, ks)
  {
    if s.op.IncrBy? || s.op.Push? || s.op.HSet? || s.op.SAdd? || s.op.ZAdd? {
      BuildersIff(s, ks);
    } else if s.op.Set? || s.op.Pop? || s.op.HDel? || s.op.SRem? {
      TakersReproduce(s, ks);
    } else if s.op.Persist? {
      PersistIff(s, ks);
    } else if s.op.PExpireAt? {
      PExpireAtIff(s, ks);
    } else if s.op.Expire? {
      ExpireIff(s, ks);
    } else if !IsWrite(s.op) {
      ReadsChangeNothing(s.now, s.op, ks);
      ReadsChangeNothing(s.replayed, s.op, ks);
    }
  }

  lemma ReadsChangeNothing(now: Time, op: Op, ks: Keyspace)
    requires !IsWrite(op)
    ensures Exec(now, op, ks).keyspace == ks
  {
  }

  ghost predicate FaithfulRun(ks: Keyspace, steps: seq<Step>) {
    && (forall i :: 0 <= i < |steps| ==> steps[i].Timely() && Accepted(steps[i].op))
    && (forall i, j :: 0 <= i < j < |steps| ==> steps[i].replayed <= steps[j].replayed)
    && (forall i :: 0 <= i < |steps| ==> FaithfulAt(ks, steps, i))
  }

  ghost predicate FaithfulAt(ks: Keyspace, steps: seq<Step>, i: nat)
    requires i < |steps|
  {
    var before := Live(ks, steps[..i]);
    IsLogged(steps[i], before) ==> Faithful(steps[i], before)
  }

  // The same of every command of the run, logged or not.
  ghost predicate FaithfulThroughout(ks: Keyspace, steps: seq<Step>) {
    && (forall i :: 0 <= i < |steps| ==> steps[i].Timely() && Accepted(steps[i].op))
    && (forall i, j :: 0 <= i < j < |steps| ==> steps[i].replayed <= steps[j].replayed)
    && (forall i :: 0 <= i < |steps| ==> Faithful(steps[i], Live(ks, steps[..i])))
  }

  // The commands as they ran, and their log forms as they are replayed.
  function AsRun(steps: seq<Step>): (r: seq<Timed>)
    ensures |r| == |steps|
  {
    seq(|steps|, i requires 0 <= i < |steps| => Timed(steps[i].now, steps[i].op))
  }

  function AsReplayed(steps: seq<Step>): (r: seq<Timed>)
    ensures |r| == |steps|
  {
    seq(|steps|, i requires 0 <= i < |steps| => Timed(steps[i].replayed, LogForm(steps[i].logged, steps[i].op)))
  }

  lemma ExecuteLast(ks: Keyspace, run: seq<Timed>, k: nat)
    requires |run| == k + 1
    ensures Execute(ks, run) == Exec(run[k].at, run[k].op, Execute(ks, run[..k])).keyspace
  {
  }

  lemma {:induction false} LiveExecutes(ks: Keyspace, steps: seq<Step>)
    ensures Live(ks, steps) == Execute(ks, AsRun(steps))
    decreases |steps|
  {
    if steps != [] {
      var k := |steps| - 1;
      LiveExecutes(ks, steps[..k]);
      assert AsRun(steps)[..k] == AsRun(steps[..k]);
      ExecuteLast(ks, AsRun(steps), k);
    }
  }

  lemma StepReplays(s: Step, a: Keyspace, b: Keyspace)
    requires s.Timely() && Accepted(s.op) && Faithful(s, a) && Alike(a, b, s.replayed)
    ensures Alike(Exec(s.now, s.op, a).keyspace, Exec(s.replayed, LogForm(s.logged, s.op), b).keyspace, s.replayed)
  {
    var op := LogForm(s.logged, s.op);
    ReplayIff(s, a);
    ExecAlike(s.replayed, op, a, b);
    var again := Exec(s.replayed, op, a).keyspace;
    AlikeTrans(Exec(s.now, s.op, a).keyspace, again, Exec(s.replayed, op, b).keyspace, s.replayed);
  }

  lemma ThroughoutInit(ks: Keyspace, steps: seq<Step>)
    requires FaithfulThroughout(ks, steps) && steps != []
    ensures FaithfulThroughout(ks, steps[..|steps| - 1])
  {
    var init := steps[..|steps| - 1];
    forall i | 0 <= i < |init| ensures Faithful(init[i], Live(ks, init[..i])) {
      assert init[..i] == steps[..i];
    }
  }

  // Replaying every command, from any state indistinguishable from the one the run started
  // in, gives the visible state the live run gives.
  lemma {:induction false} ReplayAllFaithful(ks: Keyspace, from: Keyspace, steps: seq<Step>)
    requires FaithfulThroughout(ks, steps) && steps != []
    requires Alike(ks, from, steps[0].replayed)
    ensures Alike(Live(ks, steps), Execute(from, AsReplayed(steps)), steps[|steps| - 1].replayed)
    decreases |steps|
  {
    var k := |steps| - 1;
    var init, s := steps[..k], steps[k];
    var a, b := Live(ks, init), Execute(from, AsReplayed(init));
    if k > 0 {
      ThroughoutInit(ks, steps);
      ReplayAllFaithful(ks, from, init);
      AlikeLater(a, b, steps[k - 1].replayed, s.replayed);
    }
    StepReplays(s, a, b);
    ReplayedLast(from, steps, k);
  }

  lemma ReplayedLast(from: Keyspace, steps: seq<Step>, k: nat)
    requires |steps| == k + 1
    ensures Execute(from, AsReplayed(steps)) ==
      Exec(steps[k].replayed, LogForm(steps[k].logged, steps[k].op), Execute(from, AsReplayed(steps[..k]))).keyspace
  {
    assert AsReplayed(steps)[..k] == AsReplayed(steps[..k]);
    ExecuteLast(from, AsReplayed(steps), k);
  }

  // Replay with deadlines: over any run, from any state indistinguishable from the one the
  // run started in, the replayed log gives the visible state the live run gives.
  lemma {:induction false} ReplayFaithful(ks: Keyspace, from: Keyspace, steps: seq<Step>)
    requires FaithfulRun(ks, steps) && steps != []
    requires Alike(ks, from, steps[0].replayed)
    ensures Alike(Live(ks, steps), Execute(from, Log(ks, steps)), steps[|steps| - 1].replayed)
    decreases |steps|
  {
    var k := |steps| - 1;
    var init, s := steps[..k], steps[k];
    var a, b := Live(ks, init), Execute(from, Log(ks, init));
    if k > 0 {
      FaithfulInit(ks, steps);
      ReplayFaithful(ks, from, init);
      AlikeLater(a, b, steps[k - 1].replayed, s.replayed);
    }
    assert FaithfulAt(ks, steps, k);
    if IsLogged(s, a) {
      var log := Log(ks, steps);
      assert log[..|log| - 1] == Log(ks, init);
      StepReplays(s, a, b);
    } else {
      assert Log(ks, steps) == Log(ks, init);
      Unlogged(s, a);
    }
  }

  lemma Unlogged(s: Step, ks: Keyspace)
    requires !IsLogged(s, ks)
    ensures Exec(s.now, s.op, ks).keyspace == ks
  {
    if IsWrite(s.op) {
      ErrorChangesNothing(s.now, s.op, ks);
    } else {
      ReadsChangeNothing(s.now, s.op, ks);
    }
  }

  lemma FaithfulInit(ks: Keyspace, steps: seq<Step>)
    requires FaithfulRun(ks, steps) && steps != []
    ensures FaithfulRun(ks, steps[..|steps| - 1])
  {
    var init := steps[..|steps| - 1];
    forall i | 0 <= i < |init| ensures FaithfulAt(ks, init, i) {
      assert FaithfulAt(ks, steps, i) && init[..i] == steps[..i];
    }
  }

  lemma {:induction false} ExecuteConcat(ks: Keyspace, a: seq<Timed>, b: seq<Timed>)
    ensures Execute(ks, a + b) == Execute(Execute(ks, a), b)
    decreases |b|
  {
    if b == [] {
      assert a + b == a;
    } else {
      var k, all := |b| - 1, a + b;
      assert all[..|a| + k] == a + b[..k] && all[|a| + k] == b[k];
      ExecuteConcat(ks, a, b[..k]);
      ExecuteLast(ks, all, |a| + k);
      ExecuteLast(Execute(ks, a), b, k);
    }
  }

  lemma AsRunConcat(a: seq<Step>, b: seq<Step>)
    ensures AsRun(a + b) == AsRun(a) + AsRun(b)
  {
  }

  lemma LiveConcat(ks: Keyspace, a: seq<Step>, b: seq<Step>)
    ensures Live(ks, a + b) == Live(Live(ks, a), b)
  {
    LiveExecutes(ks, a + b);
    LiveExecutes(ks, a);
    LiveExecutes(Live(ks, a), b);
    AsRunConcat(a, b);
    ExecuteConcat(ks, AsRun(a), AsRun(b));
  }

  // Recovery from a snapshot taken after p commands: whatever it restores, if that looks the
  // same by then, and the log since, replayed later, give the visible state of the whole run.
  lemma SnapshotThenReplay(ks: Keyspace, steps: seq<Step>, p: nat, restored: Keyspace)
    requires p < |steps| && FaithfulRun(Live(ks, steps[..p]), steps[p..])
    requires Alike(Live(ks, steps[..p]), restored, steps[p].replayed)
    ensures
      var captured := Live(ks, steps[..p]);
      Alike(Live(ks, steps), Execute(restored, Log(captured, steps[p..])), steps[|steps| - 1].replayed)
  {
    var captured := Live(ks, steps[..p]);
    assert steps[..p] + steps[p..] == steps;
    LiveConcat(ks, steps[..p], steps[p..]);
    ReplayFaithful(captured, restored, steps[p..]);
  }

  // One clock reading per command, on a whole millisecond, and no duration overflow.
  ghost predicate SteadyClock(s: Step) {
    && s.logged == s.now && s.now % MILLISECOND == 0
    && (s.op.Expire? && ParseInt(s.op.secs).Some? ==> MIN_INT64 <= ParseInt(s.op.secs).value * SECOND <= MAX_INT64)
  }

  // Every key the command names is alive at its replay just when it was alive at its run.
  ghost predicate SameLiveness(s: Step, ks: Keyspace) {
    forall k :: k in KeysOf(s.op) ==> Lookup(ks, k, s.now).Some? == Lookup(ks, k, s.replayed).Some?
  }

  lemma SteadyIsFaithful(s: Step, ks: Keyspace)
    requires s.Timely() && SteadyClock(s) && SameLiveness(s, ks)
    ensures Faithful(s, ks)
  {
    if IsSingle(s.op) {
      assert s.op.key in KeysOf(s.op);
      FoundAtReplay(s, ks, s.op.key);
      if s.op.Expire? && ParseInt(s.op.secs).Some? {
        WholeMillisecond(s.now, ParseInt(s.op.secs).value);
      }
    }
  }

  lemma WholeMillisecond(now: Time, secs: int)
    requires now % MILLISECOND == 0 && MIN_INT64 <= secs * SECOND <= MAX_INT64
    requires -CLOCK_RANGE <= now <= CLOCK_RANGE
    ensures Milliseconds(ExpireDeadline(now, secs)) * MILLISECOND == ExpireDeadline(now, secs)
  {
    assert (now + secs * SECOND) % MILLISECOND == 0;
  }

  // A whole run on a steady clock, in which no key a command names dies between the command
  // and its replay, is reproduced.
  lemma SteadyRunReproduced(ks: Keyspace, from: Keyspace, steps: seq<Step>)
    requires steps != [] && Alike(ks, from, steps[0].replayed)
    requires forall i :: 0 <= i < |steps| ==>
      && steps[i].Timely() && Accepted(steps[i].op) && SteadyClock(steps[i])
      && SameLiveness(steps[i], Live(ks, steps[..i]))
    requires forall i, j :: 0 <= i < j < |steps| ==> steps[i].replayed <= steps[j].replayed
    ensures Alike(Live(ks, steps), Execute(from, Log(ks, steps)), steps[|steps| - 1].replayed)
    ensures Alike(Live(ks, steps), Execute(from, AsReplayed(steps)), steps[|steps| - 1].replayed)
  {
    forall i | 0 <= i < |steps| ensures Faithful(steps[i], Live(ks, steps[..i])) && FaithfulAt(ks, steps, i) {
      SteadyIsFaithful(steps[i], Live(ks, steps[..i]));
    }
    ReplayFaithful(ks, from, steps);
    ReplayAllFaithful(ks, from, steps);
  }

  lemma OneLive(ks: Keyspace, s: Step)
    ensures Live(ks, [s]) == Exec(s.now, s.op, ks).keyspace
  {
    assert [s][..0] == [];
  }

  lemma OneReplay(ks: Keyspace, l: Timed)
    ensures Execute(ks, [l]) == Exec(l.at, l.op, ks).keyspace
  {
    assert [l][..0] == [];
  }

  lemma OneLogged(ks: Keyspace, s: Step)
    requires IsLogged(s, ks)
    ensures Log(ks, [s]) == [Timed(s.replayed, LogForm(s.logged, s.op))]
  {
    assert [s][..0] == [] && Live(ks, []) == ks && Log(ks, []) == [];
  }

  lemma OneStep(ks: Keyspace, s: Step)
    requires IsLogged(s, ks)
    ensures Live(ks, [s]) == Exec(s.now, s.op, ks).keyspace
    ensures Execute(ks, Log(ks, [s])) == Exec(s.replayed, LogForm(s.logged, s.op), ks).keyspace
  {
    OneLive(ks, s);
    OneLogged(ks, s);
    OneReplay(ks, Timed(s.replayed, LogForm(s.logged, s.op)));
  }

  lemma ParseOne()
    ensures ParseInt([49]) == Some(1)
  {
    IntRoundTrip(1);
    assert FormatInt(1) == [49];
  }

  // INCR on a key that expired before the replay brings the key back, without a deadline.
  lemma ReplayResurrects(key: Bytes)
    ensures
      var ks := map[key := Entry(Str([49]), SECOND)];
      var s := Step(0, 0, IncrBy(key, 1), 2 * SECOND);
      && Lookup(Live(ks, [s]), key, s.replayed) == None
      && Lookup(Execute(ks, Log(ks, [s])), key, s.replayed).Some?
  {
    var ks := map[key := Entry(Str([49]), SECOND)];
    var s := Step(0, 0, IncrBy(key, 1), 2 * SECOND);
    ParseOne();
    var e := Lookup(ks, key, 0);
    assert Single(0, s.op, e) == Effect(Put(Entry(Str(FormatInt(2)), SECOND)), Int(2));
    assert Single(2 * SECOND, s.op, None) == Effect(Put(Entry(Str(FormatInt(1)), ZERO_TIME)), Int(1));
    OneStep(ks, s);
  }

  // An EXPIRE off the whole millisecond is replayed with an earlier deadline: at that
  // deadline the live key is still there, the replayed one is not.
  lemma ReplayRounds(key: Bytes, v: Value)
    ensures
      var ks := map[key := Entry(v, ZERO_TIME)];
      var s := Step(1, 1, Expire(key, [49]), SECOND);
      IsLogged(s, ks) && !Reproduces(s, ks)
  {
    var e := Entry(v, ZERO_TIME);
    var ks := map[key := e];
    var s := Step(1, 1, Expire(key, [49]), SECOND);
    ParseOne();
    assert ExpireDeadline(1, 1) == SECOND + 1 && LoggedDeadline(s, 1) == SECOND;
    assert Single(1, s.op, Some(e)).answer == Int(1);
    ExpireIff(s, ks);
  }
}
