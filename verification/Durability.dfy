// Crash safety of the store over whole runs. The store and its directory take steps in any
// order: records are logged, buffers spill, compaction captures, rotates, installs and
// removes, the process crashes or the power fails, and the server opens the directory again.
module Durability {
  import Packs
  import opened AppendLog
  import opened Stores

  // Where the one compaction stands (Server.compact). While Captured it holds every lock.
  datatype Phase<S> =
    | Idle
    | Captured(base: nat, state: S)
    | Rotated(base: nat, state: S)
    | Removing(base: nat, next: nat)

  datatype Disk<S> = Disk(
    up: bool,
    store: StoreState<S>,
    flushing: bool,          // under `always`, an append keeps the store's mutex until it has synced
    phase: Phase<S>,
    history: seq<Record>,    // every logged record, in log order
    starts: seq<nat>,        // where in history each segment begins
    durable: nat)            // how many records a completed flush has covered

  datatype Action<S> =
    | Log(record: Record)
    | Spill(n: nat)
    | Flush
    | Capture(state: S)
    | Rotate
    | Install
    | Remove
    | Crash
    | PowerFail(cut: map<nat, nat>)
    | Reopen

  ghost function Active<S>(s: Disk<S>): (f: File) {
    if s.store.gen in s.store.segments then s.store.segments[s.store.gen] else File([], 0)
  }

  // The records that recovery replays over the snapshot.
  ghost function Recover<S>(st: StoreState<S>): (r: Replayed) {
    ReplayFrom(st.segments, st.Base(), Highest(st.segments.Keys))
  }

  // How many writes have all their bytes in the files.
  ghost function Survivors<S>(s: Disk<S>): (k: nat)
    requires Placed(s)
  {
    var from := s.starts[s.store.gen];
    from + Whole(s.history[from..], |Active(s).bytes|)
  }

  // The segments' records are consecutive stretches of the history.
  ghost predicate Positions(starts: seq<nat>, n: nat) {
    && |starts| >= 1 && starts[0] == 0
    && (forall i, j :: 0 <= i < j < |starts| ==> starts[i] <= starts[j])
    && starts[|starts| - 1] <= n
  }

  ghost predicate Sealed(history: seq<Record>, starts: seq<nat>, segments: map<nat, File>, g: nat)
    requires Positions(starts, |history|)
  {
    && g + 1 < |starts| && g in segments
    && segments[g].bytes == Segment(history[starts[g]..starts[g + 1]])
  }

  ghost predicate Placed<S>(s: Disk<S>) {
    && Positions(s.starts, |s.history|) && |s.starts| == s.store.gen + 1
    && s.store.gen in s.store.segments
    && (forall g :: g in s.store.segments ==> g <= s.store.gen)
    && s.store.Base() <= s.store.gen
    && (forall g :: s.store.Base() <= g < s.store.gen ==> Sealed(s.history, s.starts, s.store.segments, g))
    && Active(s).bytes <= Segment(s.history[s.starts[s.store.gen]..])
    && (s.up ==> Active(s).bytes + s.store.buffer == Segment(s.history[s.starts[s.store.gen]..]))
  }

  ghost predicate Covered<S>(s: Disk<S>)
    requires Placed(s)
  {
    s.durable <= Survivors(s)
  }

  ghost predicate Phased<S>(s: Disk<S>) {
    match s.phase
    case Idle => true
    case Captured(base, _) => s.up && base == s.store.gen + 1
    case Rotated(base, _) => s.up && base == s.store.gen
    case Removing(base, next) =>
      s.up && s.store.snapshot.Present? && s.store.snapshot.base == base && next <= base
  }

  // Under `always`, everything a finished append wrote has been synced.
  ghost predicate Synced<S>(always: bool, s: Disk<S>)
    requires Placed(s)
  {
    && (forall g :: g in s.store.segments ==> s.store.segments[g].synced <= |s.store.segments[g].bytes|)
    && (always ==>
          && (forall g :: s.store.Base() <= g < s.store.gen && g in s.store.segments ==>
                s.store.segments[g].synced == |s.store.segments[g].bytes|)
          && (s.up && !s.flushing ==> s.store.buffer == [] && Active(s).synced == |Active(s).bytes|)
          && s.durable <= s.starts[s.store.gen] + Whole(s.history[s.starts[s.store.gen]..], Active(s).synced))
  }

  ghost predicate Inv<S>(always: bool, s: Disk<S>) {
    Placed(s) && Covered(s) && Phased(s) && Synced(always, s)
  }

  // Recovery.

  lemma HighestIsGen<S>(s: Disk<S>)
    requires Placed(s)
    ensures Highest(s.store.segments.Keys) == s.store.gen
  {}

  // The active segment gives back its whole records, however the last crash cut it.
  lemma ActiveReplays<S>(s: Disk<S>)
    requires Placed(s)
    ensures s.starts[s.store.gen] <= Survivors(s) <= |s.history|
    ensures Replay(Active(s).bytes) == Replayed(s.history[s.starts[s.store.gen]..Survivors(s)], true)
  {
    var from := s.starts[s.store.gen];
    var tail, bytes := s.history[from..], Active(s).bytes;
    assert bytes == Segment(tail)[..|bytes|];
    TornTail(tail, |bytes|);
    assert tail[..Whole(tail, |bytes|)] == s.history[from..Survivors(s)];
  }

  lemma SegmentsReplay<S>(s: Disk<S>, g: nat)
    requires Placed(s) && s.store.Base() <= g <= s.store.gen
    ensures s.starts[g] <= Survivors(s) <= |s.history|
    ensures ReplayFrom(s.store.segments, g, s.store.gen) == Replayed(s.history[s.starts[g]..Survivors(s)], true)
  {
    ActiveReplays(s);
    StretchesReplay(s.store.segments, s.history, s.starts, g, Survivors(s));
  }

  // Sealed segments, and a last one that replays up to the k-th write.
  lemma {:induction false} StretchesReplay(segments: map<nat, File>, history: seq<Record>, starts: seq<nat>,
        g: nat, k: nat)
    requires Positions(starts, |history|) && g < |starts| && starts[|starts| - 1] <= k <= |history|
    requires forall i :: g <= i < |starts| - 1 ==> Sealed(history, starts, segments, i)
    requires |starts| - 1 in segments
    requires Replay(segments[|starts| - 1].bytes) == Replayed(history[starts[|starts| - 1]..k], true)
    ensures starts[g] <= k
    ensures ReplayFrom(segments, g, |starts| - 1) == Replayed(history[starts[g]..k], true)
    decreases |starts| - g
  {
    var last := |starts| - 1;
    if g == last {
      LastSegment(segments, g);
    } else {
      StretchesReplay(segments, history, starts, g + 1, k);
      SealedStretch(segments, history, starts, g, last, k);
    }
  }

  lemma SealedStretch(segments: map<nat, File>, history: seq<Record>, starts: seq<nat>, g: nat, last: nat, k: nat)
    requires Positions(starts, |history|) && g < last < |starts| && Sealed(history, starts, segments, g)
    requires starts[g + 1] <= k <= |history|
    requires ReplayFrom(segments, g + 1, last) == Replayed(history[starts[g + 1]..k], true)
    ensures starts[g] <= k && ReplayFrom(segments, g, last) == Replayed(history[starts[g]..k], true)
  {
    assert starts[g] <= starts[g + 1];
    SealedThenRest(segments, g, last, history, starts[g], starts[g + 1], k);
  }

  lemma LastSegment(segments: map<nat, File>, g: nat)
    requires g in segments && Replay(segments[g].bytes).ok
    ensures ReplayFrom(segments, g, g) == Replay(segments[g].bytes)
  {
    OneMore(segments, g, g, []);
    var r := Replay(segments[g].bytes);
    assert [] + r.commands + [] == r.commands;
    assert [] + ReplayFrom(segments, g, g).commands == ReplayFrom(segments, g, g).commands;
  }

  lemma SealedThenRest(segments: map<nat, File>, g: nat, highest: nat, h: seq<Record>, a: nat, b: nat, k: nat)
    requires g < highest && a <= b <= k <= |h|
    requires g in segments && segments[g].bytes == Segment(h[a..b])
    requires ReplayFrom(segments, g + 1, highest) == Replayed(h[b..k], true)
    ensures ReplayFrom(segments, g, highest) == Replayed(h[a..k], true)
  {
    ReplayWhole(h[a..b]);
    OneMore(segments, g, highest, []);
    NoPrefix(ReplayFrom(segments, g, highest).commands);
    JoinSlices(h, a, b, k);
  }

  lemma NoPrefix(cs: seq<Command>)
    ensures [] + cs == cs
  {
  }

  lemma JoinSlices(h: seq<Command>, a: nat, b: nat, k: nat)
    requires a <= b <= k <= |h|
    ensures [] + h[a..b] + h[b..k] == h[a..k]
  {
  }

  // Every record up to some point, at least every flushed one, comes back exactly once:
  // those before the snapshot's base through the snapshot, the rest through the log.
  lemma Recoverable<S>(always: bool, s: Disk<S>)
    requires Inv(always, s)
    ensures s.starts[s.store.Base()] <= Survivors(s) && s.durable <= Survivors(s) <= |s.history|
    ensures Recover(s.store) == Replayed(s.history[s.starts[s.store.Base()]..Survivors(s)], true)
  {
    HighestIsGen(s);
    SegmentsReplay(s, s.store.Base());
  }

  // The steps.

  ghost predicate Enabled<S>(always: bool, s: Disk<S>, a: Action<S>) {
    match a
    case Log(_) => s.up && !s.flushing
    case Spill(n) => s.up && s.store.gen in s.store.segments && n <= |s.store.buffer|
    case Flush => s.up && s.store.gen in s.store.segments
    case Capture(_) => s.up && s.phase.Idle?
    case Rotate => s.up && s.phase.Captured? && !s.flushing && s.store.gen in s.store.segments
    case Install => s.up && s.phase.Rotated?
    case Remove => s.up && s.phase.Removing?
    case Crash => s.up
    // A power failure may cut each file anywhere past its synced part. Without `always` it
    // can tear a rotated segment; see PowerFailureLeavesAHole.
    case PowerFail(cut) => always && CutsUnsynced(s.store.segments, cut)
    // The reopened segment must end on a record boundary (and be synced, under `always`).
    case Reopen => !s.up && Placed(s) && EndsOnBoundary(always, s)
  }

  ghost predicate CutsUnsynced(segments: map<nat, File>, cut: map<nat, nat>) {
    cut.Keys == segments.Keys && forall g :: g in cut ==> segments[g].synced <= cut[g] <= |segments[g].bytes|
  }

  ghost function CutFiles(segments: map<nat, File>, cut: map<nat, nat>): (r: map<nat, File>)
    requires CutsUnsynced(segments, cut)
  {
    map g | g in segments :: File(segments[g].bytes[..cut[g]], cut[g])
  }

  ghost predicate EndsOnBoundary<S>(always: bool, s: Disk<S>)
    requires Placed(s)
  {
    && Active(s).bytes == Segment(s.history[s.starts[s.store.gen]..Survivors(s)])
    && (always ==> Active(s).synced == |Active(s).bytes|)
  }

  ghost function Down<S>(s: Disk<S>): (r: Disk<S>) {
    s.(up := false, store := s.store.(buffer := []), flushing := false, phase := Idle)
  }

  ghost function Apply<S>(always: bool, s: Disk<S>, a: Action<S>): (r: Disk<S>)
    requires Enabled(always, s, a)
  {
    match a
    case Log(c) => s.(store := s.store.Appended(c), flushing := always, history := s.history + [c])
    case Spill(n) => s.(store := s.store.Spilled(n))
    case Flush => s.(store := s.store.Flushed(), flushing := false, durable := |s.history|)
    case Capture(state) => s.(phase := Captured(s.store.gen + 1, state))
    case Rotate =>
      s.(store := s.store.Rotated(), phase := Rotated(s.phase.base, s.phase.state), starts := s.starts + [|s.history|])
    case Install =>
      s.(store := s.store.(snapshot := Present(s.phase.base, s.phase.state)), phase := Removing(s.phase.base, 0))
    case Remove =>
      if s.phase.next == s.phase.base then s.(phase := Idle)
      else s.(store := s.store.Without(s.phase.next), phase := s.phase.(next := s.phase.next + 1))
    case Crash => Down(s)
    case PowerFail(cut) => Down(s.(store := s.store.(segments := CutFiles(s.store.segments, cut))))
    case Reopen => Reopened(s)
  }

  // Open: what the crash took out of the log is gone for good.
  ghost function Reopened<S>(s: Disk<S>): (r: Disk<S>)
    requires Placed(s)
  {
    var k := Survivors(s);
    s.(up := true, flushing := false, store := s.store.OpenedAt(s.store.OpenGen()),
       history := if k <= |s.history| then s.history[..k] else s.history)
  }

  // Each step keeps the invariant.

  // Sealed segments do not depend on what is logged after them.
  lemma StillSealed(h: seq<Record>, h': seq<Record>, starts: seq<nat>, segments: map<nat, File>, g: nat)
    requires Positions(starts, |h|) && Positions(starts, |h'|)
    requires h[..starts[|starts| - 1]] == h'[..starts[|starts| - 1]]
    requires Sealed(h, starts, segments, g)
    ensures Sealed(h', starts, segments, g)
  {
    assert starts[g + 1] <= starts[|starts| - 1];
    SameSlice(h, h', starts[|starts| - 1], starts[g], starts[g + 1]);
  }

  lemma SameSlice(h: seq<Record>, h': seq<Record>, n: nat, a: nat, b: nat)
    requires a <= b <= n && n <= |h| && n <= |h'| && h[..n] == h'[..n]
    ensures h[a..b] == h'[a..b]
  {
    assert h[a..b] == h[..n][a..b];
    assert h'[a..b] == h'[..n][a..b];
  }

  // The parts of the invariant about the directory see only the store and the history.
  lemma SameDirectory<S>(always: bool, s: Disk<S>, r: Disk<S>)
    requires Placed(s) && Covered(s) && Synced(always, s)
    requires r.store == s.store && r.history == s.history && r.starts == s.starts && r.durable == s.durable
    requires r.up == s.up && r.flushing == s.flushing
    ensures Placed(r) && Covered(r) && Synced(always, r)
  {}

  lemma RemovePlaced<S>(always: bool, s: Disk<S>, r: Disk<S>, g: nat)
    requires Placed(s) && g < s.store.Base() && r == s.(store := s.store.Without(g), phase := r.phase)
    requires Covered(s) && Synced(always, s)
    ensures Placed(r) && Covered(r) && Synced(always, r)
  {
    forall h | r.store.Base() <= h < r.store.gen ensures Sealed(r.history, r.starts, r.store.segments, h) {
      assert Sealed(s.history, s.starts, s.store.segments, h);
    }
  }

  lemma LogPlaced<S>(always: bool, s: Disk<S>, r: Disk<S>, c: Record)
    requires Placed(s) && s.up
    requires r == s.(store := s.store.Appended(c), flushing := r.flushing, history := s.history + [c])
    requires Covered(s) && Synced(always, s) && (always ==> r.flushing)
    ensures Placed(r) && Covered(r) && Synced(always, r)
  {
    var from := s.starts[s.store.gen];
    assert s.history[..from] == r.history[..from] && r.history[from..] == s.history[from..] + [c];
    forall g | r.store.Base() <= g < r.store.gen ensures Sealed(r.history, r.starts, r.store.segments, g) {
      StillSealed(s.history, r.history, s.starts, s.store.segments, g);
    }
    SegmentAppend(s.history[from..], c);
    Packs.Associative(Active(s).bytes, s.store.buffer, Encode(c));
    WholeExtends(s.history[from..], [c], |Active(s).bytes|);
    WholeExtends(s.history[from..], [c], Active(s).synced);
  }

  // Steps that only move bytes from the buffer to the active file.
  lemma WritePlaced<S>(s: Disk<S>, r: Disk<S>, f: File)
    requires Placed(s) && s.up && r.up && r.store == s.store.Put(f).(buffer := r.store.buffer)
    requires r.history == s.history && r.starts == s.starts
    requires f.bytes + r.store.buffer == Active(s).bytes + s.store.buffer && |Active(s).bytes| <= |f.bytes|
    ensures Placed(r) && Active(r) == f && Survivors(s) <= Survivors(r)
  {
    var from := s.starts[s.store.gen];
    forall g | r.store.Base() <= g < r.store.gen ensures Sealed(r.history, r.starts, r.store.segments, g) {
      assert Sealed(s.history, s.starts, s.store.segments, g);
    }
    assert f.bytes <= Segment(s.history[from..]);
    WholeMonotone(s.history[from..], |Active(s).bytes|, |f.bytes|);
  }

  // What rotation leaves: the old segment whole, a new empty one, everything else as it was.
  lemma RotatedFiles<S>(st: StoreState<S>)
    requires st.gen in st.segments && st.gen + 1 !in st.segments
    ensures
      var r, f := st.Rotated(), st.segments[st.gen];
      && r.gen == st.gen + 1 && r.buffer == [] && r.snapshot == st.snapshot
      && r.segments == st.segments[st.gen := File(f.bytes + st.buffer, f.synced)][st.gen + 1 := File([], 0)]
  {
    assert st.buffer[..|st.buffer|] == st.buffer;
  }

  lemma RotatePlaced<S>(s: Disk<S>, r: Disk<S>)
    requires Placed(s) && s.up && r.up
    requires r.store == s.store.Rotated() && r.history == s.history && r.starts == s.starts + [|s.history|]
    ensures Placed(r) && Survivors(r) == |s.history|
  {
    RotatedFiles(s.store);
    var gen := s.store.gen;
    assert s.history[s.starts[gen]..] == s.history[s.starts[gen]..|s.history|];
    forall g | r.store.Base() <= g < r.store.gen ensures Sealed(r.history, r.starts, r.store.segments, g) {
      if g < gen {
        assert Sealed(s.history, s.starts, s.store.segments, g);
      }
    }
  }

  lemma RotateBounds<S>(s: Disk<S>, r: Disk<S>)
    requires Placed(s) && r.store == s.store.Rotated()
    requires forall g :: g in s.store.segments ==> s.store.segments[g].synced <= |s.store.segments[g].bytes|
    ensures forall g :: g in r.store.segments ==> r.store.segments[g].synced <= |r.store.segments[g].bytes|
  {
    RotatedFiles(s.store);
  }

  // With nothing buffered and the old segment synced, the rotated segments are synced.
  lemma RotateAlways<S>(s: Disk<S>, r: Disk<S>)
    requires Placed(s) && r.store == s.store.Rotated() && s.store.buffer == []
    requires Active(s).synced == |Active(s).bytes|
    requires forall g :: s.store.Base() <= g < s.store.gen && g in s.store.segments ==>
      s.store.segments[g].synced == |s.store.segments[g].bytes|
    ensures forall g :: r.store.Base() <= g < r.store.gen && g in r.store.segments ==>
      r.store.segments[g].synced == |r.store.segments[g].bytes|
  {
    RotatedFiles(s.store);
  }

  lemma RotateSynced<S>(always: bool, s: Disk<S>, r: Disk<S>)
    requires Placed(s) && Covered(s) && Synced(always, s) && s.up && !s.flushing
    requires r.store == s.store.Rotated() && r.history == s.history && r.starts == s.starts + [|s.history|]
    requires r.up && r.durable == s.durable && Placed(r) && Survivors(r) == |s.history|
    ensures Covered(r) && Synced(always, r)
  {
    ActiveReplays(s);
    RotateBounds(s, r);
    RotatedFiles(s.store);
    if always {
      RotateAlways(s, r);
    }
  }

  lemma SpillSynced<S>(always: bool, s: Disk<S>, r: Disk<S>, n: nat)
    requires Placed(s) && Covered(s) && Synced(always, s) && s.up && n <= |s.store.buffer|
    requires r == s.(store := s.store.Spilled(n))
    ensures Placed(r) && Covered(r) && Synced(always, r)
  {
    assert s.store.buffer == s.store.buffer[..n] + s.store.buffer[n..];
    WritePlaced(s, r, File(Active(s).bytes + s.store.buffer[..n], Active(s).synced));
  }

  lemma FlushSynced<S>(always: bool, s: Disk<S>, r: Disk<S>)
    requires Placed(s) && Synced(always, s) && s.up
    requires r == s.(store := s.store.Flushed(), flushing := false, durable := |s.history|)
    ensures Placed(r) && Covered(r) && Synced(always, r)
  {
    var bytes := Active(s).bytes + s.store.buffer;
    assert bytes + [] == bytes;
    WritePlaced(s, r, File(bytes, |bytes|));
    WholeAll(s.history[s.starts[s.store.gen]..]);
  }

  lemma PowerFailPlaced<S>(s: Disk<S>, cut: map<nat, nat>, r: Disk<S>)
    requires Placed(s) && Covered(s) && Synced(true, s) && CutsUnsynced(s.store.segments, cut)
    requires r == Down(s.(store := s.store.(segments := CutFiles(s.store.segments, cut))))
    ensures Placed(r) && Covered(r) && Synced(true, r)
  {
    var gen := s.store.gen;
    forall g | r.store.Base() <= g < r.store.gen ensures Sealed(r.history, r.starts, r.store.segments, g) {
      assert Sealed(s.history, s.starts, s.store.segments, g);
      var b := s.store.segments[g].bytes;
      assert cut[g] == |b| && b[..cut[g]] == b;
    }
    WholeMonotone(s.history[s.starts[gen]..], Active(s).synced, cut[gen]);
  }

  // Open picks the generation that was active, and creates nothing.
  lemma OpenIsIdentity<S>(s: Disk<S>)
    requires Placed(s)
    ensures s.store.OpenedAt(s.store.OpenGen()) == s.store.(buffer := [])
  {
    HighestIsGen(s);
    assert s.store.segments[s.store.gen := s.store.segments[s.store.gen]] == s.store.segments;
  }

  lemma RestartPlaced<S>(s: Disk<S>, r: Disk<S>)
    requires Placed(s) && s.starts[s.store.gen] <= Survivors(s) <= |s.history|
    requires Active(s).bytes == Segment(s.history[s.starts[s.store.gen]..Survivors(s)])
    requires r.store == s.store.(buffer := []) && r.history == s.history[..Survivors(s)] && r.starts == s.starts
    ensures Placed(r) && Survivors(r) == |r.history| && Active(r) == Active(s)
    ensures r.history[s.starts[s.store.gen]..] == s.history[s.starts[s.store.gen]..Survivors(s)]
    ensures s.history[..s.starts[s.store.gen]] == r.history[..s.starts[s.store.gen]]
  {
    var from, k := s.starts[s.store.gen], Survivors(s);
    assert s.history[..from] == r.history[..from];
    assert r.history[from..] == s.history[from..k];
    forall g | r.store.Base() <= g < r.store.gen ensures Sealed(r.history, r.starts, r.store.segments, g) {
      StillSealed(s.history, r.history, s.starts, s.store.segments, g);
    }
    assert Active(r).bytes + [] == Active(r).bytes;
    WholeAll(r.history[from..]);
  }

  lemma RestartSynced<S>(always: bool, s: Disk<S>, r: Disk<S>)
    requires Placed(s) && Covered(s) && Synced(always, s) && (always ==> Active(s).synced == |Active(s).bytes|)
    requires Placed(r) && r.store == s.store.(buffer := []) && r.starts == s.starts && r.durable == s.durable
    requires Active(r) == Active(s) && Survivors(r) == |r.history| == Survivors(s)
    ensures Covered(r) && Synced(always, r)
  {}

  lemma ReopenKeeps<S>(always: bool, s: Disk<S>)
    requires Inv(always, s) && Enabled(always, s, Reopen)
    ensures Inv(always, Apply(always, s, Reopen))
    ensures Survivors(s) <= |s.history| && s.starts[s.store.gen] <= Survivors(s)
    ensures Apply(always, s, Reopen)
      == s.(up := true, flushing := false, store := s.store.(buffer := []), history := s.history[..Survivors(s)])
  {
    OpenIsIdentity(s);
    ActiveReplays(s);
    var r := Apply(always, s, Reopen);
    RestartPlaced(s, r);
    RestartSynced(always, s, r);
  }

  lemma InstallKeeps<S>(always: bool, s: Disk<S>)
    requires Inv(always, s) && Enabled(always, s, Install)
    ensures Inv(always, Apply(always, s, Install))
  {
  }

  lemma CrashKeeps<S>(always: bool, s: Disk<S>)
    requires Inv(always, s) && Enabled(always, s, Crash)
    ensures Inv(always, Apply(always, s, Crash))
  {
  }

  lemma StepKeeps<S>(always: bool, s: Disk<S>, a: Action<S>)
    requires Inv(always, s) && Enabled(always, s, a)
    ensures Inv(always, Apply(always, s, a))
  {
    var r := Apply(always, s, a);
    match a
    case Log(c) => LogPlaced(always, s, r, c);
    case Spill(n) => SpillSynced(always, s, r, n);
    case Flush => FlushSynced(always, s, r);
    case Capture(_) => SameDirectory(always, s, r);
    case Rotate =>
      RotatePlaced(s, r);
      RotateSynced(always, s, r);
    case Install => InstallKeeps(always, s);
    case Remove =>
      if s.phase.next == s.phase.base {
        SameDirectory(always, s, r);
      } else {
        RemovePlaced(always, s, r, s.phase.next);
      }
    case Crash => CrashKeeps(always, s);
    case PowerFail(cut) => PowerFailPlaced(s, cut, r);
    case Reopen => ReopenKeeps(always, s);
  }

  // Whole runs.

  // A store opened on an empty directory.
  ghost function Fresh<S>(): (s: Disk<S>) {
    Disk(true, StoreState(0, [], map[0 := File([], 0)], Absent), false, Idle, [], [0], 0)
  }

  lemma FreshInv<S>(always: bool)
    ensures Inv(always, Fresh<S>())
  {
  }

  // The state after a run of actions, if every one of them was possible.
  ghost predicate Reaches<S(!new)>(always: bool, run: seq<Action<S>>, s: Disk<S>)
    decreases |run|
  {
    if run == [] then s == Fresh()
    else
      var k := |run| - 1;
      exists prev :: Reaches(always, run[..k], prev) && Enabled(always, prev, run[k])
        && s == Apply(always, prev, run[k])
  }

  lemma {:induction false} ReachableInv<S(!new)>(always: bool, run: seq<Action<S>>, s: Disk<S>)
    requires Reaches(always, run, s)
    ensures Inv(always, s)
    decreases |run|
  {
    if run != [] {
      var k := |run| - 1;
      var prev :| Reaches(always, run[..k], prev) && Enabled(always, prev, run[k])
        && s == Apply(always, prev, run[k]);
      ReachableInv(always, run[..k], prev);
      StepKeeps(always, prev, run[k]);
    }
  }

  // Crash safety: stop any run at any point, and recovery succeeds and hands back, after the
  // snapshot's base, exactly the records of some prefix of the log that holds every flushed one.
  lemma CrashSafety<S(!new)>(always: bool, run: seq<Action<S>>, s: Disk<S>)
    requires Reaches(always, run, s)
    ensures Placed(s) && s.starts[s.store.Base()] <= Survivors(s)
    ensures s.durable <= Survivors(s) <= |s.history|
    ensures Recover(s.store) == Replayed(s.history[s.starts[s.store.Base()]..Survivors(s)], true)
  {
    ReachableInv(always, run, s);
    Recoverable(always, s);
  }

  // Runs that go on from some state.
  ghost predicate Follows<S(!new)>(always: bool, s: Disk<S>, run: seq<Action<S>>, r: Disk<S>)
    decreases |run|
  {
    if run == [] then r == s
    else
      var k := |run| - 1;
      exists mid :: Follows(always, s, run[..k], mid) && Enabled(always, mid, run[k]) && r == Apply(always, mid, run[k])
  }

  // The records a run appends, in order.
  function Logged<S>(run: seq<Action<S>>): (r: seq<Record>) {
    if run == [] then []
    else
      var k := |run| - 1;
      Logged(run[..k]) + if run[k].Log? then [run[k].record] else []
  }

  // Until a restart, the log is what was appended, in order.
  lemma {:induction false} LogIsAppended<S(!new)>(always: bool, s: Disk<S>, run: seq<Action<S>>, r: Disk<S>)
    requires Follows(always, s, run, r) && forall i :: 0 <= i < |run| ==> !run[i].Reopen?
    ensures r.history == s.history + Logged(run)
    decreases |run|
  {
    if run != [] {
      var k := |run| - 1;
      var mid :| Follows(always, s, run[..k], mid) && Enabled(always, mid, run[k]) && r == Apply(always, mid, run[k]);
      LogIsAppended(always, s, run[..k], mid);
      StepAppends(always, mid, run[k]);
      Behind(s.history, Logged(run[..k]), if run[k].Log? then [run[k].record] else []);
    }
  }

  lemma Behind(a: seq<Record>, b: seq<Record>, c: seq<Record>)
    ensures a + b + c == a + (b + c)
  {
  }

  lemma StepAppends<S>(always: bool, s: Disk<S>, a: Action<S>)
    requires Enabled(always, s, a) && !a.Reopen?
    ensures Apply(always, s, a).history == s.history + if a.Log? then [a.record] else []
  {
  }

  // The first n records are flushed.
  ghost predicate Safe<S>(always: bool, s: Disk<S>, h: seq<Record>) {
    Inv(always, s) && h <= s.history && |h| <= s.durable
  }

  lemma StepKeepsSafe<S>(always: bool, s: Disk<S>, a: Action<S>, h: seq<Record>)
    requires Safe(always, s, h) && Enabled(always, s, a)
    ensures Safe(always, Apply(always, s, a), h)
  {
    StepKeeps(always, s, a);
    Recoverable(always, s);
  }

  lemma {:induction false} SafeForGood<S(!new)>(
        always: bool, s: Disk<S>, run: seq<Action<S>>, r: Disk<S>, h: seq<Record>)
    requires Safe(always, s, h) && Follows(always, s, run, r)
    ensures Safe(always, r, h)
    decreases |run|
  {
    if run != [] {
      var k := |run| - 1;
      var mid :| Follows(always, s, run[..k], mid) && Enabled(always, mid, run[k]) && r == Apply(always, mid, run[k]);
      SafeForGood(always, s, run[..k], mid, h);
      StepKeepsSafe(always, mid, run[k], h);
    }
  }

  // What was logged before a flush is there for good: whatever runs after it, crashes and
  // restarts included, and wherever that stops, recovery has every one of those records.
  lemma FlushedSurvives<S(!new)>(always: bool, run: seq<Action<S>>, s: Disk<S>, more: seq<Action<S>>, r: Disk<S>)
    requires Reaches(always, run, s) && Enabled(always, s, Flush) && Follows(always, Apply(always, s, Flush), more, r)
    ensures Placed(r) && Survivors(r) <= |r.history| && s.history <= r.history[..Survivors(r)]
    ensures r.starts[r.store.Base()] <= Survivors(r)
    ensures Recover(r.store) == Replayed(r.history[r.starts[r.store.Base()]..Survivors(r)], true)
  {
    ReachableInv(always, run, s);
    StepKeeps(always, s, Flush);
    SafeForGood(always, Apply(always, s, Flush), more, r, s.history);
    Recoverable(always, r);
  }
}
