// Power failures without `always`. Rotate flushes a segment but does not sync it, so a
// power failure can tear a hole in the middle of the log.
module PowerLoss {
  import opened AppendLog
  import opened Stores
  import opened Durability

  ghost function Records<S>(s: Disk<S>, g: nat): (r: seq<Record>)
    requires Placed(s) && g <= s.store.gen
    ensures s.starts[g] <= |s.history|
    ensures |r| == (if g < s.store.gen then s.starts[g + 1] else |s.history|) - s.starts[g]
  {
    if g < s.store.gen then s.history[s.starts[g]..s.starts[g + 1]] else s.history[s.starts[g]..]
  }

  // Every file that recovery reads holds exactly its stretch of the history.
  ghost predicate AllWritten<S>(s: Disk<S>) {
    && Placed(s)
    && Active(s).bytes == Segment(s.history[s.starts[s.store.gen]..])
    && forall g :: g in s.store.segments ==> s.store.segments[g].synced <= |s.store.segments[g].bytes|
  }

  lemma FileHoldsRecords<S>(s: Disk<S>, g: nat)
    requires AllWritten(s) && s.store.Base() <= g <= s.store.gen
    ensures g in s.store.segments && s.store.segments[g].bytes == Segment(Records(s, g))
  {
    if g < s.store.gen {
      assert Sealed(s.history, s.starts, s.store.segments, g);
    }
  }

  // Cutting a file inside its last record loses a record.
  lemma CutLosesLast(cs: seq<Record>, k: nat)
    requires k < |Segment(cs)|
    ensures Whole(cs, k) < |cs|
  {
    assert cs[..|cs|] == cs;
    WholeIs(cs, k);
  }

  // File k replays to at most its stretch of the log, and to less of it if it is file g.
  ghost predicate Short(files: map<nat, File>, ends: seq<nat>, g: nat, k: nat)
    requires k + 1 < |ends|
  {
    var r := Replayable(files, k);
    r.ok && ends[k] + |r.commands| <= ends[k + 1] && (k == g ==> ends[k] + |r.commands| < ends[k + 1])
  }

  lemma {:induction false} ShortReplay(files: map<nat, File>, ends: seq<nat>, g: nat, h: nat, highest: nat)
    requires h <= highest + 1 && |ends| == highest + 2
    requires forall k :: h <= k <= highest ==> Short(files, ends, g, k)
    ensures
      var r := ReplayFrom(files, h, highest);
      && r.ok && ends[h] + |r.commands| <= ends[highest + 1]
      && (h <= g <= highest ==> ends[h] + |r.commands| < ends[highest + 1])
    decreases highest + 1 - h
  {
    if h <= highest {
      assert Short(files, ends, g, h);
      ShortReplay(files, ends, g, h + 1, highest);
      JoinLengths(files, h, highest);
    }
  }

  lemma JoinLengths(files: map<nat, File>, h: nat, highest: nat)
    requires h <= highest && Replayable(files, h).ok
    ensures var all, more := ReplayFrom(files, h, highest), ReplayFrom(files, h + 1, highest);
      all.ok == more.ok && |all.commands| == |Replayable(files, h).commands| + |more.commands|
  {}

  // Where each segment's stretch of the log begins, and where the last one ends.
  ghost function Ends<S>(s: Disk<S>): (r: seq<nat>) {
    s.starts + [|s.history|]
  }

  lemma CutIsShort<S>(s: Disk<S>, cut: map<nat, nat>, g: nat, k: nat)
    requires AllWritten(s) && CutsUnsynced(s.store.segments, cut)
    requires s.store.Base() <= k <= s.store.gen
    requires g in cut && g in s.store.segments && cut[g] < |s.store.segments[g].bytes|
    ensures k + 1 < |Ends(s)| && Short(CutFiles(s.store.segments, cut), Ends(s), g, k)
  {
    CutFileReplays(s, cut, k);
  }

  // A file cut short among those recovery reads leaves it with fewer records.
  lemma CutReplayShorter<S>(s: Disk<S>, cut: map<nat, nat>, g: nat)
    requires AllWritten(s) && CutsUnsynced(s.store.segments, cut) && s.store.Base() <= g <= s.store.gen
    requires g in cut && g in s.store.segments && cut[g] < |s.store.segments[g].bytes|
    ensures s.starts[s.store.Base()] <= |s.history|
    ensures |ReplayFrom(CutFiles(s.store.segments, cut), s.store.Base(), s.store.gen).commands|
      < |s.history| - s.starts[s.store.Base()]
  {
    forall k | s.store.Base() <= k <= s.store.gen
      ensures Short(CutFiles(s.store.segments, cut), Ends(s), g, k)
    {
      CutIsShort(s, cut, g, k);
    }
    ShortReplay(CutFiles(s.store.segments, cut), Ends(s), g, s.store.Base(), s.store.gen);
  }

  lemma CutFileReplays<S>(s: Disk<S>, cut: map<nat, nat>, h: nat)
    requires AllWritten(s) && CutsUnsynced(s.store.segments, cut)
    requires s.store.Base() <= h <= s.store.gen
    ensures h in cut && h in s.store.segments
    ensures var r, n := Replayable(CutFiles(s.store.segments, cut), h), |Records(s, h)|;
      r.ok && |r.commands| <= n && (cut[h] < |s.store.segments[h].bytes| ==> |r.commands| < n)
  {
    var records := Records(s, h);
    FileHoldsRecords(s, h);
    TornTail(records, cut[h]);
    assert CutFiles(s.store.segments, cut)[h].bytes == Segment(records)[..cut[h]];
    if cut[h] < |s.store.segments[h].bytes| {
      CutLosesLast(records, cut[h]);
    }
  }

  lemma UncutReplaysAll<S>(s: Disk<S>, files: map<nat, File>, h: nat)
    requires AllWritten(s) && s.store.Base() <= h <= s.store.gen
    requires forall g :: h <= g <= s.store.gen ==>
      g in files && g in s.store.segments && files[g].bytes == s.store.segments[g].bytes
    ensures s.starts[h] <= |s.history|
    ensures ReplayFrom(files, h, s.store.gen) == Replayed(s.history[s.starts[h]..], true)
  {
    forall g | h <= g < s.store.gen ensures Sealed(s.history, s.starts, files, g) {
      assert Sealed(s.history, s.starts, s.store.segments, g);
    }
    TailReplays(s.history, s.starts[s.store.gen]);
    StretchesReplay(files, s.history, s.starts, h, |s.history|);
    ToTheEnd(s.history, s.starts[h]);
  }

  lemma ToTheEnd(history: seq<Record>, a: nat)
    requires a <= |history|
    ensures history[a..] == history[a..|history|]
  {
  }

  lemma TailReplays(history: seq<Record>, a: nat)
    requires a <= |history|
    ensures Replay(Segment(history[a..])) == Replayed(history[a..|history|], true)
  {
    ToTheEnd(history, a);
    ReplayWhole(history[a..]);
  }

  // After a flush, every power failure leaves every flushed write recoverable exactly when
  // the rotated segments that recovery reads have been synced.
  lemma FlushedWritesSurviveIff<S>(s: Disk<S>)
    requires AllWritten(s) && Active(s).synced == |Active(s).bytes|
    ensures s.starts[s.store.Base()] <= |s.history|
    ensures (forall cut :: CutsUnsynced(s.store.segments, cut) ==>
               ReplayFrom(CutFiles(s.store.segments, cut), s.store.Base(), s.store.gen)
                 == Replayed(s.history[s.starts[s.store.Base()]..], true))
            <==> (forall g :: s.store.Base() <= g < s.store.gen ==> RotatedSynced(s, g))
  {
    var base, gen, segments := s.store.Base(), s.store.gen, s.store.segments;
    if forall g :: base <= g < gen ==> RotatedSynced(s, g) {
      forall cut | CutsUnsynced(segments, cut)
        ensures ReplayFrom(CutFiles(segments, cut), base, gen) == Replayed(s.history[s.starts[base]..], true)
      {
        SyncedFilesUncut(s, cut);
        UncutReplaysAll(s, CutFiles(segments, cut), base);
      }
    } else {
      var g :| base <= g < gen && !RotatedSynced(s, g);
      FileHoldsRecords(s, g);
      var cut := map h | h in segments :: if h == g then segments[h].synced else |segments[h].bytes|;
      assert CutsUnsynced(segments, cut);
      CutReplayShorter(s, cut, g);
    }
  }

  ghost predicate RotatedSynced<S>(s: Disk<S>, g: nat) {
    g in s.store.segments && s.store.segments[g].synced == |s.store.segments[g].bytes|
  }

  lemma SyncedFilesUncut<S>(s: Disk<S>, cut: map<nat, nat>)
    requires AllWritten(s) && Active(s).synced == |Active(s).bytes| && CutsUnsynced(s.store.segments, cut)
    requires forall g :: s.store.Base() <= g < s.store.gen ==> RotatedSynced(s, g)
    ensures forall g :: s.store.Base() <= g <= s.store.gen ==>
      g in s.store.segments && CutFiles(s.store.segments, cut)[g].bytes == s.store.segments[g].bytes
  {
    forall g | s.store.Base() <= g <= s.store.gen
      ensures g in s.store.segments && CutFiles(s.store.segments, cut)[g].bytes == s.store.segments[g].bytes
    {
      if g < s.store.gen {
        assert RotatedSynced(s, g);
      }
      var b := s.store.segments[g].bytes;
      assert cut[g] == |b| && b[..cut[g]] == b;
    }
  }

  lemma ReachesStep<S(!new)>(always: bool, run: seq<Action<S>>, s: Disk<S>, a: Action<S>)
    requires Reaches(always, run, s) && Enabled(always, s, a)
    ensures Reaches(always, run + [a], Apply(always, s, a))
  {
    assert (run + [a])[..|run|] == run;
  }

  // A write is logged; a compaction rotates; a second write is logged and flushed. The
  // power then fails before the snapshot is installed: the first segment was never synced,
  // and recovery brings back the second write without the first.
  lemma PowerFailureLeavesAHole<S(!new)>(state: S, c: Record, d: Record)
    ensures exists run, s: Disk<S>, cut ::
      && Reaches(false, run, s) && s.history == [c, d] && s.durable == 2
      && s.store.Base() == 0 && s.store.gen == 1 && CutsUnsynced(s.store.segments, cut)
      && ReplayFrom(CutFiles(s.store.segments, cut), 0, 1) == Replayed([d], true)
  {
    var run, s := RotateThenFlush(state, c, d);
    var cut := CutFirst(c, d);
    assert Reaches(false, run, s) && CutsUnsynced(s.store.segments, cut);
  }

  lemma CutFirst(c: Record, d: Record) returns (cut: map<nat, nat>)
    ensures var segments := map[0 := File(Encode(c), 0), 1 := File(Encode(d), |Encode(d)|)];
      CutsUnsynced(segments, cut) && ReplayFrom(CutFiles(segments, cut), 0, 1) == Replayed([d], true)
  {
    cut := map[0 := 0, 1 := |Encode(d)|];
    var segments := map[0 := File(Encode(c), 0), 1 := File(Encode(d), |Encode(d)|)];
    assert Encode(d)[..|Encode(d)|] == Encode(d);
    assert CutFiles(segments, cut) == map[0 := File([], 0), 1 := File(Encode(d), |Encode(d)|)];
    HoleAfterCut(CutFiles(segments, cut), d);
  }

  lemma RotateThenFlush<S(!new)>(state: S, c: Record, d: Record) returns (run: seq<Action<S>>, s: Disk<S>)
    ensures Reaches(false, run, s) && s.history == [c, d] && s.durable == 2
    ensures s.store == StoreState(1, [], map[0 := File(Encode(c), 0), 1 := File(Encode(d), |Encode(d)|)], Absent)
  {
    run, s := [], Fresh();
    run, s := Then(run, s, Log(c));
    run, s := Then(run, s, Capture(state));
    run, s := Then(run, s, Rotate);
    TwoSegments<S>(c, d);
    run, s := Then(run, s, Log(d));
    run, s := Then(run, s, Flush);
  }

  lemma Then<S(!new)>(run: seq<Action<S>>, s: Disk<S>, a: Action<S>) returns (run': seq<Action<S>>, s': Disk<S>)
    requires Reaches(false, run, s) && Enabled(false, s, a)
    ensures Reaches(false, run', s') && s' == Apply(false, s, a)
  {
    ReachesStep(false, run, s, a);
    run', s' := run + [a], Apply(false, s, a);
  }

  // What those steps do to the directory.
  lemma TwoSegments<S>(c: Record, d: Record)
    ensures var st: StoreState<S> := StoreState(0, [], map[0 := File([], 0)], Absent);
      && st.Appended(c).Rotated().gen in st.Appended(c).Rotated().Appended(d).segments
      && st.Appended(c).Rotated().Appended(d).Flushed()
         == StoreState(1, [], map[0 := File(Encode(c), 0), 1 := File(Encode(d), |Encode(d)|)], Absent)
  {
    var st: StoreState<S> := StoreState(0, [], map[0 := File([], 0)], Absent);
    var a := st.Appended(c);
    assert a.buffer == Encode(c) && a.buffer[..|a.buffer|] == a.buffer;
    var b := a.Rotated();
    assert b == StoreState(1, [], map[0 := File(Encode(c), 0), 1 := File([], 0)], Absent);
    var e := b.Appended(d);
    assert e.buffer == Encode(d) && [] + Encode(d) == Encode(d);
    assert e.Flushed().segments == map[0 := File(Encode(c), 0), 1 := File(Encode(d), |Encode(d)|)];
  }

  lemma HoleAfterCut(files: map<nat, File>, d: Record)
    requires files == map[0 := File([], 0), 1 := File(Encode(d), |Encode(d)|)]
    ensures ReplayFrom(files, 0, 1) == Replayed([d], true)
  {
    var ds: seq<Record> := [d];
    assert Segment(ds) == Encode(d);
    ReplayWhole(ds);
    LastSegment(files, 1);
    SealedThenRest(files, 0, 1, ds, 0, 0, 1);
  }
}
