// The on-disk store (internal/persistence/appendlog.go, recover.go): generation-numbered
// log segments and a snapshot that records the generation it covers. S is what a
// snapshot holds.
module Stores {
  import opened ByteStrings
  import opened AppendLog

  // A segment file; its first `synced` bytes survive a power failure.
  datatype File = File(bytes: Bytes, synced: nat)

  datatype Snapshot<S> = Absent | Present(base: nat, state: S)

  // The store's fields together with its directory.
  datatype StoreState<S> = StoreState(gen: nat, buffer: Bytes, segments: map<nat, File>, snapshot: Snapshot<S>) {
    function Base(): (g: nat) {
      if snapshot.Present? then snapshot.base else 0
    }

    // The generation Open makes active.
    ghost function OpenGen(): (g: nat) {
      var h := Highest(segments.Keys);
      if Base() > h then Base() else h
    }

    function Put(f: File): (r: StoreState<S>) {
      this.(segments := segments[gen := f])
    }

    function Appended(c: Record): (r: StoreState<S>) {
      this.(buffer := buffer + Encode(c))
    }

    // The buffered writer may pass any part of its buffer to the file at any time.
    function Spilled(n: nat): (r: StoreState<S>)
      requires gen in segments && n <= |buffer|
    {
      Put(File(segments[gen].bytes + buffer[..n], segments[gen].synced)).(buffer := buffer[n..])
    }

    // flushLocked: everything reaches the file, and the file is synced.
    function Flushed(): (r: StoreState<S>)
      requires gen in segments
    {
      var bytes := segments[gen].bytes + buffer;
      Put(File(bytes, |bytes|)).(buffer := [])
    }

    // Rotate: the old segment is flushed but not synced; the next one is opened.
    function Rotated(): (r: StoreState<S>)
      requires gen in segments
    {
      Spilled(|buffer|).OpenedAt(gen + 1)
    }

    // openSegment: create the file, or append to the one already there.
    function OpenedAt(g: nat): (r: StoreState<S>) {
      var f := if g in segments then segments[g] else File([], 0);
      this.(gen := g, buffer := [], segments := segments[g := f])
    }

    function Without(g: nat): (r: StoreState<S>) {
      this.(segments := segments - {g})
    }
  }

  // highestSegment.
  ghost function Highest(gens: set<nat>): (h: nat)
    ensures forall g :: g in gens ==> g <= h
    ensures h in gens || h == 0
  {
    if gens == {} then 0
    else
      MaxExists(gens);
      var h :| h in gens && forall g :: g in gens ==> g <= h;
      h
  }

  lemma {:induction false} MaxExists(gens: set<nat>)
    requires gens != {}
    ensures exists h :: h in gens && forall g :: g in gens ==> g <= h
  {
    var x :| x in gens;
    var rest, top := gens - {x}, x;
    if rest != {} {
      MaxExists(rest);
      var h :| h in rest && forall g :: g in rest ==> g <= h;
      top := if x > h then x else h;
    }
    forall g | g in gens ensures g <= top {
      assert g == x || g in rest;
    }
    assert top in gens;
  }

  function Replayable(segments: map<nat, File>, g: nat): (r: Replayed) {
    if g in segments then Replay(segments[g].bytes) else Replayed([], true)
  }

  // replaySegments, from generation g to the highest.
  function ReplayFrom(segments: map<nat, File>, g: nat, highest: nat): (r: Replayed)
    decreases highest + 1 - g
  {
    if g > highest then Replayed([], true)
    else
      var r := Replayable(segments, g);
      if !r.ok then r
      else
        var more := ReplayFrom(segments, g + 1, highest);
        Replayed(r.commands + more.commands, more.ok)
  }

  lemma OneMore(segments: map<nat, File>, g: nat, highest: nat, before: seq<Command>)
    requires g <= highest
    ensures var one, all := Replayable(segments, g), ReplayFrom(segments, g, highest);
      var more := ReplayFrom(segments, g + 1, highest);
      if one.ok then
        before + all.commands == before + one.commands + more.commands && all.ok == more.ok
      else all == one
  {}

  class Store<S> {
    var gen: nat
    var buffer: Bytes
    var segments: map<nat, File>
    var snapshot: Snapshot<S>
    const always: bool

    ghost function View(): (v: StoreState<S>)
      reads this
    {
      StoreState(gen, buffer, segments, snapshot)
    }

    // highestSegment's loop over the directory, in whatever order it is listed.
    static method HighestSegment(segments: map<nat, File>) returns (highest: nat)
      ensures highest == Highest(segments.Keys)
    {
      highest := 0;
      var left := segments.Keys;
      while left != {}
        invariant left <= segments.Keys
        invariant highest == 0 || highest in segments
        invariant forall g :: g in segments && g !in left ==> g <= highest
        decreases |left|
      {
        var g :| g in left;
        if g > highest {
          highest := g;
        }
        left := left - {g};
      }
    }

    // Open, on a directory that already holds some files.
    constructor Open(segments: map<nat, File>, snapshot: Snapshot<S>, always: bool)
      ensures this.always == always
      ensures var disk := StoreState(0, [], segments, snapshot);
        View() == disk.OpenedAt(disk.OpenGen())
    {
      var g := HighestSegment(segments);
      if snapshot.Present? && snapshot.base > g {
        g := snapshot.base;
      }
      this.always := always;
      gen, buffer, this.snapshot := g, [], snapshot;
      this.segments := if g in segments then segments else segments[g := File([], 0)];
      new;
      assert View().segments == segments[g := if g in segments then segments[g] else File([], 0)];
    }

    method Append(c: Record)
      requires gen in segments
      modifies this
      ensures View() == if always then old(View()).Appended(c).Flushed() else old(View()).Appended(c)
    {
      buffer := WriteCommand(buffer, c);
      if always {
        Flush();
      }
    }

    method Flush()
      requires gen in segments
      modifies this
      ensures View() == old(View()).Flushed()
    {
      var bytes := segments[gen].bytes + buffer;
      segments := segments[gen := File(bytes, |bytes|)];
      buffer := [];
    }

    method Rotate() returns (g: nat)
      requires gen in segments
      modifies this
      ensures View() == old(View()).Rotated() && g == gen
    {
      segments := segments[gen := File(segments[gen].bytes + buffer, segments[gen].synced)];
      gen := gen + 1;
      if gen !in segments {
        segments := segments[gen := File([], 0)];
      }
      buffer := [];
      g := gen;
      assert buffer == old(buffer)[|old(buffer)|..] && old(buffer)[..|old(buffer)|] == old(buffer);
    }

    // InstallSnapshot: the rename, then the removals in ascending order.
    method InstallSnapshot(state: S, base: nat)
      modifies this
      ensures View() == old(View()).(snapshot := Present(base, state), segments := segments)
      ensures segments == map g | g in old(segments) && g >= base :: old(segments)[g]
    {
      snapshot := Present(base, state);
      ghost var before := segments;
      for g := 0 to base
        invariant View() == old(View()).(snapshot := Present(base, state), segments := segments)
        invariant segments == map h | h in before && h >= g :: before[h]
      {
        segments := segments - {g};
      }
    }

    // replaySegment, on a generation whose file may be missing.
    static method ReplayGeneration(segments: map<nat, File>, g: nat) returns (r: Replayed)
      ensures r == Replayable(segments, g)
    {
      r := Replayed([], true);
      if g in segments {
        r := ReplaySegment(segments[g].bytes);
      }
    }

    static method ReplayRange(segments: map<nat, File>, base: nat, highest: nat) returns (r: Replayed)
      ensures r == ReplayFrom(segments, base, highest)
    {
      ghost var all := ReplayFrom(segments, base, highest);
      r := Replayed([], true);
      var g := base;
      assert r.commands + all.commands == all.commands;
      while g <= highest
        invariant r.ok && all.ok == ReplayFrom(segments, g, highest).ok
        invariant all.commands == r.commands + ReplayFrom(segments, g, highest).commands
        decreases highest + 1 - g
      {
        var one := ReplayGeneration(segments, g);
        OneMore(segments, g, highest, r.commands);
        r := Replayed(r.commands + one.commands, one.ok);
        if !one.ok {
          return;
        }
        g := g + 1;
      }
      assert r.commands + [] == r.commands;
    }

    // Recover: what is handed to the replay callback, after the snapshot is restored.
    method ReplaySegments() returns (r: Replayed)
      ensures r == ReplayFrom(segments, View().Base(), Highest(segments.Keys))
    {
      var base := if snapshot.Present? then snapshot.base else 0;
      var highest := HighestSegment(segments);
      r := ReplayRange(segments, base, highest);
    }
  }
}
