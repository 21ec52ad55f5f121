// A sharded database of such shards: whatever the hash, the number of shards and the
// thresholds, a collection command does to the whole database what Commands says.
module ObjectDatabases {
  import opened ByteStrings
  import opened Scores
  import opened Commands
  import opened Databases
  import opened Shelves

  // No two shelves share an object, and none holds a shelf or the database.
  ghost predicate Separate(db: object, shelves: seq<Shelf>, regions: seq<set<object>>) {
    && |shelves| == |regions|
    && (forall i :: 0 <= i < |shelves| ==> shelves[i] != db && db !in regions[i] && shelves[i] !in regions[i])
    && (forall i, j :: 0 <= i < |shelves| && 0 <= j < |shelves| && i != j ==>
          shelves[i] != shelves[j] && shelves[i] !in regions[j] && regions[i] !! regions[j])
  }

  lemma SeparateGrown(db: object, shelves: seq<Shelf>, regions: seq<set<object>>, i: nat, r: set<object>)
    requires Separate(db, shelves, regions) && i < |shelves| && db !in r && shelves[i] !in r
    requires forall j :: 0 <= j < |shelves| && j != i ==> shelves[j] !in r && r !! regions[j]
    ensures Separate(db, shelves, regions[i := r])
  {
  }

  // A shelf, its objects and what it holds.
  ghost predicate ShelfIs(s: Shelf, r: set<object>, ks: Keyspace)
    reads s, r
  {
    s.region == r && s.Valid() && s.view == ks
  }

  method EmptyShelves(n: nat, limits: AllLimits) returns (ss: seq<Shelf>)
    ensures |ss| == n && forall i :: 0 <= i < n ==> fresh(ss[i]) && ShelfIs(ss[i], {}, map[])
    ensures forall i, j :: 0 <= i < j < n ==> ss[i] != ss[j]
  {
    ss := [];
    for k := 0 to n
      invariant |ss| == k && forall i :: 0 <= i < k ==> fresh(ss[i]) && ShelfIs(ss[i], {}, map[])
      invariant forall i, j :: 0 <= i < j < k ==> ss[i] != ss[j]
    {
      var s := new Shelf(limits);
      ss := ss + [s];
    }
  }

  class ObjectDB {
    const hash: Bytes -> nat
    const shelves: seq<Shelf>
    ghost var regions: seq<set<object>>
    ghost var cells: seq<Keyspace>
    ghost var view: Keyspace

    ghost predicate Valid()
      reads this, shelves, set i, o | 0 <= i < |regions| && o in regions[i] :: o
    {
      && |shelves| == |regions| == |cells| && Holds(cells, hash, view) && Separate(this, shelves, regions)
      && (forall i :: 0 <= i < |shelves| ==> ShelfIs(shelves[i], regions[i], cells[i]))
    }

    constructor (hash: Bytes -> nat, n: nat, limits: AllLimits)
      requires n >= 1
      ensures Valid() && |shelves| == n && view == map[]
    {
      var empty := EmptyShelves(n, limits);
      this.hash, shelves := hash, empty;
      regions, cells, view := seq(n, _ => {}), seq(n, _ => map[]), map[];
    }

    // All shelves but i hold what they held, and shelf i keeps to itself.
    ghost predicate ValidBut(i: nat)
      reads this, shelves, set j, o | 0 <= j < |regions| && j != i && o in regions[j] :: o
    {
      && i < |shelves| == |regions| == |cells|
      && Separate(this, shelves, regions[i := shelves[i].region])
      && forall j :: 0 <= j < |shelves| && j != i ==> ShelfIs(shelves[j], regions[j], cells[j])
    }

    method RunAt(i: nat, now: Time, op: Op, ps: seq<Pair>) returns (a: Answer)
      requires Valid() && i < |shelves| && Runnable(op, ps)
      modifies shelves[i], shelves[i].region
      ensures ValidBut(i) && shelves[i].Valid() && Outcome(shelves[i].view, a) == Exec(now, op, cells[i])
    {
      assert ShelfIs(shelves[i], regions[i], cells[i]);
      a := shelves[i].Run(now, op, ps);
      forall j | 0 <= j < |shelves| && j != i
        ensures shelves[j] !in shelves[i].region && shelves[i].region !! regions[j]
        ensures ShelfIs(shelves[j], regions[j], cells[j])
      {
        assert old(ShelfIs(shelves[j], regions[j], cells[j]));
      }
      SeparateGrown(this, shelves, regions, i, shelves[i].region);
    }

    method Settle(i: nat, ghost ks: Keyspace)
      requires ValidBut(i) && shelves[i].Valid() && Holds(cells[i := shelves[i].view], hash, ks)
      modifies this
      ensures Valid() && view == ks
    {
      regions, cells := regions[i := shelves[i].region], cells[i := shelves[i].view];
      view := ks;
      forall j | 0 <= j < |shelves| ensures ShelfIs(shelves[j], regions[j], cells[j]) {
        if j != i {
          assert old(ShelfIs(shelves[j], regions[j], cells[j]));
        }
      }
    }

    method Run(now: Time, op: Op, ps: seq<Pair>) returns (a: Answer)
      requires Valid() && Runnable(op, ps)
      modifies this, shelves[Route(hash, |shelves|, op.key)], shelves[Route(hash, |shelves|, op.key)].region
      ensures Valid() && Outcome(view, a) == Exec(now, op, old(view))
    {
      var i := Route(hash, |shelves|, op.key);
      ghost var effect := Single(now, op, Lookup(view, op.key, now));
      HoldsLookup(cells, hash, view, op.key, now);
      HoldsUpdated(cells, hash, view, op.key, effect.update);
      a := RunAt(i, now, op, ps);
      Settle(i, Updated(view, op.key, effect.update));
    }
  }
}
