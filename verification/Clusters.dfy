// The server's databases and shards as one instance of the log-order semantics: the
// command table, the handlers and the hash routing give steps that stay inside the locks
// the executor takes, and every database behaves as one keyspace.
module Clusters {
  import opened ByteStrings
  import opened Options
  import opened Decimals
  import opened Commands
  import opened Expiry
  import opened Databases
  import opened Registry
  import Names
  import L = AppendLog
  import R = Replays
  import opened Serial

  // The databases, and what is outside this model: looking up a command name, parsing
  // floats and folding case.
  datatype Layout = Layout(dbs: nat, verb: Bytes -> Option<Names.Verb>, text: Registry.Text)

  // What a process draws when it starts: any number of shards and any hash.
  datatype Hashing = Hashing(shards: nat, hash: Bytes -> nat)

  type Seed = h: Hashing | h.shards >= 1 witness Hashing(1, (b: Bytes) => 0)

  type Loc = (nat, nat)

  type Cluster = map<Loc, Keyspace>

  const PEXPIREAT: Bytes := [80, 69, 88, 80, 73, 82, 69, 65, 84]

  // The name that persistArgs writes is in the command table.
  ghost predicate Proper(y: Layout) {
    y.verb(PEXPIREAT) == Some(Names.PExpireAt)
  }

  // The program's own lookup is one that has it.
  lemma LookupIsProper(dbs: nat, text: Registry.Text)
    ensures Proper(Layout(dbs, name => Names.Named(name), text))
  {
    var folded, own := Names.Folded(PEXPIREAT), Names.Ascii(Names.NameOf(Names.PExpireAt));
    assert own == [112, 101, 120, 112, 105, 114, 101, 97, 116];
    assert folded == own;
    Names.NamedIff(PEXPIREAT, Names.PExpireAt);
  }

  function Locs(y: Layout, h: Seed): (r: set<Loc>) {
    set d, i | 0 <= d < y.dbs && 0 <= i < h.shards :: (d, i)
  }

  function Index(h: Seed, key: Bytes): (i: nat)
    ensures i < h.shards
  {
    Route(h.hash, h.shards, key)
  }

  datatype Resolved = NoCommand | Resolved(verb: Names.Verb, op: Op)

  // Select the record's database, resolve the name and check the arity.
  function Resolve(y: Layout, c: L.Command): (r: Resolved)
    ensures r.Resolved? ==> Table(r.verb).Accepts(|c.args|) && r.op == Parse(y.text, r.verb, c.args)
  {
    if c.db >= y.dbs || c.args == [] || y.verb(c.args[0]).None? then NoCommand
    else
      var v := y.verb(c.args[0]).value;
      if Table(v).Accepts(|c.args|) then Resolved(v, Parse(y.text, v, c.args)) else NoCommand
  }

  // The keys that live in shard i.
  function Routed(h: Seed, keys: seq<Bytes>, i: nat): (r: set<Bytes>) {
    set k | k in keys && Index(h, k) == i
  }

  // What a command makes of one shard of its database.
  function CellAfter(h: Seed, now: Time, op: Op, i: nat, cell: Keyspace): (r: Keyspace) {
    if IsSingle(op) then
      if Index(h, op.key) == i then Exec(now, op, cell).keyspace else cell
    else if op.Del? || op.Unlink? then
      cell - Routed(h, op.keys, i)
    else if op.FlushDB? then map[]
    else cell
  }

  function Step(y: Layout, h: Seed, now: Time, s: Cluster, c: L.Command): (r: Cluster)
    ensures r.Keys == s.Keys
  {
    var cmd := Resolve(y, c);
    map x | x in s :: if cmd.Resolved? && x.0 == c.db then CellAfter(h, now, cmd.op, x.1, s[x]) else s[x]
  }

  // The shards the executor locks, from the keys the command declares.
  function LockSet(y: Layout, h: Seed, c: L.Command): (r: set<Loc>) {
    var cmd := Resolve(y, c);
    if cmd.NoCommand? then {}
    else if Table(cmd.verb).wholeDB then set i | 0 <= i < h.shards :: (c.db, i)
    else set k | k in DeclaredKeys(Table(cmd.verb), c.args) :: (c.db, Index(h, k))
  }

  ghost function Sem(y: Layout, h: Seed): (r: Semantics<Loc, Keyspace>) {
    Semantics(Locs(y, h), (t, s, c) => Step(y, h, t, s, c), c => LockSet(y, h, c), (t, a, b) => Alike(a, b, t))
  }

  lemma SameIsEquivalence(y: Layout, h: Seed)
    ensures Equivalence(Sem(y, h))
  {
    var sem := Sem(y, h);
    forall t, a: Keyspace, b: Keyspace, c: Keyspace | sem.same(t, a, b) && sem.same(t, b, c) ensures sem.same(t, a, c) {
      AlikeTrans(a, b, c, t);
    }
    forall t, u, a: Keyspace, b: Keyspace | t <= u && sem.same(t, a, b) ensures sem.same(u, a, b) {
      AlikeLater(a, b, t, u);
    }
  }

  // A shard outside the locks is not changed.
  lemma UnlockedUnchanged(y: Layout, h: Seed, now: Time, c: L.Command, x: Loc, cell: Keyspace)
    requires Resolve(y, c).Resolved? && x.0 == c.db && x.1 < h.shards && x !in LockSet(y, h, c)
    ensures CellAfter(h, now, Resolve(y, c).op, x.1, cell) == cell
  {
    var cmd := Resolve(y, c);
    DeclaredKeysAreTouched(y.text, cmd.verb, c.args);
    LockModeIsRight(y.text, cmd.verb, c.args);
    var keys := KeysOf(cmd.op);
    if !Table(cmd.verb).wholeDB {
      forall k | k in keys ensures Index(h, k) != x.1 {
        assert (c.db, Index(h, k)) in LockSet(y, h, c);
      }
      if IsSingle(cmd.op) {
        assert cmd.op.key in keys;
      }
    }
  }

  lemma SemConfined(y: Layout, h: Seed)
    ensures Confined(Sem(y, h))
  {
    var sem := Sem(y, h);
    forall t, s, c | sem.IsState(s) ensures Within(sem, s, sem.step(t, s, c), sem.locks(c)) {
      var r := sem.step(t, s, c);
      forall l | l in sem.locs && l !in sem.locks(c) ensures r[l] == s[l] {
        if Resolve(y, c).Resolved? && l.0 == c.db {
          UnlockedUnchanged(y, h, t, c, l, s[l]);
        }
      }
    }
  }

  lemma CellsAlike(h: Seed, now: Time, op: Op, i: nat, a: Keyspace, b: Keyspace)
    requires Alike(a, b, now)
    ensures Alike(CellAfter(h, now, op, i, a), CellAfter(h, now, op, i, b), now)
  {
    if IsSingle(op) {
      ExecAlike(now, op, a, b);
    } else if op.Del? || op.Unlink? {
      DropsAlike(a, b, Routed(h, op.keys, i), now);
    }
  }

  lemma SemLocal(y: Layout, h: Seed)
    ensures Local(Sem(y, h))
  {
    var sem := Sem(y, h);
    forall t, s, r, c | sem.IsState(s) && sem.IsState(r) && sem.Agree(t, s, r, sem.locks(c))
      ensures sem.Agree(t, sem.step(t, s, c), sem.step(t, r, c), sem.locks(c))
    {
      forall l | l in sem.locks(c) && l in sem.locs ensures sem.SameAt(t, sem.step(t, s, c), sem.step(t, r, c), l) {
        assert sem.SameAt(t, s, r, l);
        if Resolve(y, c).Resolved? && l.0 == c.db {
          CellsAlike(h, t, Resolve(y, c).op, l.1, s[l], r[l]);
        }
      }
    }
  }

  // The executor's locks cover what handlers read and write, at every instant, so log order
  // serialises them.
  lemma SemSound(y: Layout, h: Seed)
    ensures Sound(Sem(y, h))
  {
    SameIsEquivalence(y, h);
    SemConfined(y, h);
    SemLocal(y, h);
  }

  // One database's shards.
  ghost function Cells(y: Layout, h: Seed, s: Cluster, d: nat): (r: seq<Keyspace>)
    requires s.Keys == Locs(y, h) && d < y.dbs
    ensures |r| == h.shards
  {
    seq(h.shards, i requires 0 <= i < h.shards => assert (d, i) in Locs(y, h); s[(d, i)])
  }

  // What a command is to database d.
  function OpFor(y: Layout, c: L.Command, d: nat): (op: Op) {
    var cmd := Resolve(y, c);
    if cmd.Resolved? && c.db == d then cmd.op else Plain
  }

  // Logged commands, as a run of database d.
  function RunFor(y: Layout, d: nat, items: seq<Item>): (r: seq<R.Timed>)
    ensures |r| == |items|
  {
    seq(|items|, i requires 0 <= i < |items| => R.Timed(items[i].at, OpFor(y, items[i].command, d)))
  }

  lemma CellsAfter(h: Seed, now: Time, op: Op, cells: seq<Keyspace>, view: Keyspace)
    requires |cells| == h.shards && Holds(cells, h.hash, view)
    ensures
      var cells' := seq(h.shards, i requires 0 <= i < h.shards => CellAfter(h, now, op, i, cells[i]));
      Holds(cells', h.hash, Exec(now, op, view).keyspace)
  {
    var cells' := seq(h.shards, i requires 0 <= i < h.shards => CellAfter(h, now, op, i, cells[i]));
    if IsSingle(op) {
      SingleCells(h, now, op, cells, cells', view);
    } else {
      ManyCells(h, now, op, cells, cells', view);
    }
  }

  lemma ManyCells(h: Seed, now: Time, op: Op, cells: seq<Keyspace>, cells': seq<Keyspace>, view: Keyspace)
    requires !IsSingle(op) && |cells| == |cells'| == h.shards && Holds(cells, h.hash, view)
    requires forall i :: 0 <= i < h.shards ==> cells'[i] == CellAfter(h, now, op, i, cells[i])
    ensures Holds(cells', h.hash, Exec(now, op, view).keyspace)
  {
    if op.Del? || op.Unlink? {
      HoldsDrops(h, op.keys, cells, cells', view);
    } else if op.FlushDB? {
      HoldsNothing(cells', h.hash);
    } else {
      assert cells' == cells;
    }
  }

  lemma HoldsNothing(cells: seq<Keyspace>, hash: Bytes -> nat)
    requires |cells| >= 1 && forall i :: 0 <= i < |cells| ==> cells[i] == map[]
    ensures Holds(cells, hash, map[])
  {
  }

  lemma SingleCells(h: Seed, now: Time, op: Op, cells: seq<Keyspace>, cells': seq<Keyspace>, view: Keyspace)
    requires IsSingle(op) && |cells| == |cells'| == h.shards && Holds(cells, h.hash, view)
    requires forall i :: 0 <= i < h.shards ==> cells'[i] == CellAfter(h, now, op, i, cells[i])
    ensures Holds(cells', h.hash, Exec(now, op, view).keyspace)
  {
    var i := Index(h, op.key);
    HoldsLookup(cells, h.hash, view, op.key, now);
    var u := Single(now, op, Lookup(view, op.key, now)).update;
    assert cells' == cells[i := Updated(cells[i], op.key, u)];
    HoldsUpdated(cells, h.hash, view, op.key, u);
  }

  lemma HoldsDrops(h: Seed, keys: seq<Bytes>, cells: seq<Keyspace>, cells': seq<Keyspace>, view: Keyspace)
    requires |cells| == |cells'| == h.shards && Holds(cells, h.hash, view)
    requires forall i :: 0 <= i < h.shards ==> cells'[i] == cells[i] - Routed(h, keys, i)
    ensures Holds(cells', h.hash, view - Elements(keys))
  {
    forall j, k | 0 <= j < |cells'| && k in cells'[j]
      ensures Route(h.hash, |cells'|, k) == j && k in view - Elements(keys)
    {
      assert k in cells[j];
    }
  }

  lemma StepCells(y: Layout, h: Seed, now: Time, s: Cluster, c: L.Command, d: nat)
    requires s.Keys == Locs(y, h) && d < y.dbs
    ensures
      var op, cells := OpFor(y, c, d), Cells(y, h, s, d);
      Cells(y, h, Step(y, h, now, s, c), d)
        == seq(h.shards, i requires 0 <= i < h.shards => CellAfter(h, now, op, i, cells[i]))
  {
  }

  lemma StepRefines(y: Layout, h: Seed, now: Time, s: Cluster, c: L.Command, d: nat, view: Keyspace)
    requires s.Keys == Locs(y, h) && d < y.dbs && Holds(Cells(y, h, s, d), h.hash, view)
    ensures Holds(Cells(y, h, Step(y, h, now, s, c), d), h.hash, Exec(now, OpFor(y, c, d), view).keyspace)
  {
    StepCells(y, h, now, s, c, d);
    CellsAfter(h, now, OpFor(y, c, d), Cells(y, h, s, d), view);
  }

  // Sharding refines one map: whatever the seed, each database's shards hold what its
  // commands, run one after another on a single keyspace, leave there.
  lemma {:induction false} FoldRefines(y: Layout, h: Seed, s: Cluster, items: seq<Item>, d: nat, view: Keyspace)
    requires s.Keys == Locs(y, h) && d < y.dbs && Holds(Cells(y, h, s, d), h.hash, view)
    ensures Fold(Sem(y, h), s, items).Keys == Locs(y, h)
    ensures Holds(Cells(y, h, Fold(Sem(y, h), s, items), d), h.hash, R.Execute(view, RunFor(y, d, items)))
    decreases |items|
  {
    if items != [] {
      var k := |items| - 1;
      FoldRefines(y, h, s, items[..k], d, view);
      var before := R.Execute(view, RunFor(y, d, items[..k]));
      StepRefines(y, h, items[k].at, Fold(Sem(y, h), s, items[..k]), items[k].command, d, before);
      assert RunFor(y, d, items)[..k] == RunFor(y, d, items[..k]);
      R.ExecuteLast(view, RunFor(y, d, items), k);
    }
  }

  // persistArgs.
  function LogRecord(y: Layout, now: Time, c: L.Record): (r: L.Record) {
    var cmd := Resolve(y, c);
    if cmd.Resolved? && cmd.verb.Expire? && ParseInt(c.args[2]).Some? then
      var ms := R.Milliseconds(ExpireDeadline(now, ParseInt(c.args[2]).value));
      FormatIsShort(ms);
      L.Command(c.db, [PEXPIREAT, c.args[1], FormatInt(ms)])
    else c
  }

  // What is logged is a command, has the operation's log form, and is not changed again.
  lemma LogRecordResolves(y: Layout, now: Time, c: L.Record, d: nat)
    requires Proper(y)
    ensures Resolve(y, c).Resolved? ==> Resolve(y, LogRecord(y, now, c)).Resolved?
    ensures OpFor(y, LogRecord(y, now, c), d) == R.LogForm(now, OpFor(y, c, d))
    ensures forall later :: LogRecord(y, later, LogRecord(y, now, c)) == LogRecord(y, now, c)
  {
  }

  // Every command that the table accepts is one its handler was written for.
  lemma OpForAccepted(y: Layout, c: L.Command, d: nat)
    ensures Accepted(OpFor(y, c, d))
  {
    var cmd := Resolve(y, c);
    if cmd.Resolved? {
      AritySuffices(y.text, cmd.verb, c.args);
    }
  }

  // A command that is not logged, because it reads or because it fails, changes no shard.
  lemma UnloggedChangesNothing(y: Layout, h: Seed, now: Time, s: Cluster, c: L.Command)
    requires Resolve(y, c).Resolved? && s.Keys == Locs(y, h)
    requires
      var op := Resolve(y, c).op;
      !R.IsWrite(op) || (IsSingle(op) && Exec(now, op, s[(c.db, Index(h, op.key))]).answer.Fail?)
    ensures Step(y, h, now, s, c) == s
  {
    var op := Resolve(y, c).op;
    forall x | x in s && x.0 == c.db ensures CellAfter(h, now, op, x.1, s[x]) == s[x] {
      if !R.IsWrite(op) {
        R.ReadsChangeNothing(now, op, s[x]);
      } else if Index(h, op.key) == x.1 {
        ErrorChangesNothing(now, op, s[x]);
      }
    }
  }
}
