// What a server gets back from a snapshot of itself: the records list each key once, in any
// order of databases, shards, keys and collection members, and restoring them gives the
// captured keyspaces, deadlines permitting (internal/server/server.go).
module Captures {
  import opened ByteStrings
  import opened Decimals
  import opened Commands
  import opened Scores
  import S = Snapshots

  // A listing of a map: every binding, once each, in any order.
  ghost predicate Enumerates<K, V>(ps: seq<(K, V)>, m: map<K, V>) {
    && (forall i, j :: 0 <= i < j < |ps| ==> ps[i].0 != ps[j].0)
    && (forall i :: 0 <= i < |ps| ==> Binds(m, ps[i]))
    && (forall k :: k in m ==> (k, m[k]) in ps)
  }

  ghost predicate Binds<K, V>(m: map<K, V>, p: (K, V)) {
    p.0 in m && m[p.0] == p.1
  }

  // Adding the bindings one at a time to an empty map.
  function Collected<K, V>(ps: seq<(K, V)>): (m: map<K, V>) {
    if ps == [] then map[] else Collected(ps[..|ps| - 1])[ps[|ps| - 1].0 := ps[|ps| - 1].1]
  }

  lemma {:induction false} CollectedBinds<K, V>(ps: seq<(K, V)>, m: map<K, V>)
    requires (forall i, j :: 0 <= i < j < |ps| ==> ps[i].0 != ps[j].0)
    requires (forall i :: 0 <= i < |ps| ==> Binds(m, ps[i]))
    ensures forall i :: 0 <= i < |ps| ==> Binds(Collected(ps), ps[i])
    ensures forall k :: k in Collected(ps) ==> k in m && Collected(ps)[k] == m[k]
    decreases |ps|
  {
    if ps != [] {
      var k := |ps| - 1;
      CollectedBinds(ps[..k], m);
      forall i | 0 <= i < |ps| ensures Binds(Collected(ps), ps[i]) {
        if i < k {
          assert ps[..k][i] == ps[i];
        }
      }
    }
  }

  // The order of a listing does not matter to what is collected from it.
  lemma CollectedIs<K, V>(ps: seq<(K, V)>, m: map<K, V>)
    requires Enumerates(ps, m)
    ensures Collected(ps) == m
  {
    CollectedBinds(ps, m);
    forall k | k in m ensures k in Collected(ps) {
      var i :| 0 <= i < |ps| && ps[i] == (k, m[k]);
      assert Binds(Collected(ps), ps[i]);
    }
  }

  // The abstract value of a stored object; scores are bit patterns.
  datatype Content =
    | StringOf(bytes: Bytes)
    | ListOf(elems: seq<Bytes>)
    | HashOf(fields: map<Bytes, Bytes>)
    | SetOf(members: set<Bytes>)
    | ZSetOf(scores: map<Bytes, Word>)

  // The value as commands see it; scores matter by their numeric value.
  function ValueOf(c: Content): (v: Value) {
    match c
    case StringOf(b) => Str(b)
    case ListOf(es) => ListV(es)
    case HashOf(m) => HashV(m)
    case SetOf(s) => SetV(s)
    case ZSetOf(m) => ZSetV(map k | k in m :: if IsScore(m[k]) then Num(m[k]) else 0)
  }

  // Nothing is rearranged, and each number is that of its bits.
  lemma ValuesKept(b: Bytes, es: seq<Bytes>, m: map<Bytes, Bytes>, s: set<Bytes>, k: Bytes, w: Word)
    requires IsScore(w)
    ensures ValueOf(StringOf(b)) == Str(b) && ValueOf(ListOf(es)) == ListV(es)
    ensures ValueOf(HashOf(m)) == HashV(m) && ValueOf(SetOf(s)) == SetV(s)
    ensures ValueOf(ZSetOf(map[k := w])) == ZSetV(map[k := Num(w)])
  {
  }

  // The listings the writer may make of a value.
  ghost predicate Describes(d: S.Dump, c: Content) {
    match d
    case Text(b) => c == StringOf(b)
    case Elems(es) => c == ListOf(es)
    case Fields(ps) => c.HashOf? && Enumerates(ps, c.fields)
    case Members(es) => c == SetOf(set x | x in es)
    case Scored(ps) => c.ZSetOf? && Enumerates(ps, c.scores)
  }

  // What the reader builds from a listing, adding one element at a time.
  function Rebuilt(d: S.Dump): (c: Content) {
    match d
    case Text(b) => StringOf(b)
    case Elems(es) => ListOf(es)
    case Fields(ps) => HashOf(Collected(ps))
    case Members(es) => SetOf(set x | x in es)
    case Scored(ps) => ZSetOf(Collected(ps))
  }

  lemma RebuiltIs(d: S.Dump, c: Content)
    requires Describes(d, c)
    ensures Rebuilt(d) == c
  {
    match d
    case Fields(ps) => CollectedIs(ps, c.fields);
    case Scored(ps) => CollectedIs(ps, c.scores);
    case Text(_) =>
    case Elems(_) =>
    case Members(_) =>
  }

  // emitRecords: UnixNano, or 0 for no deadline. UnixNano wraps around at 64 bits.
  function Marker(expireAt: Time): (n: int)
    ensures MIN_INT64 <= n <= MAX_INT64
  {
    if expireAt == ZERO_TIME then 0 else Wrap64(expireAt)
  }

  // restore.
  function FromMarker(n: int): (expireAt: Time) {
    if n != 0 then n else ZERO_TIME
  }

  // Deadlines the format can carry: those in int64 nanoseconds, but not the Unix epoch,
  // whose marker means no deadline.
  predicate Carried(expireAt: Time) {
    expireAt == ZERO_TIME || (MIN_INT64 <= expireAt <= MAX_INT64 && expireAt != 0)
  }

  lemma DeadlineRoundTripIff(expireAt: Time)
    ensures FromMarker(Marker(expireAt)) == expireAt <==> Carried(expireAt)
  {
  }

  // A deadline that is changed, but is past both before and after, is not missed.
  predicate CarriedAt(expireAt: Time, now: Time) {
    Carried(expireAt) || (Gone(expireAt, now) && Gone(FromMarker(Marker(expireAt)), now))
  }

  // What is seen of the restored entry is what is seen of the captured one.
  lemma CarriedAtIff(e: Entry, now: Time)
    ensures
      var r := e.(expireAt := FromMarker(Marker(e.expireAt)));
      (e.Expired(now) == r.Expired(now) && (!e.Expired(now) ==> e == r)) <==> CarriedAt(e.expireAt, now)
  {
    DeadlineRoundTripIff(e.expireAt);
  }

  // A key whose deadline is the epoch comes back without a deadline, alive again.
  lemma EpochKeyRevives(now: Time, v: Value)
    requires now >= 0
    ensures Entry(v, 0).Expired(now) && !Entry(v, FromMarker(Marker(0))).Expired(now)
  {
  }

  // A deadline past the range of int64 nanoseconds, in the year 2264, wraps into the past: a
  // key that is alive comes back dead.
  lemma FarKeyDies(now: Time, v: Value)
    requires 0 <= now < 9300000000000 * MILLISECOND
    ensures
      var at := 9300000000000 * MILLISECOND;
      !Entry(v, at).Expired(now) && Entry(v, FromMarker(Marker(at))).Expired(now)
  {
    var at := 9300000000000 * MILLISECOND;
    assert Wrap64(at) == at - 2 * TWO63;
  }

  datatype Stored = Stored(content: Content, expireAt: Time)

  type Contents = map<(nat, Bytes), Stored>

  ghost predicate Records(r: S.Rec, s: Contents) {
    var k := (r.db, r.key);
    k in s && r.expireAt == Marker(s[k].expireAt) && Describes(r.value, s[k].content)
  }

  // The records emitted for all databases: each stored key once, in any order.
  ghost predicate Captured(rs: seq<S.Rec>, s: Contents) {
    && (forall i, j :: 0 <= i < j < |rs| ==> (rs[i].db, rs[i].key) != (rs[j].db, rs[j].key))
    && (forall i :: 0 <= i < |rs| ==> Records(rs[i], s))
    && (forall k :: k in s ==> exists i :: 0 <= i < |rs| && (rs[i].db, rs[i].key) == k)
  }

  function Restore(s: Contents, r: S.Rec): (t: Contents) {
    s[(r.db, r.key) := Stored(Rebuilt(r.value), FromMarker(r.expireAt))]
  }

  // recover's restore callback, record after record, from empty databases.
  function Restored(rs: seq<S.Rec>): (s: Contents) {
    if rs == [] then map[] else Restore(Restored(rs[..|rs| - 1]), rs[|rs| - 1])
  }

  ghost predicate RestoredAs(t: Contents, r: S.Rec, s: Contents)
    requires Records(r, s)
  {
    var k := (r.db, r.key);
    k in t && t[k] == Stored(s[k].content, FromMarker(Marker(s[k].expireAt)))
  }

  lemma {:induction false} RestoredBinds(rs: seq<S.Rec>, s: Contents)
    requires forall i, j :: 0 <= i < j < |rs| ==> (rs[i].db, rs[i].key) != (rs[j].db, rs[j].key)
    requires forall i :: 0 <= i < |rs| ==> Records(rs[i], s)
    ensures forall i :: 0 <= i < |rs| ==> RestoredAs(Restored(rs), rs[i], s)
    ensures Restored(rs).Keys <= s.Keys
    decreases |rs|
  {
    if rs != [] {
      var k := |rs| - 1;
      RestoredBinds(rs[..k], s);
      assert Records(rs[k], s);
      RebuiltIs(rs[k].value, s[(rs[k].db, rs[k].key)].content);
      forall i | 0 <= i < |rs| ensures RestoredAs(Restored(rs), rs[i], s) {
        if i < k {
          assert rs[..k][i] == rs[i] && RestoredAs(Restored(rs[..k]), rs[i], s);
        }
      }
    }
  }

  // What was restored could have been captured as the same records.
  lemma RestoredCaptured(rs: seq<S.Rec>, s: Contents)
    requires Captured(rs, s)
    ensures Captured(rs, Restored(rs)) && Restored(rs).Keys == s.Keys
    ensures forall k :: k in s ==> KeptAt(Restored(rs), s, k)
  {
    RestoredBinds(rs, s);
    forall i | 0 <= i < |rs| ensures Records(rs[i], Restored(rs)) {
      assert Records(rs[i], s) && RestoredAs(Restored(rs), rs[i], s);
    }
    forall k | k in s ensures KeptAt(Restored(rs), s, k) {
      var i :| 0 <= i < |rs| && (rs[i].db, rs[i].key) == k;
      assert RestoredAs(Restored(rs), rs[i], s);
    }
  }

  // The whole snapshot: written and read back, it restores every database, key, value and
  // deadline, if and only if every deadline is one the format can carry.
  lemma CaptureRoundTripIff(base: Word, rs: seq<S.Writable>, s: Contents)
    requires Captured(rs, s)
    ensures
      var l := S.Read(S.Encode(base, rs));
      && l.ok && l.base == base && Restored(l.records).Keys == s.Keys
      && (Restored(l.records) == s <==> forall k :: k in s ==> Carried(s[k].expireAt))
  {
    S.SnapshotRoundTrip(base, rs);
    RestoredCaptured(rs, s);
    SameIff(Restored(rs), s);
  }

  ghost predicate KeptAt(t: Contents, s: Contents, k: (nat, Bytes))
    requires k in s
  {
    k in t && t[k] == Stored(s[k].content, FromMarker(Marker(s[k].expireAt)))
  }

  lemma SameIff(t: Contents, s: Contents)
    requires t.Keys <= s.Keys && forall k :: k in s ==> KeptAt(t, s, k)
    ensures t.Keys == s.Keys && (t == s <==> forall k :: k in s ==> Carried(s[k].expireAt))
  {
    forall k | k in s ensures t[k] == s[k] <==> Carried(s[k].expireAt) {
      assert KeptAt(t, s, k);
      DeadlineRoundTripIff(s[k].expireAt);
    }
  }
}
