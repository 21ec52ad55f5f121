// Cutting a stream of frames into chunks. For any incremental parser that takes each frame
// whole and sees nothing in a strict prefix of one, a client that buffers chunks and parses
// as far as it can settles its pending requests as if the chunks had never been cut.
module Framing {
  import opened ByteStrings

  // The parser's null, its exception, or a value and the bytes after it.
  datatype Parsed<+V> = Partial | Thrown | Parsed(value: V, rest: Bytes)

  type Parser<!V> = Bytes -> Parsed<V>

  ghost predicate Consuming<V>(p: Parser<V>) {
    forall b :: p(b).Parsed? ==> |p(b).rest| < |b|
  }

  datatype Frame<V> = Frame(bytes: Bytes, value: V)

  // The parser takes the frame exactly, whatever follows, and waits for all of it.
  ghost predicate Framed<V>(p: Parser<V>, f: Frame<V>) {
    && f.bytes != []
    && (forall rest :: p(f.bytes + rest) == Parsed(f.value, rest))
    && (forall k :: 0 <= k < |f.bytes| ==> p(f.bytes[..k]).Partial?)
  }

  ghost predicate AllFramed<V>(p: Parser<V>, fs: seq<Frame<V>>) {
    Consuming(p) && p([]).Partial? && forall i :: 0 <= i < |fs| ==> Framed(p, fs[i])
  }

  function Stream<V>(fs: seq<Frame<V>>): (b: Bytes) {
    if fs == [] then [] else fs[0].bytes + Stream(fs[1..])
  }

  function Values<V>(fs: seq<Frame<V>>): (vs: seq<V>)
    ensures |vs| == |fs|
  {
    seq(|fs|, i requires 0 <= i < |fs| => fs[i].value)
  }

  // What parsing as far as possible takes from a buffer.
  datatype Drained<V> = Drained(values: seq<V>, rest: Bytes, ok: bool)

  ghost function Drain<V>(p: Parser<V>, b: Bytes): (r: Drained<V>)
    requires Consuming(p)
    decreases |b|
  {
    match p(b)
    case Partial => Drained([], b, true)
    case Thrown => Drained([], b, false)
    case Parsed(v, rest) =>
      var more := Drain(p, rest);
      Drained([v] + more.values, more.rest, more.ok)
  }

  // How many frames lie wholly within the first k bytes.
  function Complete<V>(fs: seq<Frame<V>>, k: nat): (j: nat)
    ensures j <= |fs|
  {
    if fs == [] || k < |fs[0].bytes| then 0 else 1 + Complete(fs[1..], k - |fs[0].bytes|)
  }

  // Where frame j begins.
  function Offset<V>(fs: seq<Frame<V>>, j: nat): (n: nat)
    requires j <= |fs|
  {
    if j == 0 then 0 else |fs[0].bytes| + Offset(fs[1..], j - 1)
  }

  // A prefix of the stream that holds the first frame: that frame, then a prefix of the rest.
  lemma FirstParsed<V>(p: Parser<V>, fs: seq<Frame<V>>, b: Bytes)
    requires AllFramed(p, fs) && fs != [] && b <= Stream(fs) && |fs[0].bytes| <= |b|
    ensures b[|fs[0].bytes|..] <= Stream(fs[1..])
    ensures p(b) == Parsed(fs[0].value, b[|fs[0].bytes|..])
  {
    PrefixSplit(fs[0].bytes, Stream(fs[1..]), b);
    assert Framed(p, fs[0]);
    assert p(fs[0].bytes + b[|fs[0].bytes|..]) == Parsed(fs[0].value, b[|fs[0].bytes|..]);
  }

  lemma PrefixSplit(e: Bytes, more: Bytes, b: Bytes)
    requires b <= e + more && |e| <= |b|
    ensures b == e + b[|e|..] && b[|e|..] <= more
  {
    assert b == (e + more)[..|b|];
    assert b[|e|..] == more[..|b| - |e|];
  }

  lemma NoneDrained<V>(p: Parser<V>, fs: seq<Frame<V>>, b: Bytes)
    requires AllFramed(p, fs) && b <= Stream(fs) && (fs == [] || |b| < |fs[0].bytes|)
    ensures Drain(p, b) == Drained([], b, true)
  {
    if fs != [] {
      assert b == fs[0].bytes[..|b|] && Framed(p, fs[0]);
    }
  }

  // Draining the bytes from m on gives these values and stops at n.
  ghost predicate Yields<V>(p: Parser<V>, b: Bytes, m: nat, n: nat, vs: seq<V>)
    requires Consuming(p)
  {
    m <= |b| && n <= |b| && Drain(p, b[m..]) == Drained(vs, b[n..], true)
  }

  // Standing at frame j, draining a prefix b of the stream gives the complete frames from
  // there on, in order, and leaves the bytes of the next one.
  ghost predicate DrainsFrom<V>(p: Parser<V>, fs: seq<Frame<V>>, j: nat, b: Bytes)
    requires Consuming(p) && j <= |fs|
  {
    var k := Complete(fs, |b|);
    j <= k && Yields(p, b, Offset(fs, j), Offset(fs, k), Between(fs, j, k))
  }

  // The values of frames j up to k.
  function Between<V>(fs: seq<Frame<V>>, j: nat, k: nat): (vs: seq<V>)
    requires j <= k <= |fs|
    ensures |vs| == k - j
  {
    if j > 0 then Between(fs[1..], j - 1, k - 1)
    else if k > 0 then [fs[0].value] + Between(fs[1..], 0, k - 1)
    else []
  }

  lemma {:induction false} BetweenIs<V>(fs: seq<Frame<V>>, j: nat, k: nat)
    requires j <= k <= |fs|
    ensures Values(fs[..j]) + Between(fs, j, k) == Values(fs[..k])
    decreases k
  {
    if k > 0 {
      BetweenIs(fs[1..], if j > 0 then j - 1 else 0, k - 1);
      assert Values(fs[..k]) == [fs[0].value] + Values(fs[1..][..k - 1]);
      if j > 0 {
        assert Values(fs[..j]) == [fs[0].value] + Values(fs[1..][..j - 1]);
      }
    }
  }

  lemma YieldsShift<V>(p: Parser<V>, b: Bytes, e: nat, m: nat, n: nat, vs: seq<V>)
    requires Consuming(p) && e <= |b| && Yields(p, b[e..], m, n, vs)
    ensures Yields(p, b, e + m, e + n, vs)
  {
    assert b[e..][m..] == b[e + m..] && b[e..][n..] == b[e + n..];
  }

  lemma YieldsFirst<V>(p: Parser<V>, b: Bytes, e: nat, n: nat, v: V, vs: seq<V>)
    requires Consuming(p) && e <= |b| && Yields(p, b[e..], 0, n, vs)
    requires p(b) == Parsed(v, b[e..])
    ensures Yields(p, b, 0, e + n, [v] + vs)
  {
    assert b[e..][0..] == b[e..] && b[0..] == b && b[e..][n..] == b[e + n..];
  }

  lemma StepOver<V>(p: Parser<V>, fs: seq<Frame<V>>, j: nat, b: Bytes)
    requires Consuming(p) && fs != [] && 0 < j <= |fs| && |fs[0].bytes| <= |b|
    requires DrainsFrom(p, fs[1..], j - 1, b[|fs[0].bytes|..])
    ensures DrainsFrom(p, fs, j, b)
  {
    var e := |fs[0].bytes|;
    var k := Complete(fs[1..], |b| - e);
    YieldsShift(p, b, e, Offset(fs[1..], j - 1), Offset(fs[1..], k), Between(fs[1..], j - 1, k));
  }

  lemma FromStart<V>(p: Parser<V>, fs: seq<Frame<V>>, b: Bytes)
    requires Consuming(p) && fs != [] && |fs[0].bytes| <= |b|
    requires p(b) == Parsed(fs[0].value, b[|fs[0].bytes|..])
    requires DrainsFrom(p, fs[1..], 0, b[|fs[0].bytes|..])
    ensures DrainsFrom(p, fs, 0, b)
  {
    var e := |fs[0].bytes|;
    var k := Complete(fs[1..], |b| - e);
    YieldsFirst(p, b, e, Offset(fs[1..], k), fs[0].value, Between(fs[1..], 0, k));
  }

  lemma {:induction false} DrainFrom<V>(p: Parser<V>, fs: seq<Frame<V>>, j: nat, b: Bytes)
    requires AllFramed(p, fs) && b <= Stream(fs) && j <= Complete(fs, |b|)
    ensures DrainsFrom(p, fs, j, b)
    decreases |fs|
  {
    if fs == [] || |b| < |fs[0].bytes| {
      NoneDrained(p, fs, b);
      assert b[0..] == b;
    } else {
      FirstParsed(p, fs, b);
      DrainFrom(p, fs[1..], if j == 0 then 0 else j - 1, b[|fs[0].bytes|..]);
      if j == 0 {
        FromStart(p, fs, b);
      } else {
        StepOver(p, fs, j, b);
      }
    }
  }

  // The client.

  type Id = nat

  datatype Event = Send(id: Id) | Data(chunk: Bytes)

  datatype State<V> = State(buffer: Bytes, pending: seq<Id>, settled: seq<(Id, V)>)

  function Settle<V>(ids: seq<Id>, values: seq<V>): (r: seq<(Id, V)>)
    requires |ids| == |values|
    ensures |r| == |ids|
  {
    seq(|ids|, i requires 0 <= i < |ids| => (ids[i], values[i]))
  }

  function Min(a: nat, b: nat): (m: nat) {
    if a < b then a else b
  }

  // What an event does to the client. Values go to the oldest waiters, one each; a value
  // with no waiter is dropped.
  ghost function Handle<V>(p: Parser<V>, s: State<V>, e: Event): (t: State<V>)
    requires Consuming(p)
  {
    match e
    case Send(id) => s.(pending := s.pending + [id])
    case Data(chunk) =>
      var d := Drain(p, s.buffer + chunk);
      var n := Min(|d.values|, |s.pending|);
      State(d.rest, s.pending[n..], s.settled + Settle(s.pending[..n], d.values[..n]))
  }

  ghost function Run<V>(p: Parser<V>, events: seq<Event>): (s: State<V>)
    requires Consuming(p)
  {
    if events == [] then State([], [], []) else Handle(p, Run(p, events[..|events| - 1]), events[|events| - 1])
  }

  function Sent(events: seq<Event>): (ids: seq<Id>) {
    if events == [] then []
    else
      var k := |events| - 1;
      Sent(events[..k]) + if events[k].Send? then [events[k].id] else []
  }

  function Received(events: seq<Event>): (b: Bytes) {
    if events == [] then []
    else
      var k := |events| - 1;
      Received(events[..k]) + if events[k].Data? then events[k].chunk else []
  }

  // The server sends these frames and nothing else, and none before its request.
  ghost predicate Orderly<V>(fs: seq<Frame<V>>, events: seq<Event>) {
    forall i :: 0 <= i <= |events| ==> OrderlyAt(fs, events[..i])
  }

  ghost predicate OrderlyAt<V>(fs: seq<Frame<V>>, events: seq<Event>) {
    Received(events) <= Stream(fs) && Complete(fs, |Received(events)|) <= |Sent(events)|
  }

  // The state that the received bytes and the requests so far determine, however cut.
  ghost function Expected<V>(fs: seq<Frame<V>>, ids: seq<Id>, b: Bytes): (s: State<V>)
    requires Complete(fs, |b|) <= |ids| && Offset(fs, Complete(fs, |b|)) <= |b|
  {
    var j := Complete(fs, |b|);
    State(b[Offset(fs, j)..], ids[j..], Settle(ids[..j], Values(fs[..j])))
  }

  lemma {:induction false} CompleteMonotone<V>(fs: seq<Frame<V>>, k: nat, n: nat)
    requires k <= n
    ensures Complete(fs, k) <= Complete(fs, n)
    decreases |fs|
  {
    if fs != [] && |fs[0].bytes| <= k {
      CompleteMonotone(fs[1..], k - |fs[0].bytes|, n - |fs[0].bytes|);
    }
  }

  lemma SettleMore<V>(ids: seq<Id>, j: nat, k: nat, vs: seq<V>, ws: seq<V>)
    requires j <= k <= |ids| && |vs| == j && |ws| == k - j
    ensures
      var n := Min(|ws|, |ids[j..]|);
      && ids[j..][n..] == ids[k..]
      && Settle(ids[..j], vs) + Settle(ids[j..][..n], ws[..n]) == Settle(ids[..k], vs + ws)
  {
    assert ws[..k - j] == ws;
  }

  lemma Combine<V>(p: Parser<V>, before: State<V>, chunk: Bytes, rest: Bytes, ids: seq<Id>, j: nat, k: nat,
        vs: seq<V>, ws: seq<V>)
    requires Consuming(p) && j <= k <= |ids| && |vs| == j && |ws| == k - j
    requires Drain(p, before.buffer + chunk) == Drained(ws, rest, true)
    requires before.pending == ids[j..] && before.settled == Settle(ids[..j], vs)
    ensures Handle(p, before, Data(chunk)) == State(rest, ids[k..], Settle(ids[..k], vs + ws))
  {
    SettleMore(ids, j, k, vs, ws);
  }

  // More bytes of the stream, cut anywhere, move the client to where the longer stream does.
  lemma DataKeeps<V>(p: Parser<V>, fs: seq<Frame<V>>, ids: seq<Id>, b: Bytes, chunk: Bytes)
    requires AllFramed(p, fs) && b + chunk <= Stream(fs) && Complete(fs, |b + chunk|) <= |ids|
    requires Offset(fs, Complete(fs, |b|)) <= |b|
    ensures Complete(fs, |b|) <= |ids| && Offset(fs, Complete(fs, |b + chunk|)) <= |b + chunk|
    ensures Handle(p, Expected(fs, ids, b), Data(chunk)) == Expected(fs, ids, b + chunk)
  {
    var all := b + chunk;
    var j, k := Complete(fs, |b|), Complete(fs, |all|);
    CompleteMonotone(fs, |b|, |all|);
    DrainFrom(p, fs, j, all);
    assert b[Offset(fs, j)..] + chunk == all[Offset(fs, j)..];
    BetweenIs(fs, j, k);
    Combine(p, Expected(fs, ids, b), chunk, all[Offset(fs, k)..], ids, j, k, Values(fs[..j]), Between(fs, j, k));
  }

  lemma SendKeeps<V>(p: Parser<V>, fs: seq<Frame<V>>, ids: seq<Id>, b: Bytes, id: Id)
    requires Consuming(p) && Complete(fs, |b|) <= |ids| && Offset(fs, Complete(fs, |b|)) <= |b|
    ensures Handle(p, Expected(fs, ids, b), Send(id)) == Expected(fs, ids + [id], b)
  {
    var j := Complete(fs, |b|);
    assert (ids + [id])[..j] == ids[..j] && (ids + [id])[j..] == ids[j..] + [id];
  }

  lemma OrderlyInit<V>(fs: seq<Frame<V>>, events: seq<Event>)
    requires Orderly(fs, events)
    ensures OrderlyAt(fs, events)
    ensures events != [] ==> Orderly(fs, events[..|events| - 1])
  {
    assert events[..|events|] == events;
    if events != [] {
      var init := events[..|events| - 1];
      forall i | 0 <= i <= |init| ensures OrderlyAt(fs, init[..i]) {
        assert init[..i] == events[..i];
      }
    }
  }

  // However the stream is cut into chunks and interleaved with requests, each complete
  // frame settles its own request, in order.
  lemma {:induction false} ChunksDoNotMatter<V>(p: Parser<V>, fs: seq<Frame<V>>, events: seq<Event>)
    requires AllFramed(p, fs) && Orderly(fs, events)
    ensures OrderlyAt(fs, events) && Offset(fs, Complete(fs, |Received(events)|)) <= |Received(events)|
    ensures Run(p, events) == Expected(fs, Sent(events), Received(events))
    decreases |events|
  {
    OrderlyInit(fs, events);
    DrainFrom(p, fs, 0, Received(events));
    if events == [] {
      assert fs[..0] == [];
    } else {
      var init, e := events[..|events| - 1], events[|events| - 1];
      ChunksDoNotMatter(p, fs, init);
      match e
      case Data(chunk) =>
        assert Sent(events) == Sent(init);
        DataKeeps(p, fs, Sent(init), Received(init), chunk);
      case Send(id) =>
        assert Received(events) == Received(init);
        SendKeeps(p, fs, Sent(init), Received(init), id);
    }
  }

  lemma {:induction false} AllComplete<V>(fs: seq<Frame<V>>)
    ensures Complete(fs, |Stream(fs)|) == |fs| && Offset(fs, |fs|) == |Stream(fs)|
    decreases |fs|
  {
    if fs != [] {
      AllComplete(fs[1..]);
    }
  }

  // Once every byte has arrived, every request has its own value and nothing is left over.
  lemma AllDelivered<V>(p: Parser<V>, fs: seq<Frame<V>>, events: seq<Event>)
    requires AllFramed(p, fs) && Orderly(fs, events) && Received(events) == Stream(fs) && |Sent(events)| == |fs|
    ensures Run(p, events) == State([], [], Settle(Sent(events), Values(fs)))
  {
    ChunksDoNotMatter(p, fs, events);
    AllComplete(fs);
    assert fs[..|fs|] == fs && Sent(events)[..|fs|] == Sent(events);
  }
}
