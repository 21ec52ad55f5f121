// The Node client's receiving side (clients/node/memcore.mjs): replies arrive in chunks cut
// anywhere, and settle the pending requests in the order they were sent.
module NodeClient {
  import opened ByteStrings
  import opened Replies
  import opened Framing

  lemma ParseConsumes()
    ensures Consuming(Parse) && Parse([]).Partial?
  {
  }

  // One value after another to the oldest waiter.
  function Deliver(pending: seq<Id>, settled: seq<(Id, Value)>, vs: seq<Value>): (r: (seq<Id>, seq<(Id, Value)>))
    decreases |vs|
  {
    if vs == [] then (pending, settled)
    else if pending == [] then Deliver(pending, settled, vs[1..])
    else Deliver(pending[1..], settled + [(pending[0], vs[0])], vs[1..])
  }

  lemma {:induction false} DeliverIs(pending: seq<Id>, settled: seq<(Id, Value)>, vs: seq<Value>)
    ensures
      var n := Min(|vs|, |pending|);
      Deliver(pending, settled, vs) == (pending[n..], settled + Settle(pending[..n], vs[..n]))
    decreases |vs|
  {
    var n := Min(|vs|, |pending|);
    if vs == [] {
      assert settled + Settle(pending[..n], vs[..n]) == settled;
    } else if pending == [] {
      DeliverIs(pending, settled, vs[1..]);
      assert Settle(pending[..n], vs[..n]) == [] == Settle(pending[..0], vs[1..][..0]);
    } else {
      DeliverIs(pending[1..], settled + [(pending[0], vs[0])], vs[1..]);
      var first := [(pending[0], vs[0])];
      var others := Settle(pending[1..][..n - 1], vs[1..][..n - 1]);
      assert Settle(pending[..n], vs[..n]) == first + others;
      assert settled + first + others == settled + (first + others);
      assert pending[1..][n - 1..] == pending[n..];
    }
  }

  class Client {
    var buffer: Bytes
    var pending: seq<Id>
    var settled: seq<(Id, Value)>

    ghost function View(): (s: State<Value>)
      reads this
    {
      State(buffer, pending, settled)
    }

    constructor ()
      ensures View() == State([], [], [])
    {
      buffer, pending, settled := [], [], [];
    }

    method Send(id: Id)
      modifies this
      ensures Consuming(Parse) && View() == Handle(Parse, old(View()), Event.Send(id))
    {
      ParseConsumes();
      pending := pending + [id];
    }

    method OnData(chunk: Bytes) returns (ok: bool)
      modifies this
      ensures Consuming(Parse) && View() == Handle(Parse, old(View()), Data(chunk))
      ensures ok == Drain(Parse, old(buffer) + chunk).ok
    {
      ParseConsumes();
      buffer := buffer + chunk;
      ghost var d := Drain(Parse, buffer);
      ok := true;
      while true
        invariant ok
        invariant Drain(Parse, buffer).rest == d.rest && Drain(Parse, buffer).ok == d.ok
        invariant Deliver(pending, settled, Drain(Parse, buffer).values) ==
          Deliver(old(pending), old(settled), d.values)
        decreases |buffer|
      {
        var parsed := Parse(buffer);
        if parsed.Thrown? {
          ok := false;
          break;
        }
        if parsed.Partial? {
          break;
        }
        assert ([parsed.value] + Drain(Parse, parsed.rest).values)[1..] == Drain(Parse, parsed.rest).values;
        buffer := parsed.rest;
        if pending == [] {
          continue;
        }
        pending, settled := pending[1..], settled + [(pending[0], parsed.value)];
      }
      DeliverIs(old(pending), old(settled), d.values);
    }
  }

  // The replies as frames of the stream.
  function FramesOf(rs: seq<Reply>): (fs: seq<Frame<Value>>)
    ensures |fs| == |rs|
  {
    seq(|rs|, i requires 0 <= i < |rs| => Frame(Encode(rs[i]), Decoded(rs[i])))
  }

  // The parser takes every clean reply whole, and nothing less.
  lemma ReplyFramed(r: Reply)
    requires Clean(r)
    ensures Framed(Parse, Frame(Encode(r), Decoded(r)))
  {
    forall rest ensures Parse(Encode(r) + rest) == Parsed(Decoded(r), rest) {
      ParseEncode(r, rest);
    }
    forall k | 0 <= k < |Encode(r)| ensures Parse(Encode(r)[..k]).Partial? {
      ReplyCut(r, k);
    }
  }

  lemma {:induction false} CleanAt(rs: seq<Reply>, i: nat)
    requires AllClean(rs) && i < |rs|
    ensures Clean(rs[i])
    decreases i
  {
    if i > 0 {
      CleanAt(rs[1..], i - 1);
    }
  }

  lemma RepliesFramed(rs: seq<Reply>)
    requires AllClean(rs)
    ensures AllFramed(Parse, FramesOf(rs))
  {
    ParseConsumes();
    forall i | 0 <= i < |rs| ensures Framed(Parse, FramesOf(rs)[i]) {
      CleanAt(rs, i);
      ReplyFramed(rs[i]);
    }
  }

  lemma {:induction false} FramesAre(rs: seq<Reply>)
    ensures Stream(FramesOf(rs)) == EncodeAll(rs) && Values(FramesOf(rs)) == DecodedAll(rs)
    decreases |rs|
  {
    if rs != [] {
      FramesAre(rs[1..]);
      assert FramesOf(rs)[1..] == FramesOf(rs[1..]);
      assert Values(FramesOf(rs)) == [Decoded(rs[0])] + Values(FramesOf(rs[1..]));
    }
  }

  // For every list of clean replies, every way of cutting their bytes into chunks and every
  // interleaving with the requests they answer, each request is settled with its own reply.
  lemma RepliesReachTheirRequests(rs: seq<Reply>, events: seq<Event>)
    requires AllClean(rs) && Orderly(FramesOf(rs), events)
    requires Received(events) == EncodeAll(rs) && |Sent(events)| == |rs|
    ensures Consuming(Parse) && Run(Parse, events) == State([], [], Settle(Sent(events), DecodedAll(rs)))
  {
    RepliesFramed(rs);
    FramesAre(rs);
    AllDelivered(Parse, FramesOf(rs), events);
  }

  // And at any moment before that, the replies that have arrived whole are delivered.
  lemma PartialDelivery(rs: seq<Reply>, events: seq<Event>)
    requires AllClean(rs) && Orderly(FramesOf(rs), events)
    ensures
      var fs := FramesOf(rs);
      var j := Complete(fs, |Received(events)|);
      && Consuming(Parse) && j <= |Sent(events)| && Offset(fs, j) <= |Received(events)|
      && Run(Parse, events) ==
         State(Received(events)[Offset(fs, j)..], Sent(events)[j..], Settle(Sent(events)[..j], Values(fs[..j])))
  {
    RepliesFramed(rs);
    ChunksDoNotMatter(Parse, FramesOf(rs), events);
  }
}
