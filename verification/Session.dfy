/** A session's receiving side: bytes are appended to a buffer and every complete packet is drained from it. */
module Session {
  import opened Wrappers
  import opened ByteOrder
  import opened Codec

  /** The bodies taken off a buffer, what is left of it, and the exception that stopped the draining, if any. */
  datatype Drained = Drained(bodies: seq<Bytes>, rest: Bytes, failure: Option<string>)

  function Drain(buffer: Bytes): (d: Drained)
    decreases |buffer|
  {
    match FirstFrame(buffer)
    case Incomplete => Drained([], buffer, None)
    case Malformed(message) => Drained([], buffer, Some(message))
    case Packet(body, rest) =>
      var d := Drain(rest);
      d.(bodies := [body] + d.bodies)
  }

  /** Chunks arriving one after another; after an exception nothing more is read. */
  function Receiving(buffer: Bytes, chunks: seq<Bytes>): Drained
    decreases chunks
  {
    if chunks == [] then Drained([], buffer, None)
    else
      var d := Drain(buffer + chunks[0]);
      if d.failure.Some? then d
      else
        var more := Receiving(d.rest, chunks[1..]);
        more.(bodies := d.bodies + more.bodies)
  }

  class Session {
    const recvBuffer: ByteVector
    var requests: seq<Bytes>  // the bodies handed to the request handler

    constructor ()
      ensures fresh(recvBuffer) && recvBuffer.bytes == [] && requests == []
    {
      recvBuffer := new ByteVector();
      requests := [];
    }

    /** Drains the buffer, handing over each body; lets the decoder's exception pass. */
    method ProcessBuffer() returns (failure: Option<string>)
      modifies this, recvBuffer
      ensures var d := Drain(old(recvBuffer.bytes));
              requests == old(requests) + d.bodies && recvBuffer.bytes == d.rest && failure == d.failure
    {
      hide FirstFrame;
      var body := new ByteVector();
      ghost var whole := Drain(recvBuffer.bytes);
      ghost var taken: seq<Bytes> := [];
      var more := true;
      while more
        invariant body != recvBuffer && fresh(body) && requests == old(requests) + taken
        invariant var d := Drain(recvBuffer.bytes); whole == d.(bodies := taken + d.bodies)
        invariant !more ==> FirstFrame(recvBuffer.bytes).Incomplete?
        decreases more, |recvBuffer.bytes|
      {
        ghost var d := Drain(recvBuffer.bytes);
        var r := TryDecodeOne(recvBuffer, body);
        if r.Throw? {
          assert taken + [] == taken;
          return Some(r.message);
        }
        more := r.value;
        if more {
          requests := requests + [body.bytes];
          taken := taken + [body.bytes];
          assert taken[..|taken| - 1] + d.bodies == taken + d.bodies[1..];
        }
      }
      assert taken + [] == taken;
      return None;
    }

    /** One completed read: append the chunk, then drain. */
    method Receive(chunk: Bytes) returns (failure: Option<string>)
      modifies this, recvBuffer
      ensures var d := Drain(old(recvBuffer.bytes) + chunk);
              requests == old(requests) + d.bodies && recvBuffer.bytes == d.rest && failure == d.failure
    {
      recvBuffer.bytes := recvBuffer.bytes + chunk;
      failure := ProcessBuffer();
    }

    /** One read after another, until an exception ends the reading. */
    method ReceiveAll(chunks: seq<Bytes>) returns (failure: Option<string>)
      modifies this, recvBuffer
      ensures var d := Receiving(old(recvBuffer.bytes), chunks);
              requests == old(requests) + d.bodies && recvBuffer.bytes == d.rest && failure == d.failure
    {
      hide Drain;
      ghost var whole := Receiving(recvBuffer.bytes, chunks);
      ghost var taken: seq<Bytes> := [];
      assert chunks[0..] == chunks && requests + [] == requests;
      for i := 0 to |chunks|
        invariant requests == old(requests) + taken
        invariant var d := Receiving(recvBuffer.bytes, chunks[i..]); whole == d.(bodies := taken + d.bodies)
      {
        assert chunks[i..][1..] == chunks[i + 1..];
        ghost var d := Drain(recvBuffer.bytes + chunks[i]);
        ghost var more := Receiving(d.rest, chunks[i + 1..]).bodies;
        failure := Receive(chunks[i]);
        Regroup(old(requests), taken, d.bodies);
        Regroup(taken, d.bodies, more);
        taken := taken + d.bodies;
        if failure.Some? {
          return;
        }
      }
      assert taken + [] == taken;
      return None;
    }
  }

  // What draining means.

  function Concatenated(parts: seq<Bytes>): Bytes {
    if parts == [] then [] else parts[0] + Concatenated(parts[1..])
  }

  function Stream(bodies: seq<Bytes>): Bytes {
    if bodies == [] then [] else Encoded(bodies[0]) + Stream(bodies[1..])
  }

  /** Nothing is lost: the buffer was the encodings of the bodies taken, then what is left. */
  lemma {:induction false} DrainConserves(buffer: Bytes)
    ensures var d := Drain(buffer);
            && buffer == Stream(d.bodies) + d.rest && (forall b | b in d.bodies :: Sendable(b))
            && match FirstFrame(d.rest)
               case Incomplete => d.failure == None
               case Malformed(message) => d.failure == Some(message)
               case Packet(_, _) => false
    decreases |buffer|
  {
    hide FirstFrame, Encoded, Sendable;
    var d := Drain(buffer);
    match FirstFrame(buffer) {
      case Packet(body, rest) =>
        FrameIffEncoded(buffer, body, rest);
        DrainConserves(rest);
        assert d.bodies[1..] == Drain(rest).bodies;
        Regroup(Encoded(body), Stream(d.bodies[1..]), d.rest);
      case _ =>
        assert Stream([]) + buffer == buffer;
    }
  }

  /** Encodings in front of a buffer are taken off one by one. */
  lemma {:induction false} DrainOfStream(bodies: seq<Bytes>, rest: Bytes)
    requires forall b | b in bodies :: Sendable(b)
    ensures var d := Drain(rest); Drain(Stream(bodies) + rest) == d.(bodies := bodies + d.bodies)
    decreases bodies
  {
    hide FirstFrame, Encoded, Sendable;
    if bodies == [] {
      assert Stream(bodies) + rest == rest;
      assert [] + Drain(rest).bodies == Drain(rest).bodies;
    } else {
      var more := Stream(bodies[1..]);
      Regroup(Encoded(bodies[0]), more, rest);
      FrameIffEncoded(Stream(bodies) + rest, bodies[0], more + rest);
      DrainOfStream(bodies[1..], rest);
      assert bodies + Drain(rest).bodies == [bodies[0]] + (bodies[1..] + Drain(rest).bodies);
    }
  }

  /** Draining after each of two arrivals does what draining once after both does. */
  lemma DrainInTwo(buffer: Bytes, more: Bytes)
    ensures var d, e := Drain(buffer), Drain(buffer + more);
            if d.failure.Some? then e == Drained(d.bodies, d.rest + more, d.failure)
            else var f := Drain(d.rest + more); e == f.(bodies := d.bodies + f.bodies)
  {
    hide FirstFrame, Sendable, Stream;
    var d := Drain(buffer);
    DrainConserves(buffer);
    Regroup(Stream(d.bodies), d.rest, more);
    DrainOfStream(d.bodies, d.rest + more);
    if d.failure.Some? {
      FrameIsStable(d.rest, more);
      assert d.bodies + [] == d.bodies;
    }
  }

  /**
   * How a byte stream is cut into chunks does not matter: the same bodies are handed over, the same exception
   * is thrown, and if there is none, the same bytes wait in the buffer.
   */
  lemma {:induction false} ChunkingDoesNotMatter(buffer: Bytes, chunks: seq<Bytes>)
    requires FirstFrame(buffer).Incomplete?
    ensures var r, d := Receiving(buffer, chunks), Drain(buffer + Concatenated(chunks));
            && r.bodies == d.bodies && r.failure == d.failure && (r.failure.None? ==> r.rest == d.rest)
    decreases chunks
  {
    hide FirstFrame;
    if chunks == [] {
      assert buffer + Concatenated(chunks) == buffer;
    } else {
      var d := Drain(buffer + chunks[0]);
      var more := Concatenated(chunks[1..]);
      Regroup(buffer, chunks[0], more);
      DrainInTwo(buffer + chunks[0], more);
      DrainConserves(buffer + chunks[0]);
      if d.failure.None? {
        ChunkingDoesNotMatter(d.rest, chunks[1..]);
      }
    }
  }

  lemma NothingIsIncomplete()
    ensures FirstFrame([]).Incomplete?
  {
  }

  /** Bodies of bounded size arrive exactly, in order, without an exception and without a rest. */
  lemma StreamArrives(bodies: seq<Bytes>, chunks: seq<Bytes>)
    requires Concatenated(chunks) == Stream(bodies)
    requires forall b | b in bodies :: Sendable(b)
    ensures Receiving([], chunks) == Drained(bodies, [], None)
  {
    hide FirstFrame, Sendable, Stream, Receiving;
    NothingIsIncomplete();
    ChunkingDoesNotMatter([], chunks);
    assert [] + Concatenated(chunks) == Stream(bodies) + [];
    DrainOfStream(bodies, []);
    assert bodies + [] == bodies;
  }

  /** And only those: an error-free, complete stream is the concatenated encodings of what was handed over. */
  lemma ArrivedWasSent(chunks: seq<Bytes>, bodies: seq<Bytes>)
    ensures Receiving([], chunks) == Drained(bodies, [], None)
        <==> Concatenated(chunks) == Stream(bodies) && forall b | b in bodies :: Sendable(b)
  {
    hide FirstFrame, Sendable, Stream, Receiving;
    if Receiving([], chunks) == Drained(bodies, [], None) {
      NothingIsIncomplete();
      ChunkingDoesNotMatter([], chunks);
      assert [] + Concatenated(chunks) == Concatenated(chunks);
      DrainConserves(Concatenated(chunks));
      assert Stream(bodies) + [] == Stream(bodies);
    } else if Concatenated(chunks) == Stream(bodies) && forall b | b in bodies :: Sendable(b) {
      StreamArrives(bodies, chunks);
    }
  }
}
