/** The per-request body collector that every body-reading handler installs:
    a `data` handler that pushes each chunk onto an array unless the array
    already holds more than 1e6 chunks, in which case it destroys the
    connection and drops the chunk, and an `end` handler that concatenates
    the array into one buffer. The guard counts chunks, not bytes. */
module BodyCollector {

  newtype byte = x: int | 0 <= x < 256

  /** One `data` event's payload. */
  type Chunk = seq<byte>

  /** The `1e6` of the flood guard, compared with the number of chunks. */
  const FLOOD_LIMIT: nat := 1000000

  /** The collector's state: the chunk array and whether the connection
      has been destroyed. */
  datatype State = State(chunks: seq<Chunk>, destroyed: bool)

  /** The state a handler starts from: `let body = [];`. */
  const INITIAL: State := State([], false)

  /** The `data` handler as a step on the state: it only ever appends one
      chunk, keeps the array within FLOOD_LIMIT + 1, and destroys the
      connection exactly when the array already holds more than 1e6. */
  function Step(s: State, chunk: Chunk): (r: State)
    ensures s.chunks <= r.chunks && |r.chunks| <= |s.chunks| + 1
    ensures |s.chunks| <= FLOOD_LIMIT + 1 ==> |r.chunks| <= FLOOD_LIMIT + 1
    ensures r.destroyed <==> s.destroyed || |s.chunks| > FLOOD_LIMIT
    ensures |s.chunks| <= FLOOD_LIMIT ==> r == State(s.chunks + [chunk], s.destroyed)
    ensures |s.chunks| > FLOOD_LIMIT ==> r.chunks == s.chunks
  {
    if |s.chunks| > FLOOD_LIMIT then State(s.chunks, true)
    else State(s.chunks + [chunk], s.destroyed)
  }

  /** The state after the chunks of `stream` have arrived in order: the
      chunks already held are kept, the bound is kept, and a destroyed
      connection stays destroyed. */
  function Feed(s: State, stream: seq<Chunk>): (r: State)
    ensures s.chunks <= r.chunks
    ensures |s.chunks| <= FLOOD_LIMIT + 1 ==> |r.chunks| <= FLOOD_LIMIT + 1
    ensures s.destroyed ==> r.destroyed
    decreases |stream|
  {
    if stream == [] then s else Feed(Step(s, stream[0]), stream[1..])
  }

  /** `Buffer.concat`: the bytes of the chunks, in order, as many as all
      chunks hold together. */
  function Concat(chunks: seq<Chunk>): (bytes: seq<byte>)
    ensures |bytes| == TotalLength(chunks)
    decreases |chunks|
  {
    if chunks == [] then [] else chunks[0] + Concat(chunks[1..])
  }

  /** Sum of the chunk lengths. */
  function TotalLength(chunks: seq<Chunk>): nat
    decreases |chunks|
  {
    if chunks == [] then 0 else |chunks[0]| + TotalLength(chunks[1..])
  }

  function Min(a: int, b: int): int
  {
    if a <= b then a else b
  }

  /** The closed form of a stream's effect: from a state within the bound,
      the chunks are kept until the array holds FLOOD_LIMIT + 1 of them,
      every later chunk is dropped, and the connection is destroyed exactly
      when some chunk was dropped. */
  lemma {:induction false} FeedClosedForm(s: State, stream: seq<Chunk>)
    requires |s.chunks| <= FLOOD_LIMIT + 1
    ensures Feed(s, stream) ==
              State(s.chunks + stream[..Min(|stream|, FLOOD_LIMIT + 1 - |s.chunks|)],
                    s.destroyed || |s.chunks| + |stream| > FLOOD_LIMIT + 1)
    decreases |stream|
  {
    if stream != [] {
      var t := Step(s, stream[0]);
      FeedClosedForm(t, stream[1..]);
      if |s.chunks| <= FLOOD_LIMIT {
        var k := Min(|stream| - 1, FLOOD_LIMIT - |s.chunks|);
        assert [stream[0]] + stream[1..][..k] == stream[..k + 1];
      } else {
        assert stream[..0] == [];
      }
    }
  }

  /** A fresh collector fed `stream`: at most FLOOD_LIMIT + 1 chunks are
      kept, they are the first ones in arrival order, and the connection is
      destroyed iff the stream had more chunks than that. */
  lemma FeedFromInitial(stream: seq<Chunk>)
    ensures var t := Feed(INITIAL, stream);
            && t.chunks == stream[..Min(|stream|, FLOOD_LIMIT + 1)]
            && |t.chunks| <= FLOOD_LIMIT + 1
            && (t.destroyed <==> |stream| > FLOOD_LIMIT + 1)
  {
    FeedClosedForm(INITIAL, stream);
  }

  /** Concatenation distributes over appending chunk arrays. */
  lemma {:induction false} ConcatAppend(a: seq<Chunk>, b: seq<Chunk>)
    ensures Concat(a + b) == Concat(a) + Concat(b)
    decreases |a|
  {
    if a == [] {
      assert a + b == b;
    } else {
      ConcatAppend(a[1..], b);
      assert (a + b)[0] == a[0] && (a + b)[1..] == a[1..] + b;
      calc {
        Concat(a + b);
        a[0] + Concat(a[1..] + b);
        a[0] + (Concat(a[1..]) + Concat(b));
        (a[0] + Concat(a[1..])) + Concat(b);
      }
    }
  }

  /** The assembled buffer holds chunk `i` right after the bytes of the
      chunks before it: arrival order is kept byte for byte. */
  lemma ConcatAt(chunks: seq<Chunk>, i: nat)
    requires i < |chunks|
    ensures Concat(chunks) == Concat(chunks[..i]) + chunks[i] + Concat(chunks[i + 1..])
  {
    var before, rest := chunks[..i], chunks[i..];
    assert chunks == before + rest;
    ConcatAppend(before, rest);
    assert rest[0] == chunks[i] && rest[1..] == chunks[i + 1..];
    assert Concat(rest) == chunks[i] + Concat(chunks[i + 1..]);
  }

  /** The guard bounds the number of chunks only: a single first chunk of
      any size is stored whole. */
  lemma FirstChunkOfAnySizeKept(chunk: Chunk)
    ensures Step(INITIAL, chunk) == State([chunk], false)
    ensures Concat(Step(INITIAL, chunk).chunks) == chunk
  {
    assert Concat([chunk]) == chunk + Concat([]);
  }

  /** The collector object a handler owns: `body` is the chunk array and
      `destroyed` records `request.connection.destroy()`. */
  class Collector {

    var body: seq<Chunk>
    var destroyed: bool

    /** The flood guard's invariant. */
    ghost predicate Valid()
      reads this
    {
      |body| <= FLOOD_LIMIT + 1
    }

    /** The abstract state. */
    function Snapshot(): State
      reads this
    {
      State(body, destroyed)
    }

    constructor ()
      ensures Valid() && Snapshot() == INITIAL
    {
      body := [];
      destroyed := false;
    }

    /** The `data` handler. */
    method OnData(chunk: Chunk)
      requires Valid()
      modifies this
      ensures Valid()
      ensures Snapshot() == Step(old(Snapshot()), chunk)
      ensures old(|body|) <= FLOOD_LIMIT ==> body == old(body) + [chunk] && destroyed == old(destroyed)
      ensures old(|body|) > FLOOD_LIMIT ==> body == old(body) && destroyed
      ensures old(body) <= body
    {
      if |body| > FLOOD_LIMIT {
        destroyed := true;
        return;
      }
      body := body + [chunk];
    }

    /** The `end` handler's `Buffer.concat(body)`. */
    method OnEnd() returns (bodyBytes: seq<byte>)
      ensures bodyBytes == Concat(body)
      ensures |bodyBytes| == TotalLength(body)
    {
      bodyBytes := Concat(body);
    }
  }
}
