/** The wire format shared by the chat server and its clients: the message
    schema, the byte stream a socket delivers, and the length-prefixed frame
    (2-byte big-endian length, then the JSON payload). The JSON body itself is
    an opaque sequence of bytes here. */
module Wire {

  datatype Option<T> = None | Some(value: T)

  datatype Result<T, E> = Ok(value: T) | Err(error: E)

  /** One byte on the wire. */
  type Byte = b: int | 0 <= b < 256

  /** A non-empty piece of the incoming stream, as the network hands it to
      one socket read. The stream a peer sends is the concatenation of its
      pieces; splitting it differently models a different arrival pattern. */
  type Segment = s: seq<Byte> | |s| > 0 witness [0]

  // The operation codes the server dispatches on.
  const IDENTIFY: int := 1
  const SEND: int := 2

  /** The largest payload a 2-byte length prefix can announce. */
  const MAX_PAYLOAD: int := 65535

  /** The largest read either side asks its socket for at once. */
  const BUF_SIZE: int := 4096

  /** A protocol message, one variant per operation code: ERROR 0,
      IDENTIFY 1, SEND 2, RECEIVE 3, JOIN 4, LEAVE 5, INFO 6. */
  datatype Message =
    | Error(message: string)
    | Identify(name: string)
    | Send(message: string)
    | Receive(user: string, message: string)
    | Join(name: string)
    | Leave(name: string)
    | Info(users: seq<string>)

  function Min(a: int, b: int): int
  {
    if a <= b then a else b
  }

  function Pow256(n: nat): nat
  {
    if n == 0 then 1 else 256 * Pow256(n - 1)
  }

  /** `int.from_bytes(bs, "big")`: an unsigned value that fits in `|bs|`
      bytes, its last byte the lowest digit. */
  function BigEndian(bs: seq<Byte>): (r: nat)
    ensures r < Pow256(|bs|)
    ensures bs != [] ==> r % 256 == bs[|bs| - 1]
  {
    if bs == [] then 0 else BigEndian(bs[..|bs| - 1]) * 256 + bs[|bs| - 1]
  }

  /** Two bytes read big-endian give a value that fits in 16 bits. */
  lemma BigEndianPair(bs: seq<Byte>)
    requires |bs| == 2
    ensures BigEndian(bs) == (bs[0] as int) * 256 + bs[1]
    ensures BigEndian(bs) <= MAX_PAYLOAD
  {
    assert bs[..1][..0] == [];
    assert BigEndian(bs[..1]) == bs[0];
  }

  datatype FrameError = Overflow(length: nat)

  /** `send_json`'s framing: `int.to_bytes(len(dump), 2, "big") + dump`.
      `to_bytes` raises OverflowError when the length needs more than two
      bytes, so an over-long payload is an error, not a wrapped length. */
  function Frame(payload: seq<Byte>): (r: Result<seq<Byte>, FrameError>)
    ensures r.Ok? <==> |payload| <= MAX_PAYLOAD
    ensures r.Err? ==> r.error == Overflow(|payload|)
    ensures r.Ok? ==>
              && |r.value| == 2 + |payload|
              && BigEndian(r.value[..2]) == |payload|
              && r.value[2..] == payload
  {
    var n := |payload|;
    if n > MAX_PAYLOAD then Err(Overflow(n))
    else
      var hi: Byte := n / 256;
      var lo: Byte := n % 256;
      var header := [hi, lo];
      BigEndianPair(header);
      Ok(header + payload)
  }

  /** The reader's view of one frame at the head of a byte stream: two
      length bytes, then exactly that many payload bytes, and what follows.
      A stream that ends early yields no frame: never a partial one. */
  function ParseFrame(stream: seq<Byte>): (r: Option<(seq<Byte>, seq<Byte>)>)
    ensures r.Some? <==> 2 <= |stream| && 2 + BigEndian(stream[..2]) <= |stream|
    ensures r.Some? ==>
              && |r.value.0| == BigEndian(stream[..2])
              && |r.value.0| <= MAX_PAYLOAD
              && stream == stream[..2] + r.value.0 + r.value.1
  {
    if |stream| < 2 then None
    else
      BigEndianPair(stream[..2]);
      var n := BigEndian(stream[..2]);
      if |stream| < 2 + n then None
      else
        assert stream == stream[..2] + stream[2..2 + n] + stream[2 + n..];
        Some((stream[2..2 + n], stream[2 + n..]))
  }

  /** Decoding inverts encoding: a framed payload, followed by anything,
      parses back to that payload and leaves the rest untouched. */
  lemma RoundTrip(payload: seq<Byte>, rest: seq<Byte>)
    requires |payload| <= MAX_PAYLOAD
    ensures Frame(payload).Ok?
    ensures ParseFrame(Frame(payload).value + rest) == Some((payload, rest))
  {
    var f := Frame(payload).value;
    var s := f + rest;
    assert s[..2] == f[..2];
    assert s[2..2 + |payload|] == payload;
    assert s[2 + |payload|..] == rest;
  }

  /** Two payloads that frame to the same bytes are equal. */
  lemma FrameInjective(p: seq<Byte>, q: seq<Byte>)
    requires Frame(p).Ok? && Frame(q).Ok? && Frame(p).value == Frame(q).value
    ensures p == q
  {
  }

  /** `b"".join(chunks)`: the chunks concatenated in order. */
  function Concat(chunks: seq<seq<Byte>>): seq<Byte>
  {
    if chunks == [] then [] else chunks[0] + Concat(chunks[1..])
  }

  lemma {:induction false} ConcatSnoc(chunks: seq<seq<Byte>>, c: seq<Byte>)
    ensures Concat(chunks + [c]) == Concat(chunks) + c
  {
    if chunks == [] {
      assert [] + [c] == [c];
      assert [c][1..] == [];
    } else {
      assert (chunks + [c])[1..] == chunks[1..] + [c];
      ConcatSnoc(chunks[1..], c);
    }
  }

  /** Pieces are never empty, so a stream of pieces has bytes exactly when
      it has a piece. */
  lemma ConcatEmpty(segments: seq<Segment>)
    ensures Concat(segments) == [] <==> segments == []
  {
  }

  /** One `socket.recv(max)`: at most `max` bytes, taken from the first piece of
      the incoming stream; an empty result means the peer closed the stream. */
  function SocketRecv(segments: seq<Segment>, max: nat): (r: (seq<Byte>, seq<Segment>))
    ensures |r.0| <= max
    ensures r.0 + Concat(r.1) == Concat(segments)
    ensures r.0 == [] <==> max == 0 || segments == []
  {
    if max == 0 || segments == [] then ([], segments)
    else
      var head := segments[0];
      if |head| <= max then (head, segments[1..])
      else
        var tail: Segment := head[max..];
        assert ([tail] + segments[1..])[1..] == segments[1..];
        assert head[..max] + tail == head;
        (head[..max], [tail] + segments[1..])
  }
}
