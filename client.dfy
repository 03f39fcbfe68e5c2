/** The chat client's protocol side: the socket client that frames outgoing
    requests, reads and dispatches incoming frames and keeps the counters
    shown in the status bar, and the rule that turns a line typed at the
    prompt into a request. What the window prints is kept as a transcript
    of lines; drawing and the byte-counter text are not modelled. */
module Client {
  import opened Wire
  import Server

  /** A line the window prints in reaction to the server. */
  datatype Line =
    | Said(user: string, message: string)
    | Joined(name: string)
    | Left(name: string)
    | NameTaken
    | ConnectionLost

  /** The result of decoding one incoming frame body: `NotJson` when UTF-8
      decoding or `json.loads` raises; `KeyMissing` when `payload["op"]`, or
      the field its handler reads, raises; `Unknown` for an op that matches
      none of the five handled ones; `Known(m)` otherwise. */
  datatype Inbound = NotJson | KeyMissing | Unknown | Known(msg: Message)

  /** Why `handle_message` stops: the stream ended (`recv` returned None),
      a body was not JSON (an empty body included), or a key was missing. */
  datatype Halt = Lost | Undecodable | BadShape

  /** The client state `handle_message` changes. */
  datatype View = View(identified: bool, online: int, bytesRecv: int, transcript: seq<Line>)

  const NAME_IN_USE_TEXT: string := "Name already in use"

  /** Python's `needle in text` on strings. */
  predicate Contains(text: string, needle: string)
  {
    exists k :: 0 <= k <= |text| && needle <= text[k..]
  }

  /** The server's reply to a taken name is the error the client shows. */
  lemma NameInUseRecognised()
    ensures Contains(Server.NAME_IN_USE, NAME_IN_USE_TEXT)
  {
    assert NAME_IN_USE_TEXT <= Server.NAME_IN_USE[0..];
  }

  /** A message handler: `on_receive`, `on_join`, `on_leave`, `on_error`
      or `on_info`; other ops change nothing. */
  function Apply(v: View, m: Message): (r: View)
    ensures r.bytesRecv == v.bytesRecv
    ensures r.transcript == v.transcript || (exists l :: r.transcript == v.transcript + [l])
  {
    match m
    case Receive(user, text) => v.(transcript := v.transcript + [Said(user, text)])
    case Join(name) => v.(online := v.online + 1, transcript := v.transcript + [Joined(name)])
    case Leave(name) => v.(online := v.online - 1, transcript := v.transcript + [Left(name)])
    case Error(text) => if Contains(text, NAME_IN_USE_TEXT) then v.(transcript := v.transcript + [NameTaken]) else v
    case Info(users) => v.(online := |users|, identified := true)
    case Identify(_) => v
    case Send(_) => v
  }

  function LoseConnection(v: View): View
  {
    v.(transcript := v.transcript + [ConnectionLost])
  }

  /** The line the window printed last, if any. */
  function LastLine(v: View): Option<Line>
  {
    if v.transcript == [] then None else Some(v.transcript[|v.transcript| - 1])
  }

  /** What `handle_message` does with the whole incoming byte stream: one
      frame at a time, the byte counter grows by the body length plus 16
      before dispatch, and the loop ends at the first frame it cannot use. */
  function Replay(v: View, stream: seq<Byte>, parse: seq<Byte> -> Inbound): (r: (View, Halt))
    decreases |stream|
  {
    match ParseFrame(stream)
    case None => (LoseConnection(v), Lost)
    case Some((body, rest)) =>
      if body == [] then (v, Undecodable)
      else
        var counted := v.(bytesRecv := v.bytesRecv + |body| + 16);
        match parse(body)
        case NotJson => (v, Undecodable)
        case KeyMissing => (counted, BadShape)
        case Unknown => Replay(counted, rest, parse)
        case Known(m) => Replay(Apply(counted, m), rest, parse)
  }

  /** One turn of the loop on a complete, non-empty frame. */
  lemma ReplayStep(v: View, stream: seq<Byte>, parse: seq<Byte> -> Inbound, body: seq<Byte>, rest: seq<Byte>)
    requires ParseFrame(stream) == Some((body, rest)) && body != []
    ensures var counted := v.(bytesRecv := v.bytesRecv + |body| + 16);
      && (parse(body).NotJson? ==> Replay(v, stream, parse) == (v, Undecodable))
      && (parse(body).KeyMissing? ==> Replay(v, stream, parse) == (counted, BadShape))
      && (parse(body).Unknown? ==> Replay(v, stream, parse) == Replay(counted, rest, parse))
      && (parse(body).Known? ==> Replay(v, stream, parse) == Replay(Apply(counted, parse(body).msg), rest, parse))
  {
  }

  /** Handling only ever adds: the transcript grows at its end, the
      received counter never falls, and an identified client stays
      identified. */
  lemma {:induction false} ReplayGrows(v: View, stream: seq<Byte>, parse: seq<Byte> -> Inbound)
    decreases |stream|
    ensures var w := Replay(v, stream, parse).0;
      v.transcript <= w.transcript && v.bytesRecv <= w.bytesRecv && (v.identified ==> w.identified)
  {
    var frame := ParseFrame(stream);
    if frame.Some? && frame.value.0 != [] {
      var body, rest := frame.value.0, frame.value.1;
      ReplayStep(v, stream, parse, body, rest);
      var counted := v.(bytesRecv := v.bytesRecv + |body| + 16);
      if parse(body).Unknown? {
        ReplayGrows(counted, rest, parse);
      } else if parse(body).Known? {
        ReplayGrows(Apply(counted, parse(body).msg), rest, parse);
      }
    }
  }

  /** When the stream runs out, the last line printed is the lost
      connection. */
  lemma {:induction false} ReplayLost(v: View, stream: seq<Byte>, parse: seq<Byte> -> Inbound)
    decreases |stream|
    ensures Replay(v, stream, parse).1 == Lost ==> LastLine(Replay(v, stream, parse).0) == Some(ConnectionLost)
  {
    var frame := ParseFrame(stream);
    if frame.Some? && frame.value.0 != [] {
      var body, rest := frame.value.0, frame.value.1;
      ReplayStep(v, stream, parse, body, rest);
      var counted := v.(bytesRecv := v.bytesRecv + |body| + 16);
      if parse(body).Unknown? {
        ReplayLost(counted, rest, parse);
      } else if parse(body).Known? {
        var next := Apply(counted, parse(body).msg);
        assert Replay(v, stream, parse) == Replay(next, rest, parse);
        ReplayLost(next, rest, parse);
      }
    }
  }

  /** A framed message that decodes to itself is handled as that message:
      the counter grows by its length plus 16, then its handler runs. */
  lemma ReplayFramed(v: View, body: seq<Byte>, rest: seq<Byte>, parse: seq<Byte> -> Inbound, m: Message)
    requires |body| <= MAX_PAYLOAD && body != [] && parse(body) == Known(m)
    ensures Replay(v, Frame(body).value + rest, parse) ==
            Replay(Apply(v.(bytesRecv := v.bytesRecv + |body| + 16), m), rest, parse)
  {
    RoundTrip(body, rest);
    ReplayStep(v, Frame(body).value + rest, parse, body, rest);
  }

  /** `recv(2)` then `recv(length)` over a stream: a frame is there
      exactly when both reads are complete. */
  lemma FrameAt(stream: seq<Byte>, length: nat)
    requires 2 <= |stream| && length == BigEndian(stream[..2])
    ensures 2 + length <= |stream| ==> ParseFrame(stream) == Some((stream[2..][..length], stream[2..][length..]))
    ensures 2 + length > |stream| ==> ParseFrame(stream) == None
  {
    if 2 + length <= |stream| {
      assert stream[2..][..length] == stream[2..2 + length];
      assert stream[2..][length..] == stream[2 + length..];
    }
  }

  /** The bytes a peer sends for `ms`, one frame each. */
  function Frames(encode: Message -> seq<Byte>, ms: seq<Message>): seq<Byte>
    requires forall k :: 0 <= k < |ms| ==> |encode(ms[k])| <= MAX_PAYLOAD
  {
    if ms == [] then [] else Frame(encode(ms[0])).value + Frames(encode, ms[1..])
  }

  /** The client state after handling `ms` in order. */
  function Fold(v: View, encode: Message -> seq<Byte>, ms: seq<Message>): View
    decreases |ms|
  {
    if ms == [] then v
    else Fold(Apply(v.(bytesRecv := v.bytesRecv + |encode(ms[0])| + 16), ms[0]), encode, ms[1..])
  }

  /** The decoder JSON provides on the bodies the encoder writes: every
      message comes back as itself, and no encoding is empty. */
  predicate Decodes(encode: Message -> seq<Byte>, parse: seq<Byte> -> Inbound, ms: seq<Message>)
  {
    forall k :: 0 <= k < |ms| ==>
      && |encode(ms[k])| <= MAX_PAYLOAD
      && encode(ms[k]) != []
      && parse(encode(ms[k])) == Known(ms[k])
  }

  /** Client decoding inverts the sender's framing: the frames of `ms`,
      followed by the end of the stream, are handled exactly as `ms`, and
      the loop then reports the lost connection. */
  lemma {:induction false} ReplayFrames(v: View, encode: Message -> seq<Byte>,
                                        parse: seq<Byte> -> Inbound, ms: seq<Message>)
    requires Decodes(encode, parse, ms)
    decreases |ms|
    ensures Replay(v, Frames(encode, ms), parse) == (LoseConnection(Fold(v, encode, ms)), Lost)
  {
    if ms != [] {
      var body, tail := encode(ms[0]), ms[1..];
      assert Decodes(encode, parse, tail) by {
        forall k | 0 <= k < |tail|
          ensures tail[k] == ms[k + 1]
        {
        }
      }
      var w := Apply(v.(bytesRecv := v.bytesRecv + |body| + 16), ms[0]);
      assert Frames(encode, ms) == Frame(body).value + Frames(encode, tail);
      assert Fold(v, encode, ms) == Fold(w, encode, tail);
      ReplayFramed(v, body, Frames(encode, tail), parse, ms[0]);
      ReplayFrames(w, encode, parse, tail);
    }
  }

  function Joins(ms: seq<Message>): nat
  {
    if ms == [] then 0 else (if ms[0].Join? then 1 else 0) + Joins(ms[1..])
  }

  function Leaves(ms: seq<Message>): nat
  {
    if ms == [] then 0 else (if ms[0].Leave? then 1 else 0) + Leaves(ms[1..])
  }

  /** Between INFO replies the online counter moves by one per JOIN and
      per LEAVE. */
  lemma {:induction false} FoldCounters(v: View, encode: Message -> seq<Byte>, ms: seq<Message>)
    requires forall k :: 0 <= k < |ms| ==> !ms[k].Info?
    decreases |ms|
    ensures Fold(v, encode, ms).online == v.online + Joins(ms) - Leaves(ms)
    ensures Fold(v, encode, ms).identified == v.identified
  {
    if ms != [] {
      assert forall k :: 0 <= k < |ms[1..]| ==> ms[1..][k] == ms[k + 1];
      FoldCounters(Apply(v.(bytesRecv := v.bytesRecv + |encode(ms[0])| + 16), ms[0]), encode, ms[1..]);
    }
  }

  /** The bytes the received counter is charged for `ms`: each body's
      length plus 16. */
  function Charged(encode: Message -> seq<Byte>, ms: seq<Message>): nat
  {
    if ms == [] then 0 else |encode(ms[0])| + 16 + Charged(encode, ms[1..])
  }

  /** Every frame adds its body length plus 16 bytes to the received
      counter, whatever its op. */
  lemma {:induction false} FoldBytes(v: View, encode: Message -> seq<Byte>, ms: seq<Message>)
    decreases |ms|
    ensures Fold(v, encode, ms).bytesRecv == v.bytesRecv + Charged(encode, ms)
  {
    if ms != [] {
      FoldBytes(Apply(v.(bytesRecv := v.bytesRecv + |encode(ms[0])| + 16), ms[0]), encode, ms[1..]);
    }
  }

  /** After an INFO reply the client is identified, and the counter starts
      from the length of the list. */
  lemma FoldAfterInfo(v: View, encode: Message -> seq<Byte>, users: seq<string>, ms: seq<Message>)
    requires forall k :: 0 <= k < |ms| ==> !ms[k].Info?
    ensures Fold(v, encode, [Info(users)] + ms).identified
    ensures Fold(v, encode, [Info(users)] + ms).online == |users| + Joins(ms) - Leaves(ms)
  {
    var w := Apply(v.(bytesRecv := v.bytesRecv + |encode(Info(users))| + 16), Info(users));
    assert ([Info(users)] + ms)[1..] == ms;
    FoldCounters(w, encode, ms);
  }

  /** `str.isspace` for one character: the characters `str.strip()` with no
      argument removes. */
  predicate IsSpace(c: char)
  {
    || ('\t' <= c <= '\r')
    || ('\U{1c}' <= c <= '\U{1f}')
    || c == ' ' || c == '\U{85}' || c == '\U{a0}' || c == '\U{1680}'
    || ('\U{2000}' <= c <= '\U{200a}')
    || c == '\U{2028}' || c == '\U{2029}' || c == '\U{202f}' || c == '\U{205f}' || c == '\U{3000}'
  }

  predicate Blank(s: string)
  {
    forall k :: 0 <= k < |s| ==> IsSpace(s[k])
  }

  function StripLeft(s: string): (r: string)
    ensures |r| <= |s| && r == s[|s| - |r|..]
    ensures r != [] ==> !IsSpace(r[0])
    ensures Blank(s[..|s| - |r|])
  {
    if s != [] && IsSpace(s[0]) then
      var r := StripLeft(s[1..]);
      assert s[1..][..|s| - 1 - |r|] == s[1..|s| - |r|];
      r
    else s
  }

  function StripRight(s: string): (r: string)
    ensures |r| <= |s| && r == s[..|r|]
    ensures r != [] ==> !IsSpace(r[|r| - 1])
    ensures Blank(s[|r|..])
  {
    if s != [] && IsSpace(s[|s| - 1]) then
      var r := StripRight(s[..|s| - 1]);
      assert s[|r|..] == s[..|s| - 1][|r|..] + [s[|s| - 1]];
      r
    else s
  }

  /** `str.strip()`. */
  function Strip(s: string): string
  {
    StripRight(StripLeft(s))
  }

  /** `str.strip()` returns the slice of `s` that starts and ends with a
      non-whitespace character, with only whitespace around it. */
  lemma StripSlice(s: string) returns (k: nat)
    ensures var r := Strip(s);
      && k + |r| <= |s| && r == s[k..k + |r|] && Blank(s[..k]) && Blank(s[k + |r|..])
      && (r != [] ==> !IsSpace(r[0]) && !IsSpace(r[|r| - 1]))
  {
    var l := StripLeft(s);
    k := |s| - |l|;
    SliceOfSuffix(s, k, l, StripRight(l));
  }

  /** A prefix `r` of the suffix `l` of `s` that starts at `k` is a slice of
      `s`, and the blanks around it stay blank. */
  lemma SliceOfSuffix(s: string, k: nat, l: string, r: string)
    requires k <= |s| && l == s[k..] && Blank(s[..k])
    requires |r| <= |l| && r == l[..|r|] && Blank(l[|r|..])
    ensures r == s[k..k + |r|] && Blank(s[k + |r|..])
    ensures r != [] ==> r[0] == l[0]
  {
    assert s[k + |r|..] == l[|r|..];
  }

  /** `text.strip()` is empty exactly when every character is whitespace. */
  lemma StripEmpty(s: string)
    ensures Strip(s) == [] <==> Blank(s)
  {
  }

  /** What the Enter key does with the typed line. */
  datatype Action = Quit | SendIdentify(name: string) | SendText(text: string) | Ignore

  /** The Enter branch of `keypress`: "/quit" or "/q" quits (the process
      exits, so nothing after it runs); otherwise a line with a non-space
      character becomes IDENTIFY while unidentified and SEND after, and is
      sent as typed, surrounding spaces included. */
  function OnEnter(text: string, identified: bool): (a: Action)
    ensures a.Quit? <==> text == "/quit" || text == "/q"
    ensures a.Ignore? <==> text != "/quit" && text != "/q" && Blank(text)
    ensures a.SendIdentify? ==> !identified && a.name == text
    ensures a.SendText? ==> identified && a.text == text
  {
    StripEmpty(text);
    if text == "/quit" || text == "/q" then Quit
    else if Strip(text) != [] then (if !identified then SendIdentify(text) else SendText(text))
    else Ignore
  }

  class SocketClient {
    /** `json.dumps(m).encode("utf8")`: left abstract. */
    const encode: Message -> seq<Byte>
    var identified: bool
    var online: int
    var bytesSent: int
    var bytesRecv: int
    /** The bytes still to arrive from the server, as the network splits them. */
    var inbound: seq<Segment>
    /** Every byte written to the socket so far. */
    var wire: seq<Byte>
    var transcript: seq<Line>

    function State(): View
      reads this
    {
      View(identified, online, bytesRecv, transcript)
    }

    constructor (encode: Message -> seq<Byte>, inbound: seq<Segment>)
      ensures this.encode == encode && this.inbound == inbound
      ensures !identified && online == 0 && bytesSent == 0 && bytesRecv == 0
      ensures wire == [] && transcript == []
    {
      this.encode := encode;
      this.inbound := inbound;
      identified := false;
      online := 0;
      bytesSent := 0;
      bytesRecv := 0;
      wire := [];
      transcript := [];
    }

    /** `send_json(m)`: the frame goes out and the sent counter grows by the
        body length plus 16; a body of 65536 bytes or more makes `to_bytes`
        raise before anything is written. */
    method SendJson(m: Message) returns (ok: bool)
      modifies this
      ensures ok <==> |encode(m)| <= MAX_PAYLOAD
      ensures ok ==> wire == old(wire) + Frame(encode(m)).value && bytesSent == old(bytesSent) + |encode(m)| + 16
      ensures ok ==> ParseFrame(wire[|old(wire)|..]) == Some((encode(m), []))
      ensures !ok ==> wire == old(wire) && bytesSent == old(bytesSent)
      ensures State() == old(State()) && inbound == old(inbound)
    {
      var dump := encode(m);
      var framed := Frame(dump);
      if framed.Err? {
        return false;
      }
      RoundTrip(dump, []);
      assert (wire + framed.value)[|wire|..] == framed.value + [];
      wire := wire + framed.value;
      bytesSent := bytesSent + |dump| + 16;
      return true;
    }

    method SendMessage(text: string) returns (ok: bool)
      modifies this
      ensures ok <==> |encode(Message.Send(text))| <= MAX_PAYLOAD
      ensures ok ==> wire == old(wire) + Frame(encode(Message.Send(text))).value
      ensures !ok ==> wire == old(wire)
      ensures bytesSent == old(bytesSent) + (if ok then |encode(Message.Send(text))| + 16 else 0)
      ensures State() == old(State()) && inbound == old(inbound)
    {
      ok := SendJson(Message.Send(text));
    }

    method Identify(name: string) returns (ok: bool)
      modifies this
      ensures ok <==> |encode(Message.Identify(name))| <= MAX_PAYLOAD
      ensures ok ==> wire == old(wire) + Frame(encode(Message.Identify(name))).value
      ensures !ok ==> wire == old(wire)
      ensures bytesSent == old(bytesSent) + (if ok then |encode(Message.Identify(name))| + 16 else 0)
      ensures State() == old(State()) && inbound == old(inbound)
    {
      ok := SendJson(Message.Identify(name));
    }

    /** `recv(size)`: reads until `size` bytes have arrived, asking for at
        most `min(remaining, 4096)` at a time; when the stream ends first it
        prints "Connection lost." and returns None. */
    method Recv(size: nat) returns (r: Option<seq<Byte>>)
      modifies this
      ensures size <= |Concat(old(inbound))| ==>
                && r == Some(Concat(old(inbound))[..size])
                && Concat(inbound) == Concat(old(inbound))[size..]
                && State() == old(State())
      ensures |Concat(old(inbound))| < size ==>
                && r == None
                && inbound == []
                && State() == LoseConnection(old(State()))
      ensures wire == old(wire) && bytesSent == old(bytesSent)
    {
      var chunks: seq<seq<Byte>> := [];
      var remaining: int := size;
      while remaining > 0
        invariant 0 <= remaining <= size
        invariant Concat(chunks) + Concat(inbound) == Concat(old(inbound))
        invariant |Concat(chunks)| + remaining == size
        invariant State() == old(State()) && wire == old(wire) && bytesSent == old(bytesSent)
        decreases remaining
      {
        var got := SocketRecv(inbound, Min(remaining, BUF_SIZE));
        var received := got.0;
        if received == [] {
          ConcatEmpty(inbound);
          transcript := transcript + [ConnectionLost];
          return None;
        }
        ConcatSnoc(chunks, received);
        chunks := chunks + [received];
        inbound := got.1;
        remaining := remaining - |received|;
      }
      var all := Concat(old(inbound));
      assert all == Concat(chunks) + Concat(inbound);
      assert Concat(chunks) == all[..size] && Concat(inbound) == all[size..];
      return Some(Concat(chunks));
    }

    method OnReceive(user: string, text: string)
      modifies this
      ensures State() == Apply(old(State()), Receive(user, text))
      ensures wire == old(wire) && bytesSent == old(bytesSent) && inbound == old(inbound)
    {
      transcript := transcript + [Said(user, text)];
    }

    method OnJoin(name: string)
      modifies this
      ensures online == old(online) + 1
      ensures State() == Apply(old(State()), Join(name))
      ensures wire == old(wire) && bytesSent == old(bytesSent) && inbound == old(inbound)
    {
      transcript := transcript + [Joined(name)];
      online := online + 1;
    }

    method OnLeave(name: string)
      modifies this
      ensures online == old(online) - 1
      ensures State() == Apply(old(State()), Leave(name))
      ensures wire == old(wire) && bytesSent == old(bytesSent) && inbound == old(inbound)
    {
      transcript := transcript + [Left(name)];
      online := online - 1;
    }

    /** `on_error(message)`: only the name-in-use error is shown. */
    method OnError(text: string)
      modifies this
      ensures State() == Apply(old(State()), Message.Error(text))
      ensures wire == old(wire) && bytesSent == old(bytesSent) && inbound == old(inbound)
    {
      if Contains(text, NAME_IN_USE_TEXT) {
        transcript := transcript + [NameTaken];
      }
    }

    method OnInfo(users: seq<string>)
      modifies this
      ensures online == |users| && identified
      ensures State() == Apply(old(State()), Info(users))
      ensures wire == old(wire) && bytesSent == old(bytesSent) && inbound == old(inbound)
    {
      online := |users|;
      identified := true;
    }

    /** The `if`/`elif` chain of `handle_message` on a decoded message. */
    method Dispatch(m: Message)
      modifies this
      ensures State() == Apply(old(State()), m)
      ensures wire == old(wire) && bytesSent == old(bytesSent) && inbound == old(inbound)
    {
      match m {
        case Receive(user, text) => OnReceive(user, text);
        case Join(name) => OnJoin(name);
        case Leave(name) => OnLeave(name);
        case Error(text) => OnError(text);
        case Info(users) => OnInfo(users);
        case Identify(_) =>
        case Send(_) =>
      }
    }

    /** The two reads that start a pass of `handle_message`'s loop:
        `recv(2)`, then `recv(length)`. They yield the frame at the head of
        the stream, or None, after printing "Connection lost.", when the
        stream ends before a whole frame has arrived. */
    method ReadFrame() returns (body: Option<seq<Byte>>)
      modifies this
      ensures match ParseFrame(Concat(old(inbound)))
              case None => body == None && State() == LoseConnection(old(State()))
              case Some((b, rest)) => body == Some(b) && Concat(inbound) == rest && State() == old(State())
      ensures wire == old(wire) && bytesSent == old(bytesSent)
    {
      ghost var stream := Concat(inbound);
      var lenBytes := Recv(2);
      if lenBytes.None? {
        return None;
      }
      var length := BigEndian(lenBytes.value);
      body := Recv(length);
      FrameAt(stream, length);
    }

    /** One pass of `handle_message`'s loop: read a frame, count it and
        dispatch it, or report why the loop ends. */
    method Turn(parse: seq<Byte> -> Inbound) returns (halt: Option<Halt>)
      modifies this
      ensures halt.Some? ==> (State(), halt.value) == Replay(old(State()), Concat(old(inbound)), parse)
      ensures halt.None? ==>
                && Replay(State(), Concat(inbound), parse) == Replay(old(State()), Concat(old(inbound)), parse)
                && |Concat(inbound)| < |Concat(old(inbound))|
      ensures wire == old(wire) && bytesSent == old(bytesSent)
    {
      ghost var stream := Concat(inbound);
      ghost var v := State();
      var body := ReadFrame();
      if body.None? {
        return Some(Lost);
      }
      if body.value == [] {
        return Some(Undecodable);
      }
      ReplayStep(v, stream, parse, body.value, Concat(inbound));
      var payload := parse(body.value);
      if payload.NotJson? {
        return Some(Undecodable);
      }
      bytesRecv := bytesRecv + |body.value| + 16;
      match payload {
        case KeyMissing =>
          return Some(BadShape);
        case Unknown =>
          return None;
        case Known(m) =>
          Dispatch(m);
          return None;
      }
    }

    /** `handle_message()`: the endless read-and-dispatch loop; it ends
        with the exception that the first unusable frame raises. */
    method HandleMessages(parse: seq<Byte> -> Inbound) returns (halt: Halt)
      modifies this
      ensures (State(), halt) == Replay(old(State()), Concat(old(inbound)), parse)
      ensures wire == old(wire) && bytesSent == old(bytesSent)
    {
      while true
        invariant Replay(State(), Concat(inbound), parse) == Replay(old(State()), Concat(old(inbound)), parse)
        invariant wire == old(wire) && bytesSent == old(bytesSent)
        decreases |Concat(inbound)|
      {
        var stop := Turn(parse);
        if stop.Some? {
          return stop.value;
        }
      }
    }

    /** The Enter branch of `MainWindow.keypress`: returns true when the
        line quits the program. */
    method Enter(text: string) returns (quit: bool)
      modifies this
      ensures quit <==> OnEnter(text, old(identified)).Quit?
      ensures match OnEnter(text, old(identified))
              case SendIdentify(name) =>
                wire == old(wire) + (if |encode(Message.Identify(name))| <= MAX_PAYLOAD
                                     then Frame(encode(Message.Identify(name))).value else [])
              case SendText(t) =>
                wire == old(wire) + (if |encode(Message.Send(t))| <= MAX_PAYLOAD
                                     then Frame(encode(Message.Send(t))).value else [])
              case _ => wire == old(wire)
      ensures match OnEnter(text, old(identified))
              case SendIdentify(name) =>
                bytesSent == old(bytesSent) + (if |encode(Message.Identify(name))| <= MAX_PAYLOAD
                                               then |encode(Message.Identify(name))| + 16 else 0)
              case SendText(t) =>
                bytesSent == old(bytesSent) + (if |encode(Message.Send(t))| <= MAX_PAYLOAD
                                               then |encode(Message.Send(t))| + 16 else 0)
              case _ => bytesSent == old(bytesSent)
      ensures State() == old(State()) && inbound == old(inbound)
    {
      if text == "/quit" || text == "/q" {
        return true;
      }
      StripEmpty(text);
      if Strip(text) != [] {
        var ok;
        if !identified {
          ok := Identify(text);
        } else {
          ok := SendMessage(text);
        }
      }
      return false;
    }
  }
}
