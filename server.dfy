/** The chat server: one Session per accepted connection (the `Client`
    objects of server.py) and the Hub that owns them (its `Server`). Every
    session ever accepted stays in `Hub.sessions`, indexed by id; `Hub.clients`
    is the registry list, in accept order, from which terminated sessions are
    removed. Outgoing frames are appended to a per-session outbox. */
module Server {
  import opened Wire

  const MAX_NAME: int := 32
  const MAX_MESSAGE: int := 2000

  // The error texts the server sends.
  const MUST_IDENTIFY: string := "Must identify first."
  const MISSING_MESSAGE: string := "Missing 'message' field in JSON or is not a string."
  const MESSAGE_TOO_LONG: string := "Message too long, must be less than 2000 characters."
  const ALREADY_IDENTIFIED: string := "Already identified"
  const MISSING_NAME: string := "Missing 'name' field in JSON or is not a string."
  const NAME_TOO_LONG: string := "Name cannot be longer than 32 characters."
  const NAME_IN_USE: string := "Name already in use."
  const MISSING_OP: string := "Missing 'op' field in JSON or is not an integer"
  const INVALID_OP: string := "Invalid Op Code."
  const INVALID_PAYLOAD: string := "Invalid Payload"

  /** What `payload.get(key)` yields: nothing, an int, a string, or any other
      JSON value (null, a boolean, a float, a list, an object). */
  datatype Value = Missing | Int(i: int) | Str(s: string) | Other

  /** A decoded JSON object, reduced to the three keys the server reads. */
  datatype Payload = Payload(op: Value, name: Value, message: Value)

  /** The result of decoding one frame body: `Malformed` when UTF-8 decoding
      or `json.loads` raises, or when the JSON value is not an object. */
  datatype Request = Malformed | Parsed(payload: Payload)

  /** The three outcomes of `Client.recv`: `False` after a closed stream,
      `None` when zero bytes were asked for, or the bytes read. */
  datatype Received = Closed | Nothing | Chunk(bytes: seq<Byte>)

  /** Why the read loop of `handle` returned. */
  datatype Stop = Ended | EmptyFrame

  /** `not v or type(v) is not str` is false exactly for a non-empty string. */
  predicate NonEmptyString(v: Value)
  {
    v.Str? && v.s != []
  }

  /** `not v or type(v) is not int` is false exactly for a non-zero int. */
  predicate NonZeroInt(v: Value)
  {
    v.Int? && v.i != 0
  }

  /** One server-side session: its identity, whether it was terminated,
      whether writes to its socket raise, the bytes still to arrive on its
      socket, and every message written to it so far. */
  datatype Session = Session(
    name: Option<string>,
    dead: bool,
    sendFails: bool,
    inbound: seq<Segment>,
    outbox: seq<Message>)

  /** The recipients `broadcast` does not skip: live and identified. */
  predicate Receives(s: Session)
  {
    !s.dead && s.name.Some?
  }

  function Append(s: Session, m: Message): Session
  {
    s.(outbox := s.outbox + [m])
  }

  /** What one pass of `recv`'s loop returns, given the pieces still to
      arrive: the loop returns after the first read, so at most one piece
      (or its first `min(size, 4096)` bytes) is delivered. */
  function FirstChunk(inbound: seq<Segment>, size: nat): (r: Received)
    ensures r.Nothing? <==> size == 0
    ensures r.Closed? <==> size > 0 && inbound == []
    ensures r.Chunk? ==> 0 < |r.bytes| <= Min(size, BUF_SIZE) && r.bytes <= Concat(inbound)
  {
    if size == 0 then Nothing
    else
      var got := SocketRecv(inbound, Min(size, BUF_SIZE));
      if got.0 == [] then Closed else Chunk(got.0)
  }

  /** The pieces left on the socket after that read. */
  function Remaining(inbound: seq<Segment>, size: nat): seq<Segment>
  {
    if size == 0 then inbound else SocketRecv(inbound, Min(size, BUF_SIZE)).1
  }

  /** The server's read returns a short chunk when the length prefix arrives
      split: asked for 2 bytes, it hands back the first one alone. */
  lemma ShortRead()
    ensures FirstChunk([[0], [5, 104, 101, 108, 108, 111]], 2) == Chunk([0])
    ensures Concat([[0], [5, 104, 101, 108, 108, 111]]) == [0, 5, 104, 101, 108, 108, 111]
  {
  }

  predicate Distinct(cs: seq<nat>)
  {
    forall a, b :: 0 <= a < b < |cs| ==> cs[a] != cs[b]
  }

  /** `clients.remove(x)`: drop the first occurrence of `x`, keep the order of
      the rest. */
  function Without(cs: seq<nat>, x: nat): (r: seq<nat>)
    ensures x !in cs ==> r == cs
    ensures x in cs ==> |r| == |cs| - 1
    ensures forall y :: y in r ==> y in cs
    ensures forall y :: y in cs && y != x ==> y in r
    ensures Distinct(cs) ==> Distinct(r) && x !in r
  {
    if cs == [] then []
    else
      HeadNotInTail(cs);
      if cs[0] == x then cs[1..]
      else [cs[0]] + Without(cs[1..], x)
  }

  /** `list.remove` takes out the first occurrence and keeps the order of
      the rest. */
  lemma {:induction false} WithoutOrder(cs: seq<nat>, x: nat) returns (p: nat)
    requires x in cs
    ensures p < |cs| && cs[p] == x && x !in cs[..p]
    ensures Without(cs, x) == cs[..p] + cs[p + 1..]
  {
    if cs[0] == x {
      p := 0;
      assert cs[..0] == [] && cs[1..] == cs[..0] + cs[1..];
    } else {
      var q := WithoutOrder(cs[1..], x);
      p := q + 1;
      assert cs[..p] == [cs[0]] + cs[1..][..q];
      assert cs[p + 1..] == cs[1..][q + 1..];
    }
  }

  lemma HeadNotInTail(cs: seq<nat>)
    requires cs != []
    ensures Distinct(cs) ==> Distinct(cs[1..]) && cs[0] !in cs[1..]
  {
  }

  predicate IdsValid(ss: seq<Session>, cs: seq<nat>)
  {
    forall k :: 0 <= k < |cs| ==> cs[k] < |ss|
  }

  /** Ids drawn from a valid list are valid. */
  lemma IdsValidSubset(ss: seq<Session>, cs: seq<nat>, ds: seq<nat>)
    requires IdsValid(ss, cs) && forall y :: y in ds ==> y in cs
    ensures IdsValid(ss, ds)
  {
    forall k | 0 <= k < |ds|
      ensures ds[k] < |ss|
    {
      assert ds[k] in cs;
    }
  }

  predicate NoDuplicates(names: seq<string>)
  {
    forall a, b :: 0 <= a < b < |names| ==> names[a] != names[b]
  }

  /** No name is held by two live identified sessions. */
  ghost predicate UniqueNames(ss: seq<Session>)
  {
    forall a, b :: 0 <= a < |ss| && 0 <= b < |ss| && a != b && Receives(ss[a]) && Receives(ss[b]) ==>
      ss[a].name != ss[b].name
  }

  /** The registry invariant: `clients` lists sessions once each, every live
      session is listed (only a terminated one is ever removed), and live
      identified sessions have distinct names. */
  ghost predicate Registry(ss: seq<Session>, cs: seq<nat>)
  {
    && IdsValid(ss, cs)
    && Distinct(cs)
    && (forall j :: 0 <= j < |ss| && !ss[j].dead ==> j in cs)
    && UniqueNames(ss)
  }

  /** The INFO list: `[c.name for c in clients if not c.dead and c.name is
      not None]`, in registry order. */
  function OnlineNames(ss: seq<Session>, cs: seq<nat>): (r: seq<string>)
    requires IdsValid(ss, cs)
    ensures |r| <= |cs|
    ensures forall k :: 0 <= k < |cs| && Receives(ss[cs[k]]) ==> ss[cs[k]].name.value in r
    ensures forall n :: n in r ==> exists k :: 0 <= k < |cs| && Receives(ss[cs[k]]) && ss[cs[k]].name == Some(n)
  {
    if cs == [] then []
    else
      var head := if Receives(ss[cs[0]]) then [ss[cs[0]].name.value] else [];
      var tail := OnlineNames(ss, cs[1..]);
      assert forall n :: n in tail ==> exists k :: 0 <= k < |cs| && Receives(ss[cs[k]]) && ss[cs[k]].name == Some(n) by {
        forall n | n in tail
          ensures exists k :: 0 <= k < |cs| && Receives(ss[cs[k]]) && ss[cs[k]].name == Some(n)
        {
          var k :| 0 <= k < |cs[1..]| && Receives(ss[cs[1..][k]]) && ss[cs[1..][k]].name == Some(n);
          assert cs[1..][k] == cs[k + 1];
        }
      }
      assert forall k :: 1 <= k < |cs| ==> cs[k] == cs[1..][k - 1];
      head + tail
  }

  /** With the registry invariant, INFO never lists a name twice. */
  lemma {:induction false} OnlineNamesDistinct(ss: seq<Session>, cs: seq<nat>)
    requires IdsValid(ss, cs) && Distinct(cs) && UniqueNames(ss)
    ensures NoDuplicates(OnlineNames(ss, cs))
  {
    if cs != [] {
      var tail := OnlineNames(ss, cs[1..]);
      OnlineNamesDistinct(ss, cs[1..]);
      HeadNotInTail(cs);
      if Receives(ss[cs[0]]) {
        var n := ss[cs[0]].name.value;
        forall k | 0 <= k < |cs[1..]| && Receives(ss[cs[1..][k]])
          ensures ss[cs[1..][k]].name != Some(n)
        {
          assert cs[1..][k] == cs[k + 1];
        }
        assert n !in tail;
        var r := [n] + tail;
        assert OnlineNames(ss, cs) == r;
        forall a, b | 0 <= a < b < |r|
          ensures r[a] != r[b]
        {
          assert r[b] == tail[b - 1];
          if a > 0 {
            assert r[a] == tail[a - 1];
          }
        }
      } else {
        assert OnlineNames(ss, cs) == tail;
      }
    }
  }

  /** INFO keeps registry order: the names of a list's front come before
      those of its back. */
  lemma {:induction false} OnlineNamesConcat(ss: seq<Session>, cs: seq<nat>, ds: seq<nat>)
    requires IdsValid(ss, cs) && IdsValid(ss, ds)
    ensures IdsValid(ss, cs + ds) && OnlineNames(ss, cs + ds) == OnlineNames(ss, cs) + OnlineNames(ss, ds)
  {
    if cs == [] {
      assert cs + ds == ds;
    } else {
      assert (cs + ds)[1..] == cs[1..] + ds;
      OnlineNamesConcat(ss, cs[1..], ds);
    }
  }

  /** Two session lists that agree on who is live and on names. */
  ghost predicate SameStatus(ss: seq<Session>, tt: seq<Session>)
  {
    |ss| == |tt| && forall j :: 0 <= j < |ss| ==> ss[j].dead == tt[j].dead && ss[j].name == tt[j].name
  }

  /** INFO depends only on liveness and names, not on outboxes. */
  lemma {:induction false} OnlineNamesStatus(ss: seq<Session>, tt: seq<Session>, cs: seq<nat>)
    requires IdsValid(ss, cs) && SameStatus(ss, tt)
    ensures IdsValid(tt, cs) && OnlineNames(ss, cs) == OnlineNames(tt, cs)
  {
    if cs != [] {
      OnlineNamesStatus(ss, tt, cs[1..]);
    }
  }

  lemma RegistryStatus(ss: seq<Session>, tt: seq<Session>, cs: seq<nat>)
    requires Registry(ss, cs) && SameStatus(ss, tt)
    ensures Registry(tt, cs)
  {
  }

  /** Some live session listed in `cs` already holds `n` (the loop of
      `on_identify` over `server.clients`). */
  ghost predicate InUse(ss: seq<Session>, cs: seq<nat>, n: string)
  {
    exists k :: 0 <= k < |cs| && cs[k] < |ss| && !ss[cs[k]].dead && ss[cs[k]].name == Some(n)
  }

  /** `m` appended to the outbox of every live identified session listed in
      `cs`, and to no other. */
  ghost function Deliver(ss: seq<Session>, cs: seq<nat>, m: Message): (r: seq<Session>)
    ensures SameStatus(ss, r)
  {
    seq(|ss|, j requires 0 <= j < |ss| => if j in cs && Receives(ss[j]) then Append(ss[j], m) else ss[j])
  }

  lemma DeliverStep(ss: seq<Session>, cs: seq<nat>, k: nat, m: Message)
    requires Distinct(cs) && k < |cs| && cs[k] < |ss|
    ensures Deliver(ss, cs[..k], m)[cs[k]] == ss[cs[k]]
    ensures Deliver(ss, cs[..k + 1], m) ==
      var before := Deliver(ss, cs[..k], m);
      if Receives(ss[cs[k]]) then before[cs[k] := Append(ss[cs[k]], m)] else before
  {
  }

  /** Giving an unidentified session a name no live listed session holds
      keeps the registry invariant. */
  lemma Naming(ss: seq<Session>, cs: seq<nat>, i: nat, n: string)
    requires Registry(ss, cs) && i < |ss| && ss[i].name.None? && !InUse(ss, cs, n)
    ensures var named := ss[i := ss[i].(name := Some(n))];
      Registry(named, cs) && Evolved(ss, cs, named, cs)
  {
  }

  function Killed(ss: seq<Session>, i: nat): seq<Session>
    requires i < |ss|
  {
    ss[i := ss[i].(dead := true)]
  }

  /** Marking a live session dead keeps the registry invariant. */
  lemma Kill(ss: seq<Session>, cs: seq<nat>, i: nat)
    requires Registry(ss, cs) && i < |ss|
    ensures Registry(Killed(ss, i), cs)
    ensures Evolved(ss, cs, Killed(ss, i), cs) && NamesKept(ss, Killed(ss, i))
  {
  }

  /** Removing a dead session from the list keeps the registry invariant. */
  lemma Remove(ss: seq<Session>, cs: seq<nat>, i: nat)
    requires Registry(ss, cs) && i < |ss| && ss[i].dead
    ensures Registry(ss, Without(cs, i))
    ensures Evolved(ss, cs, ss, Without(cs, i))
  {
    IdsValidSubset(ss, cs, Without(cs, i));
  }

  /** The fields no operation other than `recv` and `on_identify` changes,
      and how those that do change may move: a session never comes back to
      life, a name once set stays, an outbox only grows, and nothing is ever
      written to a terminated session. */
  ghost predicate Kept(a: Session, b: Session)
  {
    && a.sendFails == b.sendFails
    && a.inbound == b.inbound
    && (a.dead ==> b.dead)
    && (a.name.Some? ==> b.name == a.name)
    && a.outbox <= b.outbox
    && (a.dead ==> b.outbox == a.outbox)
  }

  /** How the registry may move under any operation but `accept`: no session
      is added, the list only loses entries, and only terminated ones. */
  ghost predicate Evolved(ss0: seq<Session>, cs0: seq<nat>, ss1: seq<Session>, cs1: seq<nat>)
  {
    && |ss1| == |ss0|
    && (forall j :: 0 <= j < |ss0| ==> Kept(ss0[j], ss1[j]))
    && |cs1| <= |cs0|
    && (forall j :: j in cs1 ==> j in cs0)
    && (forall j :: 0 <= j < |ss1| && j in cs0 && j !in cs1 ==> ss1[j].dead)
  }

  ghost predicate NamesKept(ss0: seq<Session>, ss1: seq<Session>)
  {
    |ss1| == |ss0| && forall j :: 0 <= j < |ss0| ==> ss1[j].name == ss0[j].name
  }

  lemma EvolvedTrans(ss0: seq<Session>, cs0: seq<nat>, ss1: seq<Session>, cs1: seq<nat>,
                     ss2: seq<Session>, cs2: seq<nat>)
    requires Evolved(ss0, cs0, ss1, cs1) && Evolved(ss1, cs1, ss2, cs2)
    ensures Evolved(ss0, cs0, ss2, cs2)
  {
  }

  class Hub {
    /** `json.dumps(m).encode("utf8")`: left abstract. */
    const encode: Message -> seq<Byte>
    var sessions: seq<Session>
    var clients: seq<nat>

    ghost predicate Valid()
      reads this
    {
      Registry(sessions, clients)
    }

    /** The sessions not yet terminated. */
    ghost function LiveSet(): set<nat>
      reads this
    {
      set j | 0 <= j < |sessions| && !sessions[j].dead
    }

    /** `send_json` succeeds on a live socket that accepts writes, when the
        length of the encoded message fits in two bytes. */
    predicate CanSend(s: Session, m: Message)
    {
      !s.dead && !s.sendFails && Frame(encode(m)).Ok?
    }

    function AfterSend(s: Session, m: Message): Session
    {
      if CanSend(s, m) then Append(s, m) else s
    }

    ghost function Sent(ss: seq<Session>, i: nat, m: Message): seq<Session>
      requires i < |ss|
    {
      ss[i := AfterSend(ss[i], m)]
    }

    /** No write of `m` to a recipient of a broadcast over `cs` would raise. */
    ghost predicate Deliverable(ss: seq<Session>, cs: seq<nat>, m: Message)
    {
      forall j :: 0 <= j < |ss| && j in cs && Receives(ss[j]) ==> CanSend(ss[j], m)
    }

    /** The state `terminate` leaves when the LEAVE broadcast it may make
        meets no failing recipient: the session is dead, the other live
        identified sessions got LEAVE if it had a name, and it is off the
        list. */
    ghost function Terminated(ss: seq<Session>, cs: seq<nat>, i: nat): (seq<Session>, seq<nat>)
      requires i < |ss|
    {
      var k := Killed(ss, i);
      (if ss[i].name.Some? then Deliver(k, cs, Leave(ss[i].name.value)) else k, Without(cs, i))
    }

    ghost predicate CleanLeave(ss: seq<Session>, cs: seq<nat>, i: nat)
      requires i < |ss|
    {
      ss[i].name.None? || Deliverable(Killed(ss, i), cs, Leave(ss[i].name.value))
    }

    /** `error(text, fatal)`: nothing on a dead session; otherwise an ERROR
        frame is attempted (a failing write is swallowed) and, when fatal,
        the session is terminated. */
    ghost predicate ErrorOutcome(ss0: seq<Session>, cs0: seq<nat>, ss1: seq<Session>, cs1: seq<nat>,
                                 i: nat, text: string, fatal: bool)
      requires i < |ss0|
    {
      && |ss1| == |ss0|
      && if ss0[i].dead then ss1 == ss0 && cs1 == cs0
         else
           var sent := Sent(ss0, i, Message.Error(text));
           if !fatal then ss1 == sent && cs1 == cs0
           else
             && ss1[i].dead && i !in cs1 && ss1[i].outbox == sent[i].outbox
             && (CleanLeave(sent, cs0, i) ==> (ss1, cs1) == Terminated(sent, cs0, i))
    }

    /** `broadcast(m)`: with no failing recipient, exactly the live
        identified sessions on the list get `m`; in any case only live
        identified sessions are terminated by it. */
    ghost predicate BroadcastOutcome(ss0: seq<Session>, cs0: seq<nat>, ss1: seq<Session>, cs1: seq<nat>,
                                     m: Message)
    {
      && |ss1| == |ss0|
      && (forall j :: 0 <= j < |ss1| && ss1[j].dead && !ss0[j].dead ==> Receives(ss0[j]))
      && (Deliverable(ss0, cs0, m) ==> ss1 == Deliver(ss0, cs0, m) && cs1 == cs0)
    }

    /** `on_send(payload)`. */
    ghost predicate SendOutcome(ss0: seq<Session>, cs0: seq<nat>, ss1: seq<Session>, cs1: seq<nat>,
                                i: nat, message: Value)
      requires i < |ss0|
    {
      if ss0[i].name.None? then ErrorOutcome(ss0, cs0, ss1, cs1, i, MUST_IDENTIFY, true)
      else if !NonEmptyString(message) then ErrorOutcome(ss0, cs0, ss1, cs1, i, MISSING_MESSAGE, true)
      else if |message.s| > MAX_MESSAGE then ErrorOutcome(ss0, cs0, ss1, cs1, i, MESSAGE_TOO_LONG, true)
      else BroadcastOutcome(ss0, cs0, ss1, cs1, Receive(ss0[i].name.value, message.s))
    }

    /** `on_identify(payload)`; `raised` is the exception that escapes when
        the INFO reply cannot be written. */
    ghost predicate IdentifyOutcome(ss0: seq<Session>, cs0: seq<nat>, ss1: seq<Session>, cs1: seq<nat>,
                                    i: nat, name: Value, raised: bool)
      requires i < |ss0| && IdsValid(ss0, cs0)
    {
      if ss0[i].name.Some? then !raised && ErrorOutcome(ss0, cs0, ss1, cs1, i, ALREADY_IDENTIFIED, false)
      else if !NonEmptyString(name) then !raised && ErrorOutcome(ss0, cs0, ss1, cs1, i, MISSING_NAME, true)
      else if |name.s| > MAX_NAME then !raised && ErrorOutcome(ss0, cs0, ss1, cs1, i, NAME_TOO_LONG, true)
      else if InUse(ss0, cs0, name.s) then !raised && ErrorOutcome(ss0, cs0, ss1, cs1, i, NAME_IN_USE, false)
      else
        var named := ss0[i := ss0[i].(name := Some(name.s))];
        var info := Info(OnlineNames(named, cs0));
        && |ss1| == |ss0|
        && ss1[i].name == Some(name.s)
        && (Deliverable(named, cs0, Join(name.s)) ==>
              && cs1 == cs0
              && ss1 == Sent(Deliver(named, cs0, Join(name.s)), i, info)
              && raised == !CanSend(ss0[i], info))
    }

    constructor (encode: Message -> seq<Byte>)
      ensures Valid() && this.encode == encode
      ensures sessions == [] && clients == []
    {
      this.encode := encode;
      sessions := [];
      clients := [];
    }

    /** A new connection: an unidentified live session at the end of the
        list. Its incoming bytes and whether writes to it fail are given. */
    method Accept(inbound: seq<Segment>, sendFails: bool) returns (id: nat)
      requires Valid()
      modifies this
      ensures Valid()
      ensures id == old(|sessions|)
      ensures sessions == old(sessions) + [Session(None, false, sendFails, inbound, [])]
      ensures clients == old(clients) + [id]
    {
      id := |sessions|;
      assert id !in clients;
      sessions := sessions + [Session(None, false, sendFails, inbound, [])];
      clients := clients + [id];
    }

    /** `send_json(m)`: whether the write went through. */
    method SendJson(i: nat, m: Message) returns (ok: bool)
      requires Valid() && i < |sessions|
      modifies this
      ensures Valid()
      ensures ok == CanSend(old(sessions[i]), m)
      ensures sessions == Sent(old(sessions), i, m) && clients == old(clients)
    {
      ok := CanSend(sessions[i], m);
      if ok {
        RegistryStatus(sessions, sessions[i := Append(sessions[i], m)], clients);
        sessions := sessions[i := Append(sessions[i], m)];
      }
    }

    /** `terminate()`: idempotent; marks the session dead before the LEAVE
        broadcast, so the session never receives its own LEAVE. */
    method Terminate(i: nat)
      requires Valid() && i < |sessions|
      modifies this
      decreases LiveSet(), 0
      ensures Valid()
      ensures Evolved(old(sessions), old(clients), sessions, clients) && NamesKept(old(sessions), sessions)
      ensures LiveSet() <= old(LiveSet())
      ensures sessions[i].dead && sessions[i].outbox == old(sessions[i].outbox)
      ensures old(sessions[i].dead) ==> sessions == old(sessions) && clients == old(clients)
      ensures !old(sessions[i].dead) ==> i !in clients
      ensures forall j :: 0 <= j < |sessions| && sessions[j].dead && !old(sessions[j].dead) ==>
                j == i || old(Receives(sessions[j]))
      ensures !old(sessions[i].dead) && old(CleanLeave(sessions, clients, i)) ==>
                (sessions, clients) == old(Terminated(sessions, clients, i))
    {
      if sessions[i].dead {
        return;
      }
      ghost var ss0, cs0 := sessions, clients;
      Kill(sessions, clients, i);
      sessions := Killed(sessions, i);
      assert i in old(LiveSet()) && i !in LiveSet();
      if sessions[i].name.Some? {
        Broadcast(Leave(sessions[i].name.value));
      }
      ghost var ss1, cs1 := sessions, clients;
      if i in clients {
        Remove(sessions, clients, i);
        clients := Without(clients, i);
      }
      EvolvedTrans(ss0, cs0, ss1, cs1, sessions, clients);
    }

    /** The `try` block of `broadcast`'s loop for one recipient: write the
        frame, and terminate the recipient when the write raises. */
    method SendOrTerminate(j: nat, m: Message)
      requires Valid() && j < |sessions| && Receives(sessions[j])
      modifies this
      decreases LiveSet(), 1
      ensures Valid()
      ensures Evolved(old(sessions), old(clients), sessions, clients) && NamesKept(old(sessions), sessions)
      ensures LiveSet() <= old(LiveSet())
      ensures forall a :: 0 <= a < |sessions| && sessions[a].dead && !old(sessions[a].dead) ==>
                old(Receives(sessions[a]))
      ensures CanSend(old(sessions[j]), m) ==>
                sessions == old(sessions)[j := Append(old(sessions[j]), m)] && clients == old(clients)
      ensures !CanSend(old(sessions[j]), m) ==> sessions[j].dead && j !in clients
    {
      var ok := SendJson(j, m);
      if !ok {
        Terminate(j);
      }
    }

    /** `broadcast(m, True)`: walks the live list by position, the way
        Python's list iterator does, so the list may shrink under it when a
        failing recipient is terminated. */
    method Broadcast(m: Message)
      requires Valid()
      modifies this
      decreases LiveSet(), 2
      ensures Valid()
      ensures Evolved(old(sessions), old(clients), sessions, clients) && NamesKept(old(sessions), sessions)
      ensures LiveSet() <= old(LiveSet())
      ensures BroadcastOutcome(old(sessions), old(clients), sessions, clients, m)
    {
      ghost var clean := Deliverable(sessions, clients, m);
      var k := 0;
      while k < |clients|
        invariant Valid()
        invariant Evolved(old(sessions), old(clients), sessions, clients) && NamesKept(old(sessions), sessions)
        invariant LiveSet() <= old(LiveSet())
        invariant forall j :: 0 <= j < |sessions| && sessions[j].dead && !old(sessions[j].dead) ==>
                    old(Receives(sessions[j]))
        invariant clean ==>
                    && k <= |clients|
                    && clients == old(clients)
                    && sessions == Deliver(old(sessions), old(clients)[..k], m)
        decreases |clients| - k
      {
        var j := clients[k];
        ghost var ss0, cs0 := sessions, clients;
        if clean {
          DeliverStep(old(sessions), old(clients), k, m);
        }
        if !sessions[j].dead && sessions[j].name.Some? {
          SendOrTerminate(j, m);
          EvolvedTrans(old(sessions), old(clients), ss0, cs0, sessions, clients);
        }
        k := k + 1;
      }
      if clean {
        assert old(clients)[..k] == old(clients);
      }
    }

    /** `send_message(name, text)`: RECEIVE from `name` to every live
        identified session. */
    method SendMessage(name: string, text: string)
      requires Valid()
      modifies this
      ensures Valid()
      ensures Evolved(old(sessions), old(clients), sessions, clients) && NamesKept(old(sessions), sessions)
      ensures BroadcastOutcome(old(sessions), old(clients), sessions, clients, Receive(name, text))
    {
      Broadcast(Receive(name, text));
    }

    /** `error(text, terminate)`. */
    method Error(i: nat, text: string, fatal: bool)
      requires Valid() && i < |sessions|
      modifies this
      ensures Valid()
      ensures Evolved(old(sessions), old(clients), sessions, clients) && NamesKept(old(sessions), sessions)
      ensures ErrorOutcome(old(sessions), old(clients), sessions, clients, i, text, fatal)
    {
      if sessions[i].dead {
        return;
      }
      var ok := SendJson(i, Message.Error(text));
      if fatal {
        ghost var ss1, cs1 := sessions, clients;
        Terminate(i);
        EvolvedTrans(old(sessions), old(clients), ss1, cs1, sessions, clients);
      }
    }

    /** Whether a live listed session already holds `n`. */
    method NameInUse(n: string) returns (taken: bool)
      requires Valid()
      ensures taken == InUse(sessions, clients, n)
    {
      for k := 0 to |clients|
        invariant forall a :: 0 <= a < k ==> sessions[clients[a]].dead || sessions[clients[a]].name != Some(n)
      {
        var c := sessions[clients[k]];
        if !c.dead && c.name == Some(n) {
          return true;
        }
      }
      return false;
    }

    /** `on_send(payload)`. */
    method OnSend(i: nat, message: Value)
      requires Valid() && i < |sessions|
      modifies this
      ensures Valid()
      ensures Evolved(old(sessions), old(clients), sessions, clients) && NamesKept(old(sessions), sessions)
      ensures SendOutcome(old(sessions), old(clients), sessions, clients, i, message)
    {
      if sessions[i].name.None? {
        Error(i, MUST_IDENTIFY, true);
        return;
      }
      if !NonEmptyString(message) {
        Error(i, MISSING_MESSAGE, true);
        return;
      }
      if |message.s| > MAX_MESSAGE {
        Error(i, MESSAGE_TOO_LONG, true);
        return;
      }
      SendMessage(sessions[i].name.value, message.s);
    }

    /** `on_identify(payload)`; `raised` when the INFO reply raised. */
    method OnIdentify(i: nat, name: Value) returns (raised: bool)
      requires Valid() && i < |sessions|
      modifies this
      ensures Valid()
      ensures Evolved(old(sessions), old(clients), sessions, clients)
      ensures forall j :: 0 <= j < |sessions| && j != i ==> sessions[j].name == old(sessions[j].name)
      ensures IdentifyOutcome(old(sessions), old(clients), sessions, clients, i, name, raised)
      ensures old(sessions[i].name).None? && NonEmptyString(name) && |name.s| <= MAX_NAME
                && !old(InUse(sessions, clients, name.s)) ==>
                  raised == !CanSend(sessions[i], Info(OnlineNames(sessions, clients)))
    {
      if sessions[i].name.Some? {
        Error(i, ALREADY_IDENTIFIED, false);
        return false;
      }
      if !NonEmptyString(name) {
        Error(i, MISSING_NAME, true);
        return false;
      }
      if |name.s| > MAX_NAME {
        Error(i, NAME_TOO_LONG, true);
        return false;
      }
      var taken := NameInUse(name.s);
      if taken {
        Error(i, NAME_IN_USE, false);
        return false;
      }
      ghost var ss0, cs0 := sessions, clients;
      Naming(sessions, clients, i, name.s);
      sessions := sessions[i := sessions[i].(name := Some(name.s))];
      ghost var named := sessions;
      Broadcast(Join(name.s));
      ghost var ss1, cs1 := sessions, clients;
      var users := OnlineNames(sessions, clients);
      var ok := SendJson(i, Info(users));
      raised := !ok;
      SentKeeps(ss1, cs1, i, Info(users));
      OnlineNamesStatus(ss1, sessions, clients);
      JoinThenInfoEvolved(ss0, cs0, i, name.s, ss1, cs1, sessions);
      JoinThenInfo(ss0, cs0, i, name.s, ss1, cs1, sessions);
    }

    /** A write changes at most one outbox, and only by appending. */
    lemma SentKeeps(ss: seq<Session>, cs: seq<nat>, i: nat, m: Message)
      requires i < |ss|
      ensures Evolved(ss, cs, Sent(ss, i, m), cs) && SameStatus(ss, Sent(ss, i, m))
    {
    }

    /** How far a successful `on_identify` may move the registry: the
        naming, the JOIN broadcast and the INFO reply compose. */
    lemma JoinThenInfoEvolved(ss0: seq<Session>, cs0: seq<nat>, i: nat, n: string,
                              ss1: seq<Session>, cs1: seq<nat>, ss2: seq<Session>)
      requires i < |ss0| && IdsValid(ss1, cs1)
      requires var named := ss0[i := ss0[i].(name := Some(n))];
        && Evolved(ss0, cs0, named, cs0) && Evolved(named, cs0, ss1, cs1)
        && NamesKept(named, ss1) && ss2 == Sent(ss1, i, Info(OnlineNames(ss1, cs1)))
      ensures Evolved(ss0, cs0, ss2, cs1)
      ensures forall j :: 0 <= j < |ss2| && j != i ==> ss2[j].name == ss0[j].name
    {
    }

    /** The tail of a successful `on_identify`: when the JOIN broadcast
        meets no failing recipient, the INFO reply lists the names as they
        stood after naming, and it raises exactly when that write fails. */
    lemma JoinThenInfo(ss0: seq<Session>, cs0: seq<nat>, i: nat, n: string,
                       ss1: seq<Session>, cs1: seq<nat>, ss2: seq<Session>)
      requires Registry(ss0, cs0) && i < |ss0| && ss0[i].name.None?
      requires n != [] && |n| <= MAX_NAME && !InUse(ss0, cs0, n)
      requires var named := ss0[i := ss0[i].(name := Some(n))];
        && IdsValid(ss1, cs1) && |ss1| == |ss0|
        && NamesKept(named, ss1) && BroadcastOutcome(named, cs0, ss1, cs1, Join(n))
        && ss2 == Sent(ss1, i, Info(OnlineNames(ss1, cs1)))
      ensures IdentifyOutcome(ss0, cs0, ss2, cs1, i, Str(n), !CanSend(ss1[i], Info(OnlineNames(ss1, cs1))))
    {
      var named := ss0[i := ss0[i].(name := Some(n))];
      if Deliverable(named, cs0, Join(n)) {
        OnlineNamesStatus(named, ss1, cs0);
      }
    }

    /** A newcomer receives its own JOIN, since its name is set before the
        broadcast, and then INFO, which lists it. */
    lemma OwnJoin(ss0: seq<Session>, cs0: seq<nat>, ss1: seq<Session>, cs1: seq<nat>,
                  i: nat, n: string, raised: bool)
      requires Registry(ss0, cs0) && i < |ss0| && !ss0[i].dead && ss0[i].name.None?
      requires n != [] && |n| <= MAX_NAME && !InUse(ss0, cs0, n)
      requires IdentifyOutcome(ss0, cs0, ss1, cs1, i, Str(n), raised) && !raised
      requires Deliverable(ss0[i := ss0[i].(name := Some(n))], cs0, Join(n))
      ensures var named := ss0[i := ss0[i].(name := Some(n))];
        && IdsValid(named, cs0)
        && ss1[i].outbox == ss0[i].outbox + [Join(n), Info(OnlineNames(named, cs0))]
        && n in OnlineNames(named, cs0)
    {
    }

    /** The sender of a message receives its own RECEIVE, and so does every
        other live identified session. */
    lemma SenderEcho(ss0: seq<Session>, cs0: seq<nat>, ss1: seq<Session>, cs1: seq<nat>,
                     i: nat, text: string)
      requires Registry(ss0, cs0) && i < |ss0| && Receives(ss0[i])
      requires text != [] && |text| <= MAX_MESSAGE
      requires SendOutcome(ss0, cs0, ss1, cs1, i, Str(text))
      requires Deliverable(ss0, cs0, Receive(ss0[i].name.value, text))
      ensures cs1 == cs0
      ensures forall j :: 0 <= j < |ss0| && Receives(ss0[j]) ==>
                ss1[j].outbox == ss0[j].outbox + [Receive(ss0[i].name.value, text)]
      ensures forall j :: 0 <= j < |ss0| && !Receives(ss0[j]) ==> ss1[j] == ss0[j]
    {
    }

    /** `process_message(payload)`: dispatch on `op`. */
    method ProcessMessage(i: nat, p: Payload) returns (raised: bool)
      requires Valid() && i < |sessions|
      modifies this
      ensures Valid()
      ensures Evolved(old(sessions), old(clients), sessions, clients)
      ensures forall j :: 0 <= j < |sessions| && j != i ==> sessions[j].name == old(sessions[j].name)
      ensures !NonZeroInt(p.op) ==> !raised && ErrorOutcome(old(sessions), old(clients), sessions, clients, i, MISSING_OP, true)
      ensures p.op == Int(IDENTIFY) ==> IdentifyOutcome(old(sessions), old(clients), sessions, clients, i, p.name, raised)
      ensures p.op == Int(SEND) ==> !raised && SendOutcome(old(sessions), old(clients), sessions, clients, i, p.message)
      ensures NonZeroInt(p.op) && p.op.i != IDENTIFY && p.op.i != SEND ==>
                !raised && ErrorOutcome(old(sessions), old(clients), sessions, clients, i, INVALID_OP, true)
    {
      if !NonZeroInt(p.op) {
        Error(i, MISSING_OP, true);
        return false;
      }
      if p.op.i == IDENTIFY {
        raised := OnIdentify(i, p.name);
      } else if p.op.i == SEND {
        OnSend(i, p.message);
        raised := false;
      } else {
        Error(i, INVALID_OP, true);
        raised := false;
      }
    }

    /** `recv(size)` as written: the `return` sits inside the `while`, so its
        body runs at most once and the loop is an `if` here. */
    method Recv(i: nat, size: nat) returns (r: Received)
      requires Valid() && i < |sessions|
      modifies this
      ensures Valid()
      ensures r == FirstChunk(old(sessions[i].inbound), size)
      ensures !r.Closed? ==>
                && clients == old(clients)
                && sessions == old(sessions)[i := old(sessions[i]).(inbound := Remaining(old(sessions[i].inbound), size))]
      ensures r.Closed? ==>
                && Evolved(old(sessions), old(clients), sessions, clients)
                && NamesKept(old(sessions), sessions)
                && sessions[i].dead
                && (!old(sessions[i].dead) ==> i !in clients)
    {
      var chunks: seq<seq<Byte>> := [];
      var remaining := size;
      if remaining > 0 {
        var got := SocketRecv(sessions[i].inbound, Min(remaining, BUF_SIZE));
        var received := got.0;
        if received == [] {
          Terminate(i);
          return Closed;
        }
        RegistryStatus(sessions, sessions[i := sessions[i].(inbound := got.1)], clients);
        sessions := sessions[i := sessions[i].(inbound := got.1)];
        chunks := chunks + [received];
        remaining := remaining - |received|;
        assert Concat(chunks) == received;
        return Chunk(Concat(chunks));
      }
      return Nothing;
    }

    /** `handle()`: read a length prefix, then the body, then act on it, until
        the session is dead. A zero-length frame makes `recv` return None and
        ends the loop while the session stays live. */
    method Handle(i: nat, parse: seq<Byte> -> Request) returns (stop: Stop)
      requires Valid() && i < |sessions|
      modifies this
      ensures Valid() && |sessions| == old(|sessions|)
      ensures stop == Ended ==> sessions[i].dead
      ensures stop == EmptyFrame ==> !sessions[i].dead
    {
      while !sessions[i].dead
        invariant Valid() && |sessions| == old(|sessions|)
        decreases |Concat(sessions[i].inbound)|
      {
        ghost var before := Concat(sessions[i].inbound);
        var lenBytes := Recv(i, 2);
        if !lenBytes.Chunk? {
          return Ended;
        }
        var length := BigEndian(lenBytes.bytes);
        var body := Recv(i, length);
        if body.Nothing? {
          return EmptyFrame;
        }
        if body.Closed? {
          return Ended;
        }
        ghost var consumed := Concat(sessions[i].inbound);
        assert |consumed| < |before|;
        match parse(body.bytes) {
          case Malformed =>
            Error(i, INVALID_PAYLOAD, true);
          case Parsed(p) =>
            var raised := ProcessMessage(i, p);
            if raised {
              Error(i, INVALID_PAYLOAD, true);
            }
        }
      }
      return Ended;
    }
  }
}
