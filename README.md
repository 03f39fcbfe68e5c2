# python-chat, modelled in Dafny

python-chat is a small TCP chat. The server keeps one `Client` object per
connection and a `Server` holding the list of connected clients. The
terminal client keeps a `SocketClient` that talks to the server. Both sides
exchange frames: a 2-byte big-endian length, then that many bytes of UTF-8
JSON. Every message carries an integer `op` code: ERROR 0, IDENTIFY 1,
SEND 2, RECEIVE 3, JOIN 4, LEAVE 5, INFO 6.

The model has three modules.

- `Wire` (`wire.dfy`) holds the frame codec, the message schema and the
  incoming byte stream.
  - The stream is a sequence of non-empty pieces. One `socket.recv(n)`
    returns at most `n` bytes, taken from the first piece.
  - JSON text is not modelled. Encoding is an abstract function from
    `Message` to bytes.
- `Server` (`server.dfy`) models the server's state machine.
  - A `Session` value stands for one `Client` object. It records the name,
    the `dead` flag, whether writes to its socket raise, the bytes still to
    arrive, and an outbox of every message successfully written to it.
  - The class `Hub` stands for `Server`. It keeps every session ever
    accepted (`sessions`, indexed by id) and the ordered registry list
    `clients`.
  - Every method of `Hub` keeps the registry invariant `Valid()`:
    - ids are listed at most once;
    - every live session is listed;
    - no two live identified sessions share a name.
  - Each operation's outcome is stated as a predicate on the state before
    and after.
- `Client` (`client.dfy`) models the client's protocol side.
  - The class `SocketClient` holds the `identified` flag, the `online`
    counter, both byte counters, the incoming stream, the bytes written,
    and a transcript of the lines the window prints.
  - `handle_message` is specified by `Replay`, a function over the whole
    incoming byte stream.
  - `OnEnter` is the Enter-key rule.

Dafny integers are unbounded and Python's are too, so no counter wraps.

Two behaviours of the code worth noting:

- `int.to_bytes(n, 2, "big")` raises OverflowError for a payload of 65536
  bytes or more (server.py:95, client.py:105). Encoding such a payload is
  therefore an error, and nothing is written.
- The server's `recv` returns from inside its loop after the first read
  (server.py:35). It can return fewer bytes than asked for.
  - `Server.FirstChunk` states what it does guarantee: a non-empty chunk of
    at most `min(size, 4096)` bytes.
  - `Server.ShortRead` shows a length prefix that arrives split in two
    pieces and is read as one byte.
  - `Server.Hub.Handle` then uses that single byte as the length, exactly as
    the code does.

In contrast, the client's `recv` accumulates until the full size has arrived.
`Client.SocketClient.Recv` proves that it returns exactly the first `size`
bytes of the stream.

## Model

| member | source | states |
|---|---|---|
| Wire.BigEndian | server.py:61 | `int.from_bytes(bs, "big")` is an unsigned value below 256 to the power of the byte count, whose lowest base-256 digit is the last byte |
| Wire.BigEndianPair | server.py:61 | `int.from_bytes` of two bytes is `hi*256 + lo`, at most 65535 |
| Wire.Frame | server.py:93-97 | framing succeeds iff the payload has at most 65535 bytes; the frame is 2 + n bytes, its header reads back as n and the rest is the payload; otherwise the error carries the length |
| Wire.ParseFrame | client.py:194-197 | a frame is found iff two header bytes and that many payload bytes are present; the stream is header + payload + rest |
| Wire.RoundTrip | server.py:93-97 | decoding a framed payload followed by anything gives back the payload and exactly the rest |
| Wire.FrameInjective | server.py:93-97 | distinct payloads never frame to the same bytes |
| Wire.Concat | server.py:35 | `b"".join(chunks)`: the chunks concatenated in order; its properties are `Wire.ConcatSnoc` and `Wire.ConcatEmpty` |
| Wire.ConcatSnoc | client.py:153-156 | joining chunks after appending one equals joining them and then appending it |
| Wire.ConcatEmpty | server.py:27-28 | a stream of non-empty pieces has no bytes iff it has no pieces |
| Wire.SocketRecv | server.py:27 | one read returns at most the requested count, drops nothing from the stream, and is empty iff zero was asked or the peer closed |
| Server.FirstChunk | server.py:21-35 | the server read returns None iff size is 0, False iff size > 0 and the stream has ended, else a non-empty prefix of at most min(size, 4096) bytes |
| Server.ShortRead | server.py:35 | asked for 2 bytes of a stream whose first piece is 1 byte, the read returns that one byte |
| Server.Without | server.py:51-52 | `list.remove`: removes one occurrence when present, keeps every other element, and leaves a duplicate-free list free of the removed id |
| Server.WithoutOrder | server.py:51-52 | `list.remove` takes out the first occurrence of the id and keeps the others in their order |
| Server.OnlineNames | server.py:139 | the INFO list holds the name of every live identified listed session and nothing else; `Server.OnlineNamesConcat` gives its order |
| Server.OnlineNamesConcat | server.py:139 | the INFO filter keeps `clients` order: the names from the front of the list come before those from its back |
| Server.OnlineNamesDistinct | server.py:125-139 | under the uniqueness invariant the INFO list has no repeated name |
| Server.OnlineNamesStatus | server.py:139 | the INFO list depends only on liveness and names, not on outboxes |
| Server.Deliver | server.py:165-178 | a failure-free broadcast changes no session's liveness or name |
| Server.Naming | server.py:125-129 | naming a session with a name no live listed session holds keeps the invariant |
| Server.Kill | server.py:42 | setting `dead` keeps the invariant and moves the registry only as allowed |
| Server.Remove | server.py:51-52 | removing a dead session from `clients` keeps the invariant |
| Server.Hub.constructor | server.py:163 | a new server has no clients and satisfies the invariant |
| Server.Hub.Accept | server.py:187-192 | a new connection is an unidentified live session appended to `clients` |
| Server.Hub.SendJson | server.py:93-97 | the write succeeds iff the session is live, its socket accepts writes and the frame fits; then exactly that outbox gains the message |
| Server.Hub.Terminate | server.py:37-52 | idempotent; afterwards the session is dead and off the list; its own outbox is unchanged, so it never gets its own LEAVE; LEAVE is broadcast only when it had a name; with no failing recipient the new state is exactly the terminated state |
| Server.Hub.SendOrTerminate | server.py:171-178 | when the write succeeds exactly that recipient's outbox grows and the list is unchanged; when it raises the recipient is terminated and off the list; only recipients are ever terminated |
| Server.Hub.Broadcast | server.py:165-178 | dead and unidentified sessions are skipped; with no failing recipient exactly the live identified listed sessions get the message and the list is unchanged; only recipients are ever terminated |
| Server.Hub.SendMessage | server.py:180-185 | a RECEIVE with the user and text goes out as a broadcast |
| Server.Hub.Error | server.py:73-88 | nothing happens on a dead session; otherwise an ERROR write is attempted, a failure is swallowed, and the session is terminated only when fatal |
| Server.Hub.NameInUse | server.py:125-127 | true iff some live listed session holds the name |
| Server.Hub.OnSend | server.py:99-111 | unidentified sender, missing, empty, non-string or over-2000-character message each give their terminating error; otherwise RECEIVE from the sender is broadcast |
| Server.Hub.OnIdentify | server.py:113-140 | "Already identified" and "Name already in use." do not terminate and leave the name alone; a missing, empty, non-string or over-32-character name terminates; otherwise the name is set, JOIN is broadcast, and INFO is sent to the newcomer; the escaping exception is reported exactly when that INFO write cannot go through, whether or not the JOIN broadcast met a failing recipient |
| Server.Hub.JoinThenInfo | server.py:129-140 | with no failing recipient, INFO lists the names as they stood right after naming, in list order |
| Server.Hub.OwnJoin | server.py:129-140 | the newcomer's outbox gains JOIN for itself and then INFO, and INFO lists its own name |
| Server.Hub.SenderEcho | server.py:111 | every live identified session, the sender included, gets the sender's RECEIVE; no other session changes |
| Server.Hub.ProcessMessage | server.py:142-153 | a missing, zero or non-int op gives a terminating error; op 1 is identify, op 2 is send; any other op gives a terminating "Invalid Op Code." |
| Server.Hub.Recv | server.py:21-35 | returns the first chunk of the stream, updating only that session's stream; an empty read terminates the session |
| Server.Hub.Handle | server.py:54-71 | loops until the session is dead; a zero-length frame ends the loop with the session still live |
| Client.Contains | client.py:182 | Python's `needle in text`: the needle occurs at some position of the text |
| Client.NameInUseRecognised | client.py:182 | the server's reply "Name already in use." contains the text the client looks for, so a taken name is always shown |
| Client.Replay | client.py:194-210 | the specification of `handle_message` over the whole stream: one frame at a time, count it, dispatch it, and stop at the first unusable frame; its properties are the lemmas below |
| Client.ReplayGrows | client.py:194-210 | handling only ever adds: the transcript grows at its end, `bytes_recv` never falls, and an identified client stays identified |
| Client.ReplayLost | client.py:139-156 | when the loop stops because the stream ended, the last line printed is "Connection lost." |
| Client.Apply | client.py:161-192 | a handler never changes the received-byte counter and prints at most one line |
| Client.ReplayFramed | client.py:194-210 | a framed message that decodes to itself adds its length plus 16 to the byte counter and then runs its handler |
| Client.FrameAt | client.py:196-197 | the two reads of a turn find a frame exactly when both are complete |
| Client.ReplayFrames | client.py:194-210 | the frames of a message sequence, then the end of the stream, are handled exactly as that sequence, and the loop then reports the lost connection |
| Client.FoldCounters | client.py:165-177 | between INFO replies `online` moves by +1 per JOIN and -1 per LEAVE, and `identified` does not change |
| Client.FoldBytes | client.py:198 | `bytes_recv` grows by the body length plus 16 for every frame, whatever its op |
| Client.FoldAfterInfo | client.py:187-189 | after INFO the client is identified and `online` starts from the length of the user list |
| Client.IsSpace | client.py:412 | `str.isspace` on one character: exactly the characters Python's `str.strip()` removes |
| Client.StripLeft | client.py:412 | the result is a suffix of the input, only whitespace was removed, and it does not start with whitespace |
| Client.StripRight | client.py:412 | the result is a prefix of the input, only whitespace was removed, and it does not end with whitespace |
| Client.Strip | client.py:412 | `str.strip()`: whitespace removed from both ends |
| Client.StripSlice | client.py:412 | `strip()` returns a slice of the input with only whitespace before and after it, starting and ending with a non-whitespace character |
| Client.StripEmpty | client.py:412 | `text.strip()` is empty iff every character is Python whitespace |
| Client.OnEnter | client.py:401-416 | "/quit" or "/q" quits; a blank line does nothing; any other line becomes IDENTIFY while unidentified and SEND afterwards, sent as typed |
| Client.SocketClient.constructor | client.py:84-90 | a new client is unidentified with zero counters |
| Client.SocketClient.SendJson | client.py:103-108 | the frame is written and `bytes_sent` grows by exactly the payload length plus 16; the written frame parses back to the payload; an oversized payload writes nothing |
| Client.SocketClient.SendMessage | client.py:127-131 | writes the SEND frame for the text, and `bytes_sent` grows by the payload length plus 16 exactly when the frame went out |
| Client.SocketClient.Identify | client.py:133-137 | writes the IDENTIFY frame for the name, and `bytes_sent` grows by the payload length plus 16 exactly when the frame went out |
| Client.SocketClient.Recv | client.py:139-156 | returns exactly the first `size` bytes of the stream and leaves the rest; when the stream ends early it returns None and prints "Connection lost." |
| Client.SocketClient.OnReceive | client.py:161-163 | prints the user's message |
| Client.SocketClient.OnJoin | client.py:165-170 | `online` grows by exactly 1 |
| Client.SocketClient.OnLeave | client.py:172-177 | `online` shrinks by exactly 1 |
| Client.SocketClient.OnError | client.py:179-185 | only an error containing "Name already in use" is shown |
| Client.SocketClient.OnInfo | client.py:187-192 | `online` becomes the length of the list and the client is identified |
| Client.SocketClient.Dispatch | client.py:201-210 | RECEIVE, JOIN, LEAVE, ERROR and INFO go to their handlers; other ops are ignored |
| Client.SocketClient.ReadFrame | client.py:196-197 | the two reads yield the frame at the head of the stream and leave its rest; when no whole frame has arrived, they yield None and print "Connection lost." |
| Client.SocketClient.Turn | client.py:195-210 | one pass of the loop either stops with the state and reason `Replay` gives, or consumes bytes and leaves `Replay` of the remaining stream unchanged |
| Client.SocketClient.HandleMessages | client.py:194-210 | the final state and the reason the loop stops are those of `Replay` on the whole incoming stream |
| Client.SocketClient.Enter | client.py:401-416 | the bytes written are exactly the frame the Enter rule calls for, or nothing; `bytes_sent` grows by that payload's length plus 16 when a frame goes out, and stays as it was for a quit or a blank line |

## Left out

- Sockets are not modelled: `bind`, `listen`, the accept loop, `close` and `sendall`. An outgoing frame is an outbox entry on the server and appended bytes on the client. Incoming bytes are a given sequence of pieces.
- Threads are not modelled. Every handler runs to completion before another starts, and the name-uniqueness invariant relies on that.
- `json.dumps`, `json.loads` and UTF-8 encoding are foreign library calls. They are the abstract parameters `encode` and `parse`, which may make `handle` raise. The JSON value model keeps only the `op`, `name` and `message` keys on the server side.
- `update_data`, `show_online`, every urwid widget, `draw_interface` and the palette are not modelled. They format floats and drive the screen.
- Logging and every `print` call are not modelled, and neither is the `address` field, which is used only by them.
- `Client.send` and `broadcast(..., json=False)` are not modelled, because the code never calls them.
- `socket.recv` raising (for example on a connection reset) is not modelled; on the server, `handle` would catch it and send "Invalid Payload".
- Server.Hub.Broadcast: delivery to exactly the live identified listed sessions is proved only when no write fails. When a failing recipient is terminated and removed from `clients` during the walk, the list iterator skips the entry after it. The model walks the list by position in the same way, but only proves that no one but a recipient is terminated.
- Server.Hub.OnIdentify: the INFO contents, and the rest of the new state, are stated only for a JOIN broadcast with no failing recipient. Whether the INFO write raises is stated in every case.
- Server.Hub.Handle: the contract states how the loop ends and that the invariant holds. It does not describe the messages sent along the way, which follow from the members it calls.
- Server.Session: whether writes to a session's socket raise is fixed when it is accepted; the code may fail on any individual write.
- Client.SocketClient.Enter: when the line's payload is over 65535 bytes, the OverflowError escapes `keypress`; the model writes nothing and continues. The `sendall` on the client socket is assumed not to raise.
- Client.SocketClient.HandleMessages: the loop's ending exception is a `Halt` value, not a dead thread.
- Python counts string length in code points, and Dafny's `char` is a Unicode scalar value; strings holding lone surrogates are not modelled.
