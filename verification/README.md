# GDB Remote Serial Protocol stub — protocol layer in Dafny

This project models the protocol layer of a small GDB remote stub (`gdbstub.c`).
The stub accepts a single debugger client over a stream socket. It reassembles
`$payload#hh` packets from the byte stream, acknowledges each one with `+`, and
dispatches it on its first byte to a fixed reply and/or one of the target's
optional callbacks. Replies go back framed as `$data#hh`. Framing, the additive
checksum and the packets follow Appendix E of the GDB manual ("Overview",
"Packets", "General Query Packets").

The model has these modules:

- `Sequences` (`sequences.dfy`): generic facts about concatenation used by the
  inductive proofs.
- `Bytes` (`bytes.dfy`): bytes, ASCII literals, the checksum (byte sum mod 256),
  and `%02x` / `%2x` hex digits.
- `Encoder` (`encoder.dfy`): `_gdbstub_send`'s framing of a reply.
- `Framing` (`framing.dfy`): the `gdbstate_t` state machine of `_gdbstub_recv`,
  as a pure per-byte `Step` folded over a chunk (`Feed`).
- `Dispatcher` (`dispatcher.dfy`): `_gdbstub_process_packet`. It classifies a
  packet into a `Command` (for `q`, by the first matching query of a fixed
  ordered list) and turns it into an `Outcome`: an optional reply, the callbacks
  invoked, whether the session closes, and whether the "unknown command"
  diagnostic is printed.
- `Session` (`session.dfy`): the stub as a whole. The receive loop is written
  against any dispatcher. Observable behaviour is recorded as a trace of
  `Action`s: `+` written, packet dispatched, callback invoked, reply written,
  diagnostic printed, reply lost. `Tick` covers `gdbstub_tick`, with accept
  and recv replaced by their results. The outcome of each reply send is
  drawn from a list the stub carries (`Stub.sends`), standing for the
  network's behaviour.
- `Gdbstub` (`gdbstub.dfy`): the receive loop with the stub's own dispatcher
  plugged in, and end-to-end exchanges.

The code is modelled as written:

- A checksum mismatch is ignored. Every completed packet is acknowledged and
  dispatched.
- `z`/`Z` reply `OK` and never call the breakpoint callbacks. Control then falls
  through to the diagnostic. It prints the packet buffer, which the reply's
  `_gdbstub_send` has just rewritten (gdbstub.c:168, 336), so the text is
  `$OK#9a` and not the command.
- `g` without a register callback sends nothing.
- Writes after the client has been closed are dropped. Callbacks still run.
- A reply whose `send` fails closes the client (gdbstub.c:175-180). The rest
  of the chunk is still framed and dispatched but writes nothing, and the
  next tick accepts a new client. The result of the `+` send is ignored
  (gdbstub.c:228).

Consequences of the code as written:

- The RSP `Z0`/`z0` packets (GDB manual, Appendix E) insert and remove a
  breakpoint. This stub does not: it replies `OK` without calling
  `set_breakpoint` / `clear_breakpoint`. The address is scanned into a local
  variable and discarded (gdbstub.c:314-327).
- Only a negative `recv` result other than `EAGAIN` ends the connection
  (gdbstub.c:186-191). A `recv` that returns 0 (peer closed) is an empty chunk.
- After `D`, the rest of the same chunk is still framed and dispatched. The
  next accepted client inherits whatever framing state that left, not a
  fresh framer (see `Gdbstub.DetachLeavesPacketOpen` and
  `Gdbstub.StaleFrameSwallowsNextCommand`).

## Model

| member | source | states |
|---|---|---|
| Bytes.Checksum | gdbstub.c:162-166 | the `uint8_t` byte sum: characterised by `ChecksumSnoc` and `ChecksumPermutation` |
| Bytes.SumPermutation | gdbstub.c:162-166 | the byte sum of a payload is the same for every permutation of its bytes |
| Bytes.ChecksumPermutation | gdbstub.c:162-166 | the checksum (sum mod 256) is invariant under permutation: an additive, position-independent checksum |
| Bytes.ChecksumSnoc | gdbstub.c:215-216 | adding a byte to the running `uint8_t` checksum is the checksum of the payload extended by that byte |
| Bytes.CText | gdbstub.c:336 | what `%s` prints from a buffer: a NUL-free prefix that stops only at the first NUL or the end |
| Bytes.Hex2 | gdbstub.c:168-169 | `%02x` yields exactly two lowercase hex digits that parse back to the byte |
| Bytes.ParseHex2 | gdbstub.c:222-223 | the two trailer characters parse to a byte exactly when both are hex digits |
| Encoder.Encode | gdbstub.c:160-169 | the wire form is `$`, the payload, `#`, then two lowercase hex digits whose value is the payload's checksum; four bytes longer than the payload and within the 2048-byte buffer |
| Encoder.PermutedPayloadSameTrailer | gdbstub.c:162-169 | payloads that are permutations of each other get the same checksum trailer |
| Encoder.EncodeInjective | gdbstub.c:168-169 | different payloads never share a wire form |
| Framing.Step | gdbstub.c:197-235 | a packet completes exactly on the second trailer digit, carrying the buffered payload and the parsed trailer, and the framer returns to `NoPacket` |
| Framing.StepValid | gdbstub.c:209-217 | every step keeps `packet_checksum == sum(packet) mod 256`, the buffer bound and the digit count below two |
| Framing.StepCases | gdbstub.c:199-217 | in `NoPacket` every byte but `$` (0x03 and `#` included) changes nothing; `$` starts an empty packet with checksum 0; in `InPacket` every byte but `#` (even `$`) is appended; `#` moves to `InChecksum` with no digits |
| Framing.Trailer | gdbstub.c:210-234 | `#` and any two digits complete exactly one packet, whatever the digits, and return to `NoPacket` |
| Framing.Feed | gdbstub.c:194-236 | the framer over one chunk: characterised by `FeedValid`, `FeedSplit`, `FeedPayload` and `EncodeThenFeed` |
| Framing.FeedValid | gdbstub.c:194-236 | the receive loop keeps the invariant, and every packet it hands on carries the checksum of its own payload |
| Framing.FeedSplit | gdbstub.c:194-236 | feeding `a + b` in one chunk equals feeding `a` and then `b`: same final framer, same packets in order |
| Framing.FitsAllJoin | gdbstub.c:215 | if both halves of a chunk stay within the packet buffer in turn, so does the whole chunk |
| Framing.FeedPayload | gdbstub.c:214-217 | payload bytes without `#` are appended and summed into the checksum, completing nothing |
| Framing.EncodeThenFeed | gdbstub.c:199-231 | round trip: from `NoPacket`, the encoding of any payload without `#` is framed into exactly that payload, once, with a trailer equal to the accumulated checksum |
| Framing.EncodeMidPacket | gdbstub.c:209-217 | an encoded packet arriving inside an unfinished packet is appended to it, `$` included, and dispatched as one packet |
| Dispatcher.FirstQuery | gdbstub.c:267-305 | the result is the first query in the list that the packet asks; there is none exactly when it asks none of them |
| Dispatcher.QueriesExclusive | gdbstub.c:269-304 | no packet asks two of the queries, so the order of the tests cannot change the answer |
| Dispatcher.Classify | gdbstub.c:242-334 | the switch on the first byte and the query tests: characterised by `ClassifyAsk`, `ClassifyByLeader` and `ClassifyUnknown` |
| Dispatcher.ClassifyAsk | gdbstub.c:267-305 | a packet is treated as query `q` exactly when it asks `q` (prefix match, or second byte `C` for `qC`) |
| Dispatcher.ClassifyQuery | gdbstub.c:267-305 | a `q` packet that asks no listed query is unknown |
| Dispatcher.ClassifyByLeader | gdbstub.c:242-334 | every non-query command is selected by the first byte alone, in both directions |
| Dispatcher.ClassifyUnknown | gdbstub.c:242-336 | a packet is unknown exactly when it is empty, or starts with no command letter, or is a `q` that asks no known query |
| Dispatcher.Dispatch | gdbstub.c:239-337 | the session closes exactly on `D`; at most one callback runs; only configured callbacks run; breakpoint and memory callbacks never run |
| Dispatcher.DispatchQuery | gdbstub.c:267-304 | each recognised query gets its fixed reply (`PacketSize=1024`, `QC00`, `1`, `T0`, empty, `lm0`) and nothing else |
| Dispatcher.BreakpointsIgnored | gdbstub.c:314-327 | `z`/`Z` reply `OK` whatever is configured, invoke no callback, and fall through to the diagnostic |
| Dispatcher.DispatchSilent | gdbstub.c:239-337 | no reply is sent exactly for `c`, `s`, `g` without a register callback, and unknown packets |
| Dispatcher.DispatchCalls | gdbstub.c:244-333 | each callback runs exactly when its command arrives and the callback is configured |
| Dispatcher.LetterReplies | gdbstub.c:244-333 | `H` → `OK`; `p` and `v` → empty; `D` → `OK` and close; `?` → `S00`; `c`/`s` → no reply; `g` → the register text or nothing |
| Dispatcher.ConfigIrrelevant | gdbstub.c:249-327 | except for `c`, `s`, `?` and `g`, the outcome does not depend on the configuration |
| Dispatcher.UnknownIgnored | gdbstub.c:334-336 | an unknown packet gets no reply, runs no callback, and prints the diagnostic |
| Dispatcher.StrayDollar | gdbstub.c:242-336 | a payload that still begins with `$` matches no command letter and is unknown |
| Dispatcher.HandshakeExample | gdbstub.c:269-277 | `qSupported` → `PacketSize=1024`; `qCRC` → `QC00` |
| Dispatcher.UnknownExample | gdbstub.c:336 | `Q_bogus` → no reply, no callback |
| Dispatcher.BareQueryExample | gdbstub.c:274 | a bare `q` (second byte the terminator) asks nothing and is unknown |
| Session.Handle | gdbstub.c:228-231 | completing a packet: characterised by `HandleWire`, `HandlePayloads` and `HandleInvokes` |
| Session.HandleWire | gdbstub.c:173-180 | completing a packet writes `+` then the framed reply, if any and if its send gets through, when connected, and nothing otherwise |
| Session.FailedReplyCloses | gdbstub.c:173-180 | a reply whose send fails is recorded as lost and closes the client: only `+` reaches the wire, the rest of the chunk writes nothing, and the next tick accepts a client |
| Session.Start | gdbstub.c:63-69 | a stub after `gdbstub_init` has no client and a valid framer in `NoPacket`, the base case for `TickValid` |
| Session.HandlePayloads | gdbstub.c:230-231 | completing a packet dispatches it exactly once |
| Session.WireReply | gdbstub.c:168-180 | a reply writes its frame exactly when the client is open and the send gets through, and nothing otherwise |
| Session.HandleDiagnoses | gdbstub.c:168-336 | the diagnostic appears in the trace exactly when the dispatcher falls through to it, with the packet buffer's text: the framed reply if one was sent on the way, else the payload up to its first NUL |
| Session.HandleInvokes | gdbstub.c:231 | the callbacks run are exactly those the dispatcher chose, connected or not |
| Session.RecvByte | gdbstub.c:194-236 | one byte moves the framer exactly as `Step` does, never opens a session, and uses at most one send outcome |
| Session.Receive | gdbstub.c:194-236 | the receive loop over one chunk: characterised by `ReceiveIsReplay` and `ReceiveSplit` |
| Session.ReceiveSplit | gdbstub.c:194-236 | a chunk split in two gives the same final stub and the same actions in the same order |
| Session.ReceiveSplitFits | gdbstub.c:215 | a chunk that stays within the packet buffer does so in two parts, the second read from where the first left the stub |
| Session.DollarOpens | gdbstub.c:199-203 | a `$` arriving outside a packet opens an empty packet and leaves the connection flag alone |
| Session.ReceiveIsReplay | gdbstub.c:194-236 | the receive loop is the framer followed by the dispatcher: framer as `Feed` leaves it, actions those of handling `Feed`'s packets in order; trailer values play no part |
| Session.ReplayPayloads | gdbstub.c:219-234 | every completed packet is dispatched exactly once, in order |
| Session.ReplayOne | gdbstub.c:219-234 | a single completed packet is handled on its own, and the session then stays open unless the dispatcher closed it or its reply was lost |
| Session.ReplayDisconnectedSilent | gdbstub.c:173-180 | with no client, handling packets writes nothing, attempts no send and does not reconnect |
| Session.DisconnectedIsSilent | gdbstub.c:173-180 | receiving without a client writes nothing to the wire |
| Session.ChecksumIgnored | gdbstub.c:221-234 | any two trailers close a packet with the same actions and connection; only the stored digits differ |
| Session.EncodedPacketHandled | gdbstub.c:199-234 | from `NoPacket`, an encoded payload is acknowledged, dispatched as itself, answered, and leaves the framer in `NoPacket`; the session closes on `D` or a lost reply |
| Session.EncodedPacketMidPacket | gdbstub.c:209-234 | inside an empty unfinished packet, an encoded payload is handled as one packet whose payload is `$` followed by the payload |
| Session.Tick | gdbstub.c:143-158 | one tick: characterised by `TickValid`, `TickSplit` and `LostConnectionResets` |
| Session.TickValid | gdbstub.c:143-158 | a tick keeps the framer invariant |
| Session.TickSplit | gdbstub.c:143-158 | two receives equal one receive of the concatenation when the session is still open after the first |
| Session.LostConnectionResets | gdbstub.c:185-191 | a failed receive closes the client and sets the state to `NoPacket`, with no output |
| Gdbstub.ProcessPacket | gdbstub.c:231 | the receive loop's dispatcher, `Dispatch` with the stub's configuration: characterised by `Exchange`, `QueryExchange`, `DetachExchange`, `BreakpointDiagnostic` and `UnknownDiagnostic` |
| Gdbstub.Exchange | gdbstub.c:219-233 | an encoded packet on an open session is answered with `+` and its command's framed reply when that send gets through; the session stays open unless it was `D` or the reply was lost |
| Gdbstub.QueryExchange | gdbstub.c:267-305 | an encoded query on an open session is answered with `+` and the query's framed fixed reply, and stays open exactly when that send gets through |
| Gdbstub.SupportedExchange | gdbstub.c:269-272 | the encoded `qSupported` query (`$qSupported#37`, by `SupportedWire`) is answered with `+` and the encoded `PacketSize=1024`, session open, when the send gets through |
| Gdbstub.DetachExchange | gdbstub.c:249-254 | any encoded `D` packet is answered with `+` and the encoded `OK` (`$OK#9a`, by `OkWire`) when the send gets through, then the session is closed in `NoPacket` |
| Gdbstub.OkWire | gdbstub.c:160-169 | the reply `OK` goes on the wire as `$OK#9a` |
| Gdbstub.SupportedWire | gdbstub.c:160-169 | the query `qSupported` is framed as `$qSupported#37` (byte sum 0x437, kept mod 256) |
| Gdbstub.BreakpointDiagnostic | gdbstub.c:314-336 | for `z`/`Z` the diagnostic prints exactly `$OK#9a`, the reply left in the packet buffer, connected or not |
| Gdbstub.UnknownDiagnostic | gdbstub.c:334-336 | for an unknown command the diagnostic prints exactly the payload up to its first NUL (the terminator written at line 230) |
| Gdbstub.OnlyUnknownAndBreakpointsDiagnose | gdbstub.c:239-336 | every other command returns before the diagnostic, so nothing is printed |
| Gdbstub.DetachLeavesPacketOpen | gdbstub.c:148-154 | a `$` after `D` in the same chunk leaves the closed stub inside a packet, and accepting the next client keeps that state |
| Gdbstub.StaleFrameSwallowsNextCommand | gdbstub.c:199-217 | the next client's first well-formed packet, whatever it is, is then dispatched with a leading `$`, is unknown, and gets only `+` |

## Left out

- Socket creation, non-blocking setup, bind/listen, `gdbstub_init`/`gdbstub_term`, and the `accept`/`recv`/`send` syscalls (gdbstub.c:55-158, 173, 185, 228) are OS I/O. A tick receives their results as a `Transport` value. Writes are recorded as actions.
- A failed `+` send (gdbstub.c:228): the source ignores its result, and the model records the `+` as written.
- Dispatcher.Config: the register callback returns the same text on every call; the target's state, which `c` and `s` change, is not modelled.
- Logging via `printf`, `perror` and `fprintf` has no behavioural content. The unknown-command message is kept as a `Diagnosed` action carrying the text it prints.
- The 0x03 interrupt is a no-op placeholder (gdbstub.c:205-207). It is treated like any other byte outside a packet.
- `g` stores the register callback's output in the receive buffer and its length in the loop bound (gdbstub.c:257). That overwrites the rest of the chunk being processed. The model keeps the two buffers separate. Likewise, `_gdbstub_send` writes the outgoing packet into the payload buffer (gdbstub.c:168). The only read of that buffer before the next `$` is the diagnostic at gdbstub.c:336, and the model records its effect there as the text of `Diagnosed` (`Session.Printed`); otherwise the buffers are kept separate.
- The unbounded append at gdbstub.c:215 is modelled by the precondition `Fits`/`FitsAll`: the payload plus its terminator must fit the 4096-byte buffer.
- `snprintf` truncation at 2048 bytes (gdbstub.c:168) is modelled by the precondition `Encodable` (the payload plus four framing bytes must be below 2048). Replies have the type `Payload`.
- The register callback is modelled as the C string it writes, so it must be NUL-terminated and short enough to send. Text written without a terminator would be over-read by `strlen`, and that case is not modelled.
- The scanned `z`/`Z` address is discarded by the source, so it is not modelled.
- The memory callback, `get_memory`, is never called by the dispatcher: there is no `m` command. It appears only as a configurable `Event` that is proved never to occur.
- `examples/example.c` (a demo `main` with printing callbacks) and `gdbstub.h` (declarations) are not modelled. The header's `gdbstub_config` only shapes `Dispatcher.Config`.
- Bytes at or above 0x80 arrive as negative `char`s. This changes no comparison and no checksum modulo 256, so bytes are modelled as 0..255.
- Bytes.ParseHex2: returns `None` unless both characters are hex digits. `sscanf("%2x")` also accepts leading whitespace, a sign, or a single digit, and otherwise leaves the value undefined. The parsed value never affects behaviour.
