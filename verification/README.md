# KTN connection protocol: a Dafny model of `ConnectionImpl`

This project models the protocol logic of `ConnectionImpl` from the KTN
course transport: a connection-oriented, TCP-like protocol over an
unreliable datagram socket. It covers:

- the packet validator `isValid`;
- the connection state machine driven by `connect`, `accept`, `send`,
  `receive` and `close`;
- the port table that the constructor writes.

The model is functional. `Conn` and `Packet` are immutable datatypes, and
every operation is a pure function from a connection plus a `Channel` to an
`Outcome`.

The network helpers belong to the base class and the socket layer, which are
not part of this model. They are replaced by outcomes that the caller
supplies. A `Channel` holds two queues:

- `sends`: one `Emit` per call of an outgoing-packet helper
  (`constructInternalPacket` + `simplySendPacket`, `sendAck`,
  `constructDataPacket`). It says how far the helper moved `nextSequenceNo`
  and whether it threw.
- `replies`: one `Reply` per call of a receiving helper (`receiveAck`,
  `receivePacket`, `sendDataPacketWithRetransmit`). A reply is a packet,
  null (`NoPacket`) or an exception (`Fault`).

An operation ends in one of three ways:

- `Return`: it returned normally;
- `Raise`: it threw;
- `Pending`: the queues ran out before it returned, so the call is still
  blocked; the outcome shows the connection as it stands at that point.

Java exceptions map to `Error`:

- `ConnectException` is `NotConnected`;
- an `IOException` the operation raises itself is `IoError`;
- an exception of a helper passed on unchanged is `ChannelFault`;
- the `NullPointerException` of `isValid(null)` inside `receive` is
  `NullPacket`.

The checksum arithmetic is not modelled either. A packet carries its stored
`checksum` and the `recomputed` value, and only their equality matters.

Modules:

- `Packets`: flags, packets;
- `Ports`: the port table;
- `Connection`: states, connections, outcomes, the constructor, `isValid`;
- `Handshake`: `connect` and `accept`;
- `Transfer`: `send` and `receive`;
- `Teardown`: `close`;
- `Options`: the Option datatype used for nullable references.

### Where the code departs from a textbook TCP-style handshake, transfer and teardown

- `connect` and `accept` do not check that the state is CLOSED first.
- `accept` fails on the first packet that is not a valid SYN. It does not
  discard such packets and keep waiting.
- `accept` gives the new connection the listener's own port. There is no
  ephemeral-port allocation and no port release anywhere.
- `connect` does not take the peer's port from the SYN_ACK.
- `receive` returns any packet that passes `isValid`: NONE, ACK or FIN. It
  does not require the NONE flag.
- `send` raises an I/O error when the retransmitting send returns null.
- `send` takes any reply that passes `isValid` as its acknowledgement: a
  data, ACK or FIN packet. Its Javadoc (lines 176-177) speaks of an ACK, but
  only an ACK-flagged reply has its ack number checked.
- `close` never raises. With no accepted packet at all it only sets CLOSED,
  because reading the last packet's flag throws and the exception is
  swallowed. TIME_WAIT is never entered.
- `isValid` uses the strict policies: an ACK must acknowledge exactly
  `nextSequenceNo - 1`, and a packet must be numbered exactly one past the
  last accepted one.
- Sequence and acknowledgement numbers and the counter are Java `int`s, so
  all three computations wrap around in 32 bits. The model keeps them as
  `int32` values and wraps every `+ 1`, `- 1` and counter step (`Wrap`): the
  successor of 2^31 - 1 is -2^31.

## Model

| member | source | states |
|---|---|---|
| `Ports.Register` | src/no/ntnu/fp/net/co/ConnectionImpl.java:51 | the registered port is in the table afterwards, nothing is removed, and no other port is added |
| `Ports.RegisterKnownPort` | src/no/ntnu/fp/net/co/ConnectionImpl.java:51 | registering a port already in use leaves the table unchanged |
| `Connection.NewConnection` | src/no/ntnu/fp/net/co/ConnectionImpl.java:48-54 | a new connection is CLOSED, has accepted nothing, is bound to the given port and address, and the port table gains exactly its port |
| `Connection.IsValid` | src/no/ntnu/fp/net/co/ConnectionImpl.java:315-359 | returns true exactly when the flag suits the state, the checksum matches, an ACK acknowledges `nextSequenceNo - 1` and the sequence number follows the last accepted packet, both in 32-bit arithmetic; on true only the last accepted packet becomes the packet, on false nothing changes; state and counter never change |
| `Connection.WrongFlagRejected` | src/no/ntnu/fp/net/co/ConnectionImpl.java:320-340 | SYN_SENT refuses all but SYN_ACK; SYN_RCVD, FIN_WAIT_1 and LAST_ACK refuse all but ACK; LISTEN refuses all but SYN; FIN_WAIT_2 refuses all but FIN; the connection is unchanged |
| `Connection.EstablishedFlagGate` | src/no/ntnu/fp/net/co/ConnectionImpl.java:335-337 | in ESTABLISHED, SYN and SYN_ACK are always refused, and the flag gate lets through exactly NONE, ACK and FIN |
| `Connection.CorruptedRejected` | src/no/ntnu/fp/net/co/ConnectionImpl.java:342-344 | a packet whose stored checksum differs from the recomputed one is refused in every state for every flag, with nothing changed |
| `Connection.StaleAckRejected` | src/no/ntnu/fp/net/co/ConnectionImpl.java:346-348 | an ACK whose ack number is not `nextSequenceNo - 1` is refused, with nothing changed |
| `Connection.OutOfSequenceRejected` | src/no/ntnu/fp/net/co/ConnectionImpl.java:350-354 | once a packet has been accepted, a duplicate or a gap (any number other than its successor) is refused, with nothing changed |
| `Connection.NoDoubleAccept` | src/no/ntnu/fp/net/co/ConnectionImpl.java:350-358 | a packet that has just been accepted is refused if it arrives again |
| `Connection.ValidateAllConsecutive` | src/no/ntnu/fp/net/co/ConnectionImpl.java:350-358 | in a stream validated packet by packet, the accepted packets are numbered consecutively (in 32-bit arithmetic) from the packet accepted before |
| `Connection.ValidateAllRecordsLast` | src/no/ntnu/fp/net/co/ConnectionImpl.java:356-358 | after such a stream the accepted packets are intact members of it, and the connection remembers the last of them, with state and counter unchanged |
| `Connection.ConsecutiveDistinct` | src/no/ntnu/fp/net/co/ConnectionImpl.java:350-354 | in a consecutively numbered run, a packet `k` places later carries the number `k` higher, wrapped to 32 bits; so in a run shorter than 2^32 packets no number is delivered twice |
| `Packets.WrapIsNarrowing` | src/no/ntnu/fp/net/co/ConnectionImpl.java:346-350 | the wrapped `+ 1` and `- 1` of these checks agree with Java's 32-bit two's-complement narrowing, reduction modulo 2^32 into [-2^31, 2^31) |
| `Packets.WrapAdd` | src/no/ntnu/fp/net/co/ConnectionImpl.java:350 | wrapping after each step of a chain of additions gives the same number as wrapping once at the end |
| `Connection.SequenceWrapsAtMax` | src/no/ntnu/fp/net/co/ConnectionImpl.java:350-358 | after a packet numbered 2^31 - 1, an established connection accepts an intact data packet numbered -2^31, as Java's wrapping `+ 1` does |
| `Handshake.Connect` | src/no/ntnu/fp/net/co/ConnectionImpl.java:78-113 | the remote endpoint is always recorded; any raise is an I/O error with state CLOSED, and the call stays blocked only while a send or the reply is still missing; a normal return means state ESTABLISHED after an intact SYN_ACK, which is now the last accepted packet |
| `Handshake.ConnectEstablishedIff` | src/no/ntnu/fp/net/co/ConnectionImpl.java:86-104 | `connect` reaches ESTABLISHED if and only if both sends complete and the reply passes validation in SYN_SENT |
| `Handshake.ConnectFailureRaises` | src/no/ntnu/fp/net/co/ConnectionImpl.java:83-111 | once both sends and the reply are supplied, `connect` either establishes or raises an I/O error with state CLOSED; no failure leaves it hanging |
| `Handshake.ConnectReusedRefusesSynAck` | src/no/ntnu/fp/net/co/ConnectionImpl.java:92-95 | a connection whose last accepted packet is numbered 100 refuses an intact SYN_ACK numbered 5, and `connect` raises with state CLOSED |
| `Handshake.ConnectFresh` | src/no/ntnu/fp/net/co/ConnectionImpl.java:86-104 | corrected `connect`: once both sends complete, any intact SYN_ACK establishes the connection and is recorded |
| `Handshake.ConnectFreshIgnoresHistory` | src/no/ntnu/fp/net/co/ConnectionImpl.java:86-104 | with the reset, the result of `connect` does not depend on the packets accepted before |
| `Handshake.ConnectRejectsCorruptSynAck` | src/no/ntnu/fp/net/co/ConnectionImpl.java:92-112 | a corrupted SYN_ACK never establishes the connection; once the SYN is out, `connect` raises with state CLOSED |
| `Handshake.Child` | src/no/ntnu/fp/net/co/ConnectionImpl.java:154-160 | the handed-off connection is ESTABLISHED, has accepted nothing, takes its remote endpoint from the SYN's source, and copies the listener's address, port and sequence counter; the port table gains exactly the listener's port |
| `Handshake.Accept` | src/no/ntnu/fp/net/co/ConnectionImpl.java:121-167 | any raise is an I/O error with the listener CLOSED and the port table untouched, and the call stays blocked only while the send or a reply is still missing; success needs an intact SYN and then an intact ACK numbered right after it that acknowledges `nextSequenceNo - 1` (32-bit arithmetic); the listener ends CLOSED, and the new connection is ESTABLISHED with the SYN's source as remote endpoint and the listener's counter |
| `Handshake.AcceptFailureRaises` | src/no/ntnu/fp/net/co/ConnectionImpl.java:121-166 | once the send and both replies are supplied, `accept` either returns a connection or raises an I/O error with the listener CLOSED and the port table unchanged |
| `Handshake.AcceptSucceedsIff` | src/no/ntnu/fp/net/co/ConnectionImpl.java:122-161 | `accept` returns a connection if and only if the first reply passes validation in LISTEN, the SYN_ACK goes out, and the second reply passes validation in SYN_RCVD |
| `Handshake.AcceptKeepsPortTable` | src/no/ntnu/fp/net/co/ConnectionImpl.java:154 | when the listener's port is already registered, `accept` leaves the port table unchanged |
| `Handshake.AcceptReusedListenerRefusesSyn` | src/no/ntnu/fp/net/co/ConnectionImpl.java:122-131 | a listener that last accepted a packet numbered 100 refuses an intact SYN numbered 5 and ends CLOSED with an error |
| `Handshake.AcceptFresh` | src/no/ntnu/fp/net/co/ConnectionImpl.java:122-131 | corrected `accept`: an intact SYN always passes, whatever the listener accepted before |
| `Handshake.AcceptFreshIgnoresHistory` | src/no/ntnu/fp/net/co/ConnectionImpl.java:122-131 | with the reset, the result of `accept` does not depend on the listener's earlier handshakes |
| `Handshake.AcceptFreshTakesSyn` | src/no/ntnu/fp/net/co/ConnectionImpl.java:122-131 | with the reset, the listener of the counterexample takes the SYN numbered 5 |
| `Transfer.AwaitAck` | src/no/ntnu/fp/net/co/ConnectionImpl.java:187-195 | a normal return records a reply that passes validation; a raise comes from a null reply (I/O error) or a helper exception; otherwise the connection is unchanged |
| `Transfer.AwaitAckFirstDecides` | src/no/ntnu/fp/net/co/ConnectionImpl.java:189-195 | invalid acks are skipped, and the first reply that is not one decides the outcome: valid ack recorded, null gives an I/O error, exception passed on |
| `Transfer.Send` | src/no/ntnu/fp/net/co/ConnectionImpl.java:174-196 | a not-connected error exactly outside ESTABLISHED, with nothing changed; a channel fault only when the data send threw or a receiving helper failed; state and endpoints never change; a normal return means an intact data, ACK or FIN reply from the channel, numbered right after the last accepted packet and, if it is an ACK, acknowledging the current counter, was recorded; an I/O error means a null reply came; otherwise the last accepted packet is unchanged |
| `Transfer.SendWithoutAckFails` | src/no/ntnu/fp/net/co/ConnectionImpl.java:193-195 | a null reply before any valid ack makes `send` raise an I/O error and record nothing |
| `Transfer.ReceiveLoop` | src/no/ntnu/fp/net/co/ConnectionImpl.java:211-224 | the returned payload is that of an intact packet from the channel with a flag the state admits, numbered right after the last accepted packet and now recorded as last accepted; the in-loop state check never fires in ESTABLISHED |
| `Transfer.Receive` | src/no/ntnu/fp/net/co/ConnectionImpl.java:206-226 | outside ESTABLISHED, a not-connected error with nothing changed; a normal return delivers the payload of an intact, non-SYN, non-SYN_ACK packet from the channel that follows the last accepted packet by exactly one |
| `Transfer.ReceiveDeliversFirstInSequence` | src/no/ntnu/fp/net/co/ConnectionImpl.java:211-224 | when every acknowledgement goes out and no packet is an ACK, `receive` skips every packet that fails validation and delivers, and records, the first one in arrival order that passes |
| `Transfer.ReceiveIgnoresDuplicates` | src/no/ntnu/fp/net/co/ConnectionImpl.java:212-221 | if every arriving packet repeats the last accepted number or a lower one, and that number is below 2^31 - 1 (above it the successor wraps to the lowest number), `receive` delivers nothing and the last accepted packet stays |
| `Transfer.ReceiveTwiceConsecutive` | src/no/ntnu/fp/net/co/ConnectionImpl.java:206-226 | two successive receives deliver packets numbered one apart, in 32-bit arithmetic |
| `Teardown.ClosePassive` | src/no/ntnu/fp/net/co/ConnectionImpl.java:235-262 | passive close returns in CLOSED, blocks only in its own state, CLOSE_WAIT or LAST_ACK, and records at most an intact ACK |
| `Teardown.CloseActive` | src/no/ntnu/fp/net/co/ConnectionImpl.java:264-296 | active close returns in CLOSED, blocks only in its own state, FIN_WAIT_1 or FIN_WAIT_2, and records at most the first reply or an intact FIN as second reply |
| `Teardown.Close` | src/no/ntnu/fp/net/co/ConnectionImpl.java:233-305 | `close` never raises and always returns in CLOSED; with no accepted packet it only sets CLOSED; addresses and ports never change |
| `Teardown.CloseAlwaysCloses` | src/no/ntnu/fp/net/co/ConnectionImpl.java:298-304 | once every step has an outcome, `close` has returned in CLOSED, whatever those outcomes were |
| `Teardown.CloseUnusedChildSendsNothing` | src/no/ntnu/fp/net/co/ConnectionImpl.java:234-235 | closing an established connection that has accepted nothing uses no channel outcome at all and ends CLOSED |
| `Teardown.ActiveCloseRecordsPeerFin` | src/no/ntnu/fp/net/co/ConnectionImpl.java:271-289 | an active close ends remembering a FIN only if the first reply was an intact ACK and the second the peer's intact FIN, numbered right after that ACK |

## Findings

| source | as written | input that shows it | evidently intended | confidence | as-written member | corrected member |
|---|---|---|---|---|---|---|
| src/no/ntnu/fp/net/co/ConnectionImpl.java:122-131 | `accept` enters LISTEN but keeps `lastValidPacketReceived` from the previous handshake, so the sequence check in `isValid` applies to the new peer's SYN | a listener whose last accepted ACK is numbered 100 receives an intact SYN numbered 5 from a new peer: it is refused, and `accept` raises with state CLOSED | a listener returned to CLOSED can accept a new peer, whose SYN starts a new sequence | medium, not executed (the base class, not part of this model, could clear the field) | `Handshake.AcceptReusedListenerRefusesSyn` | `Handshake.AcceptFresh` |
| src/no/ntnu/fp/net/co/ConnectionImpl.java:86-95 | `connect` on a connection used before keeps `lastValidPacketReceived`, so the sequence check applies to the new peer's SYN_ACK | a connection whose last accepted packet is numbered 100 connects again and receives an intact SYN_ACK numbered 5: it is refused, and `connect` raises with state CLOSED | a closed connection can connect to a new peer, whose SYN_ACK starts a new sequence | medium, not executed (the base class, not part of this model, could clear the field) | `Handshake.ConnectReusedRefusesSynAck` | `Handshake.ConnectFresh` |

## Left out

- Network I/O: `simplySendPacket`, `sendAck`, `receiveAck`, `receivePacket`,
  `sendDataPacketWithRetransmit`, `constructInternalPacket` and
  `constructDataPacket` belong to the base class and the socket layer. Only
  their outcomes are modelled; their retry and timeout internals are not.
- Retransmission timing and any serialisation of concurrent sends live
  outside `ConnectionImpl`, so they are not modelled.
- Checksum arithmetic: done by the datagram class. Only stored versus
  recomputed equality is modelled.
- `Thread.sleep` pauses (lines 99, 239, 245, 292) and their possible
  interruption are left out; they are timing workarounds.
- `System.out` logging and stack traces are left out.
- `getIPv4Address` (host lookup, lines 56-63) is left out. It becomes the
  `hostAddress` parameter of `NewConnection`.
- Ports and the counter steps of the outgoing-packet helpers are plain
  integers: the connection does no arithmetic on ports, and the helpers'
  steps are taken as given before they are wrapped into the counter.
- The port table is modelled as a set of ports. Its thread-safe sharing
  between connections (line 40) is not modelled.
- Base-class defaults are assumed, since that class is not part of this
  model: a new connection is CLOSED with no accepted packet, and its initial
  sequence number is a parameter. Its remote address and port start as `""`
  and 0, standing for Java's null and 0.
- `receive` returns `toString()` of the packet. The model takes it to be
  the payload.
- The `nextSequenceNo--` in the `receive` loop (line 218) is modelled.
  Nothing is claimed about sequence counters beyond what `isValid` reads,
  because the helpers around it move the counter in ways not shown.
- Handshake symmetry between two endpoints is not stated. The helpers that
  build outgoing packets are not shown, so the model cannot relate one
  side's packets to the other's.
- Transfer.Receive: does not state the ack-number condition for the
  delivered packet, because the final acknowledgement moves the counter
  after validation; the packet did pass it at the time.
- Transfer.ReceiveDeliversFirstInSequence: covers only streams without ACK
  packets and with every acknowledgement sent. For an ACK, whether it passes
  depends on the counter, which the unseen helpers move between attempts.
- Transfer.ReceiveLoop: same omission as `Transfer.Receive`, for the same
  reason.
