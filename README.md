# CVNP dispatcher, modelled in Dafny

CVNP is a small protocol on a 29-bit extended-identifier CAN bus. Every node has a
class (6 bits) and an instance (4 bits). A frame identifier packs seven fields:
broadcast flag, non-compliant flag, sender class and instance, receiver class and
instance, and a 7-bit data definition ("ddef").

This project models the dispatcher of one node (`src/cvnp/cvnp.h`):

- the identifier codec `cvnp_idToStruct` / `cvnp_structToId`
  (`compliant_id.dfy`, module `CompliantIds`);
- the CAN frame of the hardware access layer (`can_bus.dfy`, module `CanBus`);
- the three handler records, what each one matches, its key and its timeout, and
  the reset gate (`handlers.dfy`, module `Handlers`);
- the pool scans shared by all three handler tables: choosing a slot for a
  registration and sweeping out timeouts (`pools.dfy`, module `Pools`);
- the node itself, `class Node` (`cvnp.dfy`, module `Cvnp`). It holds the query,
  broadcast and non-compliant handler pools and the 128-entry DDEF table as
  arrays updated in place. Its methods are `cvnp_start`, the three
  `cvnp_register…Handler` functions, `cvnp_query`, `cvnp_procFrame` and
  `cvnp_tick`.

Callbacks are opaque tokens (`Callback`). Running one appends an `Event` to
`Node.events`: a hit, a death with its `wasKilled` flag, or a broadcast timeout.
Frames handed to the HAL are appended to `Node.sent`. The HAL clock is the `now`
parameter. Elapsed time is the 32-bit unsigned difference `now - since`, written
out as `(now - since) % 2^32`.

`scenarios.dfy` holds five client scenarios, checked by the verifier against
the `Node` contracts alone:
- an answered query;
- malformed copies of the answer, which are dropped;
- an unanswered query;
- a query killed by a second query to the same target;
- the reset gate.

The header leaves several choices open. The model makes these:

- Bit layout of the identifier: ddef bits 0-6, rinst 7-10, rcls 11-16,
  sinst 17-20, scls 21-26, nonc 27, broad 28. Only the round trip and the 29-bit
  bound are proved, not positions.
- Eviction when a pool is full: the entry idle longest is evicted (largest
  `now - timestamp`; the first one on a tie). A query's timestamp is
  `submittedAt`; a handler's is `lastRun`.
- A replaced or evicted query or non-compliant handler dies with
  `wasKilled = true`. A replaced broadcast handler gets its `pfnOnTimeout` run,
  per the comment at `src/cvnp/cvnp.h:91`.
- Non-compliant handlers whose timeout runs out are freed and die with
  `wasKilled = false`. This follows the field comment at `src/cvnp/cvnp.h:55`
  ("before it is killed") and the `pfnOnDeath(bool wasKilled)` callback.
  Keeping them live like broadcast handlers would be the other reading; the
  model follows the code.
- A frame is malformed (`IsMalformed`) when a reserved identifier bit (29-31)
  is set or its dlc declares more than the 8 data bytes a frame carries.
  `cvnp_procFrame` drops it without running any callback.
- A frame counts as non-compliant when its decoded `nonc` flag is set and its
  `broad` flag is clear, which with this layout means bit 27 set and bit 28
  clear. Only such frames are looked up in the non-compliant table, by their
  full raw id, so a handler registered for a raw id without that bit pattern
  (such as 0x123) is accepted but never hit.
- A broadcast watchdog fires on every tick once `now - lastRun >= timeout`.
  Only a matching frame moves `lastRun`, so it keeps firing until one arrives.
- A query answer is a point-to-point frame from the queried class and instance,
  about the queried ddef, addressed to this node. Matching frees the handler
  (one shot).
- A point-to-point frame that answers no query goes to the DDEF handler of its
  ddef, if the frame is addressed to this node. A ddef-4 (reset) frame passes
  only with `dlc == 4` and data bytes `AE BA D3 06`, which is the magic
  `0x06D3BAAE` read little-endian.
- `cvnp_query` sends at most 8 payload bytes, zero-padded, with dlc set to the
  byte count capped at 8. A query with `doesTimeOut == 0` gets time to live 0,
  meaning no timeout.

## Model

| member | source | states |
|---|---|---|
| CompliantIds.StructToId | src/cvnp/cvnp.h:150-153 | the encoded identifier uses only the 29 bits of an extended CAN id |
| CompliantIds.IdToStruct | src/cvnp/cvnp.h:144-147 | every 32-bit id decodes, and re-encoding the fields gives back its 29 used bits |
| CompliantIds.RoundTrip | src/cvnp/cvnp.h:144-153 | decoding an encoded identifier gives back all seven fields |
| CompliantIds.StructToIdInjective | src/cvnp/cvnp.h:150-153 | distinct field records never share a wire identifier |
| CompliantIds.IdToStructIgnoresHighBits | src/cvnp/cvnp.h:144-147 | two ids decode alike if and only if they agree on the 29 used bits |
| CanBus.LoadLe32 | src/cvnp/cvnp.h:28-31 | the 32-bit value read from the first four data bytes, each byte at its little-endian place |
| CanBus.PackPayload | src/cvnp/cvnp_hal.h:24-28 | the 8-byte frame data holds the first (at most 8) given bytes, zeros after |
| CanBus.PayloadLength | src/cvnp/cvnp_hal.h:18-22 | the dlc is the byte count, capped at 8 |
| Handlers.Elapsed | src/cvnp/cvnp.h:73 | the 32-bit unsigned difference: adding it to the start time gives `now` modulo 2^32, and it is the plain difference when the clock has not wrapped |
| Handlers.ExpiresAfterElapsed | src/cvnp/cvnp.h:71 | `Expires`, the test every tick applies: a timeout runs out exactly when the elapsed time reaches it, also across a clock wrap, and never when it is 0 |
| Handlers.QueryHandlerFor | src/cvnp/cvnp.h:99-107 | the filed handler is live, carries the query id, the submission time and the query's two callbacks; its time to live is the query's timeout when it times out and 0 otherwise, so it is 0 exactly when the query does not time out or its timeout is 0 |
| Handlers.QueryFrame | src/cvnp/cvnp.h:110-119 | the sent frame decodes to the query identifier (`QueryId`: point-to-point, from this node to the queried class, instance and ddef) and carries the packed payload and its length |
| Handlers.QueryFrameWellFormed | src/cvnp/cvnp.h:110-119 | the query frame the node sends is never one `IsMalformed` would drop |
| Handlers.ReplyAnswersQuery | src/cvnp/cvnp.h:63-76 | `AnswersQuery` (a live query takes a point-to-point frame from the queried class and instance, about the queried ddef, addressed to this node) accepts the queried node's reply, sender and receiver swapped, once it has crossed the wire as a point-to-point frame |
| Handlers.AtMostOneAnswer | src/cvnp/cvnp.h:63-68 | with one live query per target, at most one query handler takes a given frame |
| Handlers.BroadMatchIgnoresAddressing | src/cvnp/cvnp.h:87 | a broadcast handler matches on sender class and ddef only; the other address fields play no part |
| Handlers.ResetFrameBytes | src/cvnp/cvnp.h:26-31 | `IsResetFrame`, the reset gate: a frame passes it if and only if it carries exactly the four magic bytes and dlc 4 |
| Handlers.ZeroTimeoutNeverFires | src/cvnp/cvnp.h:55 | a tick neither frees nor runs a callback for any query, broadcast or non-compliant handler whose timeout is 0 |
| Handlers.QueryTimesOutOnce | src/cvnp/cvnp.h:63-75 | an expired query dies in that tick with wasKilled = false, its slot is freed, and no later tick reports it again |
| Handlers.BroadWatchdogRefires | src/cvnp/cvnp.h:88-91 | an expired broadcast watchdog fires on this tick and again on any later tick before a matching frame arrives |
| Pools.FindSlot | src/cvnp/cvnp.h:157-162 | the scan returns the live slot with the same effective id, else a free slot, else the slot idle longest |
| Pools.PlaceKeepsKeysUnique | src/cvnp/cvnp.h:157-160 | writing the handler into that slot keeps one live handler per effective id, and no other slot holds that id live |
| Pools.FindFirst | src/cvnp/cvnp.h:122-126 | the first table entry a frame matches, or none, and no earlier entry matches |
| Pools.Sweep | src/cvnp/cvnp.h:129-133 | the tick keeps the size of each table |
| Pools.TickEventsExact | src/cvnp/cvnp.h:129-133 | a tick runs a callback for every handler whose timeout has run out, and for no other |
| Pools.TickEventsQuiet | src/cvnp/cvnp.h:129-133 | a tick in which nothing has run out runs no callback |
| Pools.TickEventsSingle | src/cvnp/cvnp.h:129-133 | a tick in which exactly one handler has run out runs exactly its callback |
| Pools.SweepKeepsKeysUnique | src/cvnp/cvnp.h:129-133 | freeing timed-out handlers keeps one live handler per effective id |
| Pools.SweepTable | src/cvnp/cvnp.h:129-133 | the tick loop over a freeing table leaves the swept table and returns the tick's callbacks in slot order |
| Pools.CollectTimeouts | src/cvnp/cvnp.h:88-91 | the tick loop over the broadcast table returns the watchdog callbacks and changes nothing |
| Cvnp.Node.constructor | src/cvnp/cvnp.h:18-19 | the pools have the given capacities and are all free, the 128 DDEF slots are empty, and nothing has run or been sent |
| Cvnp.Node.Start | src/cvnp/cvnp.h:136-140 | fixes this node's class and instance |
| Cvnp.Node.RegisterDdefHandler | src/cvnp/cvnp.h:163 | sets the handler of a ddef below 128 and leaves the other 127 slots unchanged; changes nothing for a ddef beyond the table |
| Cvnp.Node.RegisterBroadHandler | src/cvnp/cvnp.h:157-161 | the handler goes live, stamped now, in the slot FindSlot specifies; the one it displaces gets its pfnOnTimeout run; afterwards it is the only live handler for its class and ddef |
| Cvnp.Node.RegisterNonCHandler | src/cvnp/cvnp.h:157-162 | the same, keyed by the raw id; the displaced handler dies with wasKilled = true |
| Cvnp.Node.Query | src/cvnp/cvnp.h:110-119 | files the response handler in the slot for the target (a displaced query dies with wasKilled = true) and sends the query frame from this node to the target |
| Cvnp.Node.ProcBroadcast | src/cvnp/cvnp.h:85-92 | a broadcast reaches the handler matching its sender class and ddef, whose lastRun becomes now, or is dropped when none matches |
| Cvnp.Node.ProcNonCompliant | src/cvnp/cvnp.h:50-60 | a non-compliant frame reaches the handler for its raw id, whose lastRun becomes now, or is dropped when none matches |
| Cvnp.Node.ProcPointToPoint | src/cvnp/cvnp.h:63-76 | a response reaches the one query it answers, which is freed; otherwise a frame addressed to this node reaches its ddef's handler behind the reset gate; otherwise it is dropped |
| Cvnp.Node.ProcFrame | src/cvnp/cvnp.h:122-126 | a malformed frame is dropped; any other goes to at most one handler, in the table its flags select; the other tables are unchanged; no query takes the same response twice; a reset frame without the magic never reaches the DDEF handler (a broadcast or a query response with ddef 4 is delivered like any other, since the magic gates only the reset) |
| Cvnp.Node.Tick | src/cvnp/cvnp.h:129-133 | expired queries and non-compliant handlers are freed; broadcast handlers are kept; the callbacks run are exactly those TickEvents lists, queries first, then broadcasts, then non-compliant handlers |

## Left out

- The HAL (`cvnpHal_init`, `cvnpHal_sendFrame`, the clock): sending appends to `Node.sent`, and the time is a parameter. `cvnpHal_sendFrame` returns nothing, so there is no send-failure path.
- Cvnp.Node.Start: the return code of `cvnp_start` and the HAL initialisation are not modelled; class and instance arrive already cut to 6 and 4 bits.
- Concurrency: `cvnp_procFrame` runs in the receive interrupt while `cvnp_tick` runs elsewhere. The model runs operations one at a time and does not model a callback that re-enters the dispatcher.
- Function pointers are tokens: what a callback does is not modelled, only that it runs and with which argument.
- Bit positions of the identifier: the header leaves them undefined; a layout is fixed, and only the properties that do not depend on it are stated.
- Eviction policy and the time base of the idle measure are a modelling choice; the header only says a handler can be "kicked from the buffer".
- Cvnp.Node.constructor: the pool capacities are constructor parameters, required to be positive. The header does not give them.
- Cvnp.Node.Query: a payload longer than 8 bytes is cut to 8; the header does not say what happens to one.
- Handlers.ResetFrameBytes: the byte order of the magic in the frame data (little-endian) is a modelling choice; the header gives only the 32-bit value.
- Frames whose `ide` or `rtr` bit is set are routed like any other; the header does not say whether the dispatcher checks them.
- `src/device/bms.h` and `fault.h` are applications of the protocol and are not part of this model.
