// The CVNP handler records and what decides, for each kind, which frames it
// takes, which registrations replace it and when it times out
// (src/cvnp/cvnp.h:18-31, 50-107). Function pointers are modelled as opaque
// callback tokens; running a callback is recorded as an Event.
module Handlers {
  import opened CanBus
  import opened CompliantIds
  import opened Pools

  /** A 31-bit timeout field, in ms. */
  type uint31 = t: int | 0 <= t < 0x8000_0000

  /** Identifies a function pointer supplied by the application. */
  type Callback = nat

  datatype Option<T> = None | Some(value: T)

  /** Number of data definitions, hence of slots in the DDEF table. */
  const NUM_DDEF: nat := 128

  // The standard data definitions.
  const DDEF_ERROR: bv7 := 0
  const DDEF_DEVINFO: bv7 := 1
  const DDEF_DEVNAME: bv7 := 2
  const DDEF_DEVVER: bv7 := 3
  const DDEF_RESET: bv7 := 4

  /** The data a reset frame must carry. */
  const RESET_MAGIC: bv32 := 0x06D3BAAE

  /** tQueryHandler: waits for the response to one query. */
  datatype QueryHandler = QueryHandler(
    valid: bool,
    timeToLive: uint31,     // 0: never times out
    id: CompliantId,        // the query that was sent
    submittedAt: Time,
    onFrame: Callback,      // pfnProcFrame
    onDeath: Callback)      // pfnOnDeath(wasKilled)

  /** tBroadHandler: listens to one broadcast, with a watchdog timeout. */
  datatype BroadHandler = BroadHandler(
    valid: bool,
    id: CompliantId,        // only scls and ddef are looked at
    timeout: uint31,        // 0: no watchdog
    lastRun: Time,        // when a matching broadcast last arrived
    onFrame: Callback,      // pfnProcFrame
    onTimeout: Callback)    // pfnOnTimeout

  /** tNonCHandler: takes non-compliant frames with one raw identifier. */
  datatype NonCHandler = NonCHandler(
    valid: bool,
    timeout: uint31,        // 0: never killed by time
    id: CanId,
    lastRun: Time,
    onFrame: Callback,      // pfnProcFrame
    onDeath: Callback)      // pfnOnDeath(wasKilled)

  /** tQueryInfo: what cvnp_query is asked to send and how to wait for the answer. */
  datatype QueryInfo = QueryInfo(
    rcls: bv6,
    rinst: bv4,
    ddef: bv7,
    timeout: uint31,
    doesTimeOut: bool,
    onFrame: Callback,
    onDeath: Callback)

  datatype Table = QueryTable | BroadTable | NonCTable | DdefTable

  /** A callback run by the dispatcher, with the table slot it belongs to. */
  datatype Event =
    | Hit(table: Table, slot: nat, callback: Callback, frame: Frame)  // pfnProcFrame(frame)
    | Death(table: Table, slot: nat, callback: Callback, wasKilled: bool)  // pfnOnDeath(wasKilled)
    | Timeout(slot: nat, callback: Callback)  // a broadcast handler's pfnOnTimeout()

  const NO_ID := CompliantId(0, 0, 0, 0, 0, 0, 0)
  const FREE_QUERY := QueryHandler(false, 0, NO_ID, 0, 0, 0)
  const FREE_BROAD := BroadHandler(false, NO_ID, 0, 0, 0, 0)
  const FREE_NONC := NonCHandler(false, 0, 0, 0, 0, 0)

  // ---- Time ----

  /** The time from `since` to `now` as the 32-bit unsigned subtraction
      `now - since` computes it: it wraps around with the clock. */
  function Elapsed(now: Time, since: Time): (d: Time)
    ensures (since + d) % CLOCK_WRAP == now
    ensures now >= since ==> d == now - since
  {
    (now - since) % CLOCK_WRAP
  }

  /** A timeout of `timeout` ms started at `since` has run out at `now`. */
  predicate Expires(timeout: uint31, since: Time, now: Time)
  {
    timeout != 0 && Elapsed(now, since) >= timeout
  }

  /** The wrapped difference measures the real time elapsed, for any elapsed time
      below 2^32 ms: a timeout runs out exactly when the time elapsed since
      `since` reaches it, also when the clock wraps in between, and never when
      it is 0. */
  lemma ExpiresAfterElapsed(timeout: uint31, since: Time, elapsed: Time)
    ensures Expires(timeout, since, (since + elapsed) % CLOCK_WRAP) <==> timeout != 0 && elapsed >= timeout
  {
  }

  // ---- Query handlers ----

  /** Queries are the same handler when sent to the same class, instance and ddef. */
  function QueryKey(h: QueryHandler): (bv6, bv4, bv7)
  {
    (h.id.rcls, h.id.rinst, h.id.ddef)
  }

  function QueryLive(h: QueryHandler): bool { h.valid }

  function QueryIdle(h: QueryHandler, now: Time): nat { Elapsed(now, h.submittedAt) }

  predicate QueryExpires(h: QueryHandler, now: Time)
  {
    h.valid && Expires(h.timeToLive, h.submittedAt, now)
  }

  function FreeQuery(h: QueryHandler): QueryHandler { h.(valid := false) }

  function QueryTimedOut(slot: nat, h: QueryHandler): Event { Death(QueryTable, slot, h.onDeath, false) }

  /** The identifier cvnp_query sends: from this node to the target, point to point. */
  function QueryId(myClass: bv6, myInst: bv4, info: QueryInfo): CompliantId
  {
    CompliantId(0, 0, myClass, myInst, info.rcls, info.rinst, info.ddef)
  }

  /** The handler cvnp_query files for a query sent with identifier `id` at `now`. */
  function QueryHandlerFor(info: QueryInfo, id: CompliantId, now: Time): (h: QueryHandler)
    ensures h.valid && h.id == id && h.submittedAt == now
    ensures h.timeToLive == (if info.doesTimeOut then info.timeout else 0)
    ensures h.timeToLive == 0 <==> !info.doesTimeOut || info.timeout == 0
    ensures h.onFrame == info.onFrame && h.onDeath == info.onDeath
  {
    QueryHandler(true, if info.doesTimeOut then info.timeout else 0, id, now, info.onFrame, info.onDeath)
  }

  /** The frame cvnp_query sends: the encoded identifier and up to 8 payload bytes. */
  function QueryFrame(id: CompliantId, payload: seq<byte>): (f: Frame)
    ensures IdToStruct(f.id) == id
    ensures f.dlc == PayloadLength(payload) && f.data == PackPayload(payload)
  {
    RoundTrip(id);
    Frame(StructToId(id), true, false, PayloadLength(payload), PackPayload(payload))
  }

  /** A live query handler takes a point-to-point frame sent from the queried
      class and instance, about the queried ddef, to this node. */
  predicate AnswersQuery(h: QueryHandler, cid: CompliantId, myClass: bv6, myInst: bv4)
  {
    h.valid && cid.scls == h.id.rcls && cid.sinst == h.id.rinst && cid.ddef == h.id.ddef
    && cid.rcls == myClass && cid.rinst == myInst
  }

  /** The reply of the queried node, with sender and receiver swapped, answers the
      handler cvnp_query filed, once it has crossed the wire. */
  lemma ReplyAnswersQuery(myClass: bv6, myInst: bv4, info: QueryInfo, now: Time)
    ensures var q := QueryId(myClass, myInst, info);
            var reply := IdToStruct(StructToId(CompliantId(0, 0, q.rcls, q.rinst, q.scls, q.sinst, q.ddef)));
            reply.broad == 0 && reply.nonc == 0 &&
            AnswersQuery(QueryHandlerFor(info, q, now), reply, myClass, myInst)
  {
    var q := QueryId(myClass, myInst, info);
    RoundTrip(CompliantId(0, 0, q.rcls, q.rinst, q.scls, q.sinst, q.ddef));
  }

  /** With one live query per key, at most one query handler takes a frame. */
  lemma AtMostOneAnswer(s: seq<QueryHandler>, cid: CompliantId, myClass: bv6, myInst: bv4, i: nat, j: nat)
    requires KeysUnique(s, QueryKey, QueryLive)
    requires i < |s| && j < |s|
    requires AnswersQuery(s[i], cid, myClass, myInst) && AnswersQuery(s[j], cid, myClass, myInst)
    ensures i == j
  {
  }

  // ---- Broadcast handlers ----

  /** Broadcast handlers are the same handler when they listen to the same class and ddef. */
  function BroadKey(h: BroadHandler): (bv6, bv7) { (h.id.scls, h.id.ddef) }

  function BroadLive(h: BroadHandler): bool { h.valid }

  function BroadIdle(h: BroadHandler, now: Time): nat { Elapsed(now, h.lastRun) }

  predicate BroadExpires(h: BroadHandler, now: Time)
  {
    h.valid && Expires(h.timeout, h.lastRun, now)
  }

  function BroadTimedOut(slot: nat, h: BroadHandler): Event { Timeout(slot, h.onTimeout) }

  /** A live broadcast handler takes a broadcast from its class about its ddef. */
  predicate BroadMatches(h: BroadHandler, cid: CompliantId)
  {
    h.valid && h.id.scls == cid.scls && h.id.ddef == cid.ddef
  }

  /** Sender instance and receiver class and instance play no part in matching a broadcast. */
  lemma BroadMatchIgnoresAddressing(h: BroadHandler, cid: CompliantId, sinst: bv4, rcls: bv6, rinst: bv4)
    ensures BroadMatches(h, cid) <==> BroadMatches(h, cid.(sinst := sinst, rcls := rcls, rinst := rinst))
    ensures BroadMatches(h, cid) <==> h.valid && BroadKey(h) == (cid.scls, cid.ddef)
  {
  }

  // ---- Non-compliant handlers ----

  /** Non-compliant handlers are the same handler when they take the same raw id. */
  function NonCKey(h: NonCHandler): CanId { h.id }

  function NonCLive(h: NonCHandler): bool { h.valid }

  function NonCIdle(h: NonCHandler, now: Time): nat { Elapsed(now, h.lastRun) }

  predicate NonCExpires(h: NonCHandler, now: Time)
  {
    h.valid && Expires(h.timeout, h.lastRun, now)
  }

  function FreeNonC(h: NonCHandler): NonCHandler { h.(valid := false) }

  function NonCTimedOut(slot: nat, h: NonCHandler): Event { Death(NonCTable, slot, h.onDeath, false) }

  predicate NonCMatches(h: NonCHandler, id: CanId)
  {
    h.valid && h.id == id
  }

  // ---- Malformed frames ----

  /** A frame with identifier bits set above the 29 the fields occupy, or with
      a declared length beyond the 8 data bytes it carries. */
  predicate IsMalformed(f: Frame)
  {
    f.id & ID_BITS != f.id || f.dlc > 8
  }

  /** Every frame the node itself builds for a query is well formed. */
  lemma QueryFrameWellFormed(id: CompliantId, payload: seq<byte>)
    ensures !IsMalformed(QueryFrame(id, payload))
  {
    RoundTrip(id);
  }

  // ---- Reset frames ----

  /** A reset frame carries exactly the 32-bit magic value (little-endian, 4 bytes). */
  predicate IsResetFrame(f: Frame)
  {
    f.dlc == 4 && LoadLe32(f.data) == RESET_MAGIC
  }

  /** The only payload that passes the reset gate. */
  lemma ResetFrameBytes(f: Frame)
    ensures IsResetFrame(f) <==> f.dlc == 4 && f.data[..4] == [0xAE, 0xBA, 0xD3, 0x06]
  {
    if f.data[..4] == [0xAE, 0xBA, 0xD3, 0x06] {
      assert f.data[0] == 0xAE && f.data[1] == 0xBA && f.data[2] == 0xD3 && f.data[3] == 0x06;
    }
  }

  // ---- The tick ----

  /** Neither a tick nor anything it calls touches a handler whose timeout is 0. */
  lemma ZeroTimeoutNeverFires(qs: seq<QueryHandler>, bs: seq<BroadHandler>, ns: seq<NonCHandler>, now: Time)
    ensures forall i :: 0 <= i < |qs| && qs[i].timeToLive == 0 ==>
              Sweep(qs, now, QueryExpires, FreeQuery)[i] == qs[i] &&
              forall e :: e in TickEvents(qs, now, QueryExpires, QueryTimedOut) ==> e.slot != i
    ensures forall i :: 0 <= i < |bs| && bs[i].timeout == 0 ==>
              forall e :: e in TickEvents(bs, now, BroadExpires, BroadTimedOut) ==> e.slot != i
    ensures forall i :: 0 <= i < |ns| && ns[i].timeout == 0 ==>
              Sweep(ns, now, NonCExpires, FreeNonC)[i] == ns[i] &&
              forall e :: e in TickEvents(ns, now, NonCExpires, NonCTimedOut) ==> e.slot != i
  {
    TickEventsExact(qs, now, QueryExpires, QueryTimedOut);
    TickEventsExact(bs, now, BroadExpires, BroadTimedOut);
    TickEventsExact(ns, now, NonCExpires, NonCTimedOut);
  }

  /** A query whose time to live has run out at `now` dies with wasKilled = false
      in that tick, its slot is freed, and no later tick reports it again. */
  lemma QueryTimesOutOnce(qs: seq<QueryHandler>, now: Time, later: Time, i: nat)
    requires i < |qs| && QueryExpires(qs[i], now)
    ensures QueryTimedOut(i, qs[i]) in TickEvents(qs, now, QueryExpires, QueryTimedOut)
    ensures QueryTimedOut(i, qs[i]).wasKilled == false
    ensures !Sweep(qs, now, QueryExpires, FreeQuery)[i].valid
    ensures forall e :: e in TickEvents(Sweep(qs, now, QueryExpires, FreeQuery), later, QueryExpires, QueryTimedOut) ==>
              e.slot != i
  {
    TickEventsExact(qs, now, QueryExpires, QueryTimedOut);
    TickEventsExact(Sweep(qs, now, QueryExpires, FreeQuery), later, QueryExpires, QueryTimedOut);
  }

  /** A broadcast watchdog keeps firing on every tick until a matching frame
      moves lastRun: the tick itself leaves the handler as it is. */
  lemma BroadWatchdogRefires(bs: seq<BroadHandler>, now: Time, later: Time, i: nat)
    requires i < |bs| && BroadExpires(bs[i], now)
    requires Elapsed(later, bs[i].lastRun) >= Elapsed(now, bs[i].lastRun)
    ensures BroadTimedOut(i, bs[i]) in TickEvents(bs, now, BroadExpires, BroadTimedOut)
    ensures BroadTimedOut(i, bs[i]) in TickEvents(bs, later, BroadExpires, BroadTimedOut)
  {
    TickEventsExact(bs, now, BroadExpires, BroadTimedOut);
    TickEventsExact(bs, later, BroadExpires, BroadTimedOut);
  }
}
