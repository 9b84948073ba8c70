// The CVNP dispatcher of one node (src/cvnp/cvnp.h:110-163): its handler
// tables, registration, cvnp_query, cvnp_procFrame and cvnp_tick. The tables
// are arrays updated in place. The callbacks the dispatcher runs are appended
// to `events`, and the frames it hands to the HAL to `sent`; the current time
// is a parameter of every operation that reads the HAL clock.
module Cvnp {
  import opened CanBus
  import opened CompliantIds
  import opened Pools
  import opened Handlers

  /** Where cvnp_procFrame delivered a frame. */
  datatype Route =
    | ToBroad(slot: nat)    // a broadcast handler
    | ToNonC(slot: nat)     // a non-compliant handler
    | ToQuery(slot: nat)    // a pending query, as its response
    | ToDdef(ddef: bv7)     // the DDEF handler of the frame's ddef
    | Dropped               // nobody

  class Node {
    /** This node's class and instance, fixed by cvnp_start. */
    var myClass: bv6
    var myInst: bv4

    /** The query, broadcast and non-compliant handler pools, and the DDEF table. */
    const queries: array<QueryHandler>
    const broads: array<BroadHandler>
    const noncs: array<NonCHandler>
    const ddefs: array<Option<Callback>>

    /** The callbacks run so far, in order. */
    var events: seq<Event>
    /** The frames handed to the HAL for sending, in order. */
    var sent: seq<Frame>

    /** Fixed, non-empty pools, one DDEF slot per data definition, and at most
        one live handler per effective identifier in each pool. */
    ghost predicate Valid()
      reads this, queries, broads, noncs
    {
      queries.Length > 0 && broads.Length > 0 && noncs.Length > 0 && ddefs.Length == NUM_DDEF
      && KeysUnique(queries[..], QueryKey, QueryLive)
      && KeysUnique(broads[..], BroadKey, BroadLive)
      && KeysUnique(noncs[..], NonCKey, NonCLive)
    }

    /** The tables as they stand at boot: every pool slot free, no DDEF handler. */
    constructor (queryCapacity: nat, broadCapacity: nat, noncCapacity: nat)
      requires queryCapacity > 0 && broadCapacity > 0 && noncCapacity > 0
      ensures Valid() && fresh(queries) && fresh(broads) && fresh(noncs) && fresh(ddefs)
      ensures queries.Length == queryCapacity && broads.Length == broadCapacity && noncs.Length == noncCapacity
      ensures forall i :: 0 <= i < queries.Length ==> !queries[i].valid
      ensures forall i :: 0 <= i < broads.Length ==> !broads[i].valid
      ensures forall i :: 0 <= i < noncs.Length ==> !noncs[i].valid
      ensures forall d :: 0 <= d < ddefs.Length ==> ddefs[d] == None
      ensures events == [] && sent == []
    {
      myClass, myInst := 0, 0;
      queries := new QueryHandler[queryCapacity](_ => FREE_QUERY);
      broads := new BroadHandler[broadCapacity](_ => FREE_BROAD);
      noncs := new NonCHandler[noncCapacity](_ => FREE_NONC);
      ddefs := new Option<Callback>[NUM_DDEF](_ => None);
      events, sent := [], [];
    }

    /** cvnp_start: fixes this node's class and instance. */
    method Start(cls: bv6, inst: bv4)
      requires Valid()
      modifies this`myClass, this`myInst
      ensures Valid()
      ensures myClass == cls && myInst == inst
    {
      myClass, myInst := cls, inst;
    }

    /** cvnp_registerDdefHandler: a ddef within the table gets the new handler (or
        none), every other slot keeps its own; a ddef beyond the table changes nothing. */
    method RegisterDdefHandler(ddef: uint32, handler: Option<Callback>)
      requires Valid()
      modifies ddefs
      ensures Valid()
      ensures ddef < NUM_DDEF ==> ddefs[..] == old(ddefs[..])[ddef := handler]
      ensures ddef >= NUM_DDEF ==> ddefs[..] == old(ddefs[..])
    {
      if ddef < NUM_DDEF {
        ddefs[ddef] := handler;
      }
    }

    /** cvnp_registerBroadHandler: the handler goes live, stamped with `now`, in
        the slot of the live handler for the same class and ddef if there is
        one, else in a free slot, else in the slot idle longest. A handler it
        replaces gets its pfnOnTimeout run. Afterwards it is the only live
        handler for its class and ddef. */
    method RegisterBroadHandler(h: BroadHandler, now: Time) returns (ghost slot: nat)
      requires Valid()
      modifies broads, this`events
      ensures Valid()
      ensures IsSlotFor(old(broads[..]), slot, BroadKey(h), BroadKey, BroadLive, BroadIdle, now)
      ensures broads[..] == old(broads[..])[slot := h.(valid := true, lastRun := now)]
      ensures events == old(events) + if old(broads[slot]).valid then [Timeout(slot, old(broads[slot]).onTimeout)] else []
      ensures forall i :: 0 <= i < broads.Length && i != slot ==> !(broads[i].valid && BroadKey(broads[i]) == BroadKey(h))
    {
      var entry := h.(valid := true, lastRun := now);
      var free := FindSlot(broads, BroadKey(h), BroadKey, BroadLive, BroadIdle, now);
      PlaceKeepsKeysUnique(broads[..], free, entry, BroadKey(h), BroadKey, BroadLive, BroadIdle, now);
      slot := free;
      var victim := broads[free];
      if victim.valid {
        events := events + [Timeout(free, victim.onTimeout)];
      }
      broads[free] := entry;
    }

    /** cvnp_registerNonCHandler: as for broadcast handlers, keyed by the raw id.
        A handler it replaces dies with wasKilled = true. */
    method RegisterNonCHandler(h: NonCHandler, now: Time) returns (ghost slot: nat)
      requires Valid()
      modifies noncs, this`events
      ensures Valid()
      ensures IsSlotFor(old(noncs[..]), slot, NonCKey(h), NonCKey, NonCLive, NonCIdle, now)
      ensures noncs[..] == old(noncs[..])[slot := h.(valid := true, lastRun := now)]
      ensures events == old(events) + if old(noncs[slot]).valid then [Death(NonCTable, slot, old(noncs[slot]).onDeath, true)] else []
      ensures forall i :: 0 <= i < noncs.Length && i != slot ==> !(noncs[i].valid && noncs[i].id == h.id)
    {
      var entry := h.(valid := true, lastRun := now);
      var free := FindSlot(noncs, NonCKey(h), NonCKey, NonCLive, NonCIdle, now);
      PlaceKeepsKeysUnique(noncs[..], free, entry, NonCKey(h), NonCKey, NonCLive, NonCIdle, now);
      slot := free;
      var victim := noncs[free];
      if victim.valid {
        events := events + [Death(NonCTable, free, victim.onDeath, true)];
      }
      noncs[free] := entry;
    }

    /** cvnp_query: files a handler for the response, keyed by the target class,
        instance and ddef (a pending query for the same target, or the query idle
        longest when the pool is full, dies with wasKilled = true), then sends the
        query frame from this node to the target. */
    method Query(info: QueryInfo, payload: seq<byte>, now: Time) returns (ghost slot: nat)
      requires Valid()
      modifies queries, this`events, this`sent
      ensures Valid()
      ensures IsSlotFor(old(queries[..]), slot, (info.rcls, info.rinst, info.ddef), QueryKey, QueryLive, QueryIdle, now)
      ensures queries[..] == old(queries[..])[slot := QueryHandlerFor(info, QueryId(myClass, myInst, info), now)]
      ensures events == old(events) + if old(queries[slot]).valid then [Death(QueryTable, slot, old(queries[slot]).onDeath, true)] else []
      ensures forall i :: 0 <= i < queries.Length && i != slot ==>
                !(queries[i].valid && QueryKey(queries[i]) == (info.rcls, info.rinst, info.ddef))
      ensures sent == old(sent) + [QueryFrame(QueryId(myClass, myInst, info), payload)]
    {
      var id := QueryId(myClass, myInst, info);
      var entry := QueryHandlerFor(info, id, now);
      var free := FindSlot(queries, QueryKey(entry), QueryKey, QueryLive, QueryIdle, now);
      PlaceKeepsKeysUnique(queries[..], free, entry, QueryKey(entry), QueryKey, QueryLive, QueryIdle, now);
      slot := free;
      var victim := queries[free];
      if victim.valid {
        events := events + [Death(QueryTable, free, victim.onDeath, true)];
      }
      queries[free] := entry;
      sent := sent + [QueryFrame(id, payload)];
    }

    /** A broadcast goes to the live handler for its sender class and ddef,
        which is stamped with `now`, or nowhere. */
    method ProcBroadcast(f: Frame, now: Time) returns (ghost route: Route)
      requires Valid() && IdToStruct(f.id).broad == 1
      modifies broads, this`events
      ensures Valid()
      ensures route.ToBroad? || route.Dropped?
      ensures route.ToBroad? ==>
                route.slot < broads.Length && BroadMatches(old(broads[route.slot]), IdToStruct(f.id)) &&
                broads[..] == old(broads[..])[route.slot := old(broads[route.slot]).(lastRun := now)] &&
                events == old(events) + [Hit(BroadTable, route.slot, old(broads[route.slot]).onFrame, f)]
      ensures route.Dropped? ==>
                broads[..] == old(broads[..]) && events == old(events) &&
                forall i :: 0 <= i < broads.Length ==> !BroadMatches(broads[i], IdToStruct(f.id))
    {
      var cid := IdToStruct(f.id);
      var i := FindFirst(broads, h => BroadMatches(h, cid));
      if i < broads.Length {
        var h := broads[i];
        events := events + [Hit(BroadTable, i, h.onFrame, f)];
        broads[i] := h.(lastRun := now);
        route := ToBroad(i);
        assert broads[..] == old(broads[..])[i := h.(lastRun := now)];
      } else {
        route := Dropped;
      }
    }

    /** A non-compliant frame goes to the live handler for its raw id, which is
        stamped with `now`, or nowhere. */
    method ProcNonCompliant(f: Frame, now: Time) returns (ghost route: Route)
      requires Valid()
      modifies noncs, this`events
      ensures Valid()
      ensures route.ToNonC? || route.Dropped?
      ensures route.ToNonC? ==>
                route.slot < noncs.Length && NonCMatches(old(noncs[route.slot]), f.id) &&
                noncs[..] == old(noncs[..])[route.slot := old(noncs[route.slot]).(lastRun := now)] &&
                events == old(events) + [Hit(NonCTable, route.slot, old(noncs[route.slot]).onFrame, f)]
      ensures route.Dropped? ==>
                noncs[..] == old(noncs[..]) && events == old(events) &&
                forall i :: 0 <= i < noncs.Length ==> !NonCMatches(noncs[i], f.id)
    {
      var i := FindFirst(noncs, h => NonCMatches(h, f.id));
      if i < noncs.Length {
        var h := noncs[i];
        events := events + [Hit(NonCTable, i, h.onFrame, f)];
        noncs[i] := h.(lastRun := now);
        route := ToNonC(i);
        assert noncs[..] == old(noncs[..])[i := h.(lastRun := now)];
      } else {
        route := Dropped;
      }
    }

    /** A point-to-point frame goes to the pending query it answers, which is
        freed (so no handler takes the same frame again), or else, when it is
        addressed to this node, to the DDEF handler of its ddef, where a reset
        frame passes only with the magic payload; or nowhere. */
    method ProcPointToPoint(f: Frame) returns (ghost route: Route)
      requires Valid()
      modifies queries, this`events
      ensures Valid()
      ensures route.ToQuery? || route.ToDdef? || route.Dropped?
      ensures route.ToQuery? ==>
                route.slot < queries.Length && AnswersQuery(old(queries[route.slot]), IdToStruct(f.id), myClass, myInst) &&
                queries[..] == old(queries[..])[route.slot := old(queries[route.slot]).(valid := false)] &&
                events == old(events) + [Hit(QueryTable, route.slot, old(queries[route.slot]).onFrame, f)]
      ensures !route.ToQuery? ==> queries[..] == old(queries[..])
      ensures forall i :: 0 <= i < queries.Length ==> !AnswersQuery(queries[i], IdToStruct(f.id), myClass, myInst)
      ensures route.ToDdef? ==>
                route.ddef == IdToStruct(f.id).ddef &&
                IdToStruct(f.id).rcls == myClass && IdToStruct(f.id).rinst == myInst &&
                ddefs[route.ddef as int].Some? &&
                (route.ddef == DDEF_RESET ==> IsResetFrame(f)) &&
                events == old(events) + [Hit(DdefTable, route.ddef as int, ddefs[route.ddef as int].value, f)]
      ensures route.Dropped? ==>
                events == old(events) &&
                (IdToStruct(f.id).rcls != myClass || IdToStruct(f.id).rinst != myInst ||
                 ddefs[IdToStruct(f.id).ddef as int].None? ||
                 (IdToStruct(f.id).ddef == DDEF_RESET && !IsResetFrame(f)))
    {
      var cid := IdToStruct(f.id);
      var cls, inst := myClass, myInst;
      var i := FindFirst(queries, h => AnswersQuery(h, cid, cls, inst));
      if i < queries.Length {
        var h := queries[i];
        forall j | 0 <= j < queries.Length && AnswersQuery(queries[j], cid, cls, inst)
          ensures j == i
        {
          AtMostOneAnswer(queries[..], cid, cls, inst, i, j);
        }
        events := events + [Hit(QueryTable, i, h.onFrame, f)];
        queries[i] := h.(valid := false);
        route := ToQuery(i);
        assert queries[..] == old(queries[..])[i := h.(valid := false)];
      } else if cid.rcls == cls && cid.rinst == inst && (cid.ddef != DDEF_RESET || IsResetFrame(f))
                && ddefs[cid.ddef as int].Some? {
        events := events + [Hit(DdefTable, cid.ddef as int, ddefs[cid.ddef as int].value, f)];
        route := ToDdef(cid.ddef);
      } else {
        route := Dropped;
      }
    }

    /** cvnp_procFrame: drops a malformed frame, and delivers any other to at
        most one handler, chosen by the broadcast and non-compliant flags of its
        decoded identifier. */
    method ProcFrame(f: Frame, now: Time) returns (ghost route: Route)
      requires Valid()
      modifies queries, broads, noncs, this`events
      ensures Valid()
      // Malformed frames reach nobody.
      ensures IsMalformed(f) ==> route.Dropped?
      // Classification by the flags of the decoded identifier.
      ensures route.ToBroad? ==> IdToStruct(f.id).broad == 1
      ensures route.ToNonC? ==> IdToStruct(f.id).broad == 0 && IdToStruct(f.id).nonc == 1
      ensures route.ToQuery? || route.ToDdef? ==> IdToStruct(f.id).broad == 0 && IdToStruct(f.id).nonc == 0
      // Broadcasts.
      ensures route.ToBroad? ==>
                route.slot < broads.Length && BroadMatches(old(broads[route.slot]), IdToStruct(f.id)) &&
                broads[..] == old(broads[..])[route.slot := old(broads[route.slot]).(lastRun := now)] &&
                events == old(events) + [Hit(BroadTable, route.slot, old(broads[route.slot]).onFrame, f)]
      ensures !route.ToBroad? ==> broads[..] == old(broads[..])
      ensures route.Dropped? && !IsMalformed(f) && IdToStruct(f.id).broad == 1 ==>
                forall i :: 0 <= i < broads.Length ==> !BroadMatches(broads[i], IdToStruct(f.id))
      // Non-compliant frames.
      ensures route.ToNonC? ==>
                route.slot < noncs.Length && NonCMatches(old(noncs[route.slot]), f.id) &&
                noncs[..] == old(noncs[..])[route.slot := old(noncs[route.slot]).(lastRun := now)] &&
                events == old(events) + [Hit(NonCTable, route.slot, old(noncs[route.slot]).onFrame, f)]
      ensures !route.ToNonC? ==> noncs[..] == old(noncs[..])
      ensures route.Dropped? && !IsMalformed(f) && IdToStruct(f.id).broad == 0 && IdToStruct(f.id).nonc == 1 ==>
                forall i :: 0 <= i < noncs.Length ==> !NonCMatches(noncs[i], f.id)
      // Query responses: one shot, no handler takes the same response again.
      ensures route.ToQuery? ==>
                route.slot < queries.Length && AnswersQuery(old(queries[route.slot]), IdToStruct(f.id), myClass, myInst) &&
                queries[..] == old(queries[..])[route.slot := old(queries[route.slot]).(valid := false)] &&
                events == old(events) + [Hit(QueryTable, route.slot, old(queries[route.slot]).onFrame, f)]
      ensures !route.ToQuery? ==> queries[..] == old(queries[..])
      ensures !IsMalformed(f) && IdToStruct(f.id).broad == 0 && IdToStruct(f.id).nonc == 0 ==>
                forall i :: 0 <= i < queries.Length ==> !AnswersQuery(queries[i], IdToStruct(f.id), myClass, myInst)
      // DDEF handlers, behind the reset gate.
      ensures route.ToDdef? ==>
                route.ddef == IdToStruct(f.id).ddef &&
                IdToStruct(f.id).rcls == myClass && IdToStruct(f.id).rinst == myInst &&
                ddefs[route.ddef as int].Some? &&
                (route.ddef == DDEF_RESET ==> IsResetFrame(f)) &&
                events == old(events) + [Hit(DdefTable, route.ddef as int, ddefs[route.ddef as int].value, f)]
      ensures route.Dropped? && !IsMalformed(f) && IdToStruct(f.id).broad == 0 && IdToStruct(f.id).nonc == 0 ==>
                IdToStruct(f.id).rcls != myClass || IdToStruct(f.id).rinst != myInst ||
                ddefs[IdToStruct(f.id).ddef as int].None? ||
                (IdToStruct(f.id).ddef == DDEF_RESET && !IsResetFrame(f))
      ensures IdToStruct(f.id).ddef == DDEF_RESET && !IsResetFrame(f) ==> !route.ToDdef?
      ensures route.Dropped? ==> events == old(events)
    {
      var cid := IdToStruct(f.id);
      if IsMalformed(f) {
        route := Dropped;
      } else if cid.broad == 1 {
        route := ProcBroadcast(f, now);
      } else if cid.nonc == 1 {
        route := ProcNonCompliant(f, now);
      } else {
        route := ProcPointToPoint(f);
      }
    }

    /** cvnp_tick: runs out the timeouts. A query or non-compliant handler whose
        timeout has run out is freed and dies with wasKilled = false; a broadcast
        handler whose watchdog has run out gets its pfnOnTimeout run and stays
        live. Handlers with timeout 0 are never touched. */
    method Tick(now: Time)
      requires Valid()
      modifies queries, noncs, this`events
      ensures Valid()
      ensures queries[..] == Sweep(old(queries[..]), now, QueryExpires, FreeQuery)
      ensures noncs[..] == Sweep(old(noncs[..]), now, NonCExpires, FreeNonC)
      ensures events == old(events)
                        + TickEvents(old(queries[..]), now, QueryExpires, QueryTimedOut)
                        + TickEvents(broads[..], now, BroadExpires, BroadTimedOut)
                        + TickEvents(old(noncs[..]), now, NonCExpires, NonCTimedOut)
    {
      SweepKeepsKeysUnique(queries[..], now, QueryExpires, FreeQuery, QueryKey, QueryLive);
      SweepKeepsKeysUnique(noncs[..], now, NonCExpires, FreeNonC, NonCKey, NonCLive);
      var fromQueries := SweepTable(queries, now, QueryExpires, FreeQuery, QueryTimedOut);
      var fromBroads := CollectTimeouts(broads, now, BroadExpires, BroadTimedOut);
      var fromNoncs := SweepTable(noncs, now, NonCExpires, FreeNonC, NonCTimedOut);
      events := events + fromQueries + fromBroads + fromNoncs;
    }
  }
}
