// Client scenarios, checked by the verifier against the contracts
// of Node alone (as a caller sees them), so that what the contracts promise is
// enough to tell the outcome of each.
module Scenarios {
  import opened CanBus
  import opened CompliantIds
  import opened Pools
  import opened Handlers
  import opened Cvnp

  const ZEROES: Payload := [0, 0, 0, 0, 0, 0, 0, 0]

  /** The query node 3/0 sends to node 5/1 about ddef 2, with a 500 ms timeout. */
  const ASK := QueryInfo(5, 1, 2, 500, true, 10, 11)

  /** Node 5/1's answer to it. */
  const ANSWER := CompliantId(0, 0, 5, 1, 3, 0, 2)

  /** Node 3/0 queries node 5/1 at t = 0 and the answer arrives at t = 50: it is
      delivered to the query's pfnProcFrame once and the handler is freed, so a
      second copy of the answer is not taken. */
  method AnsweredQuery()
  {
    var a := new Node(4, 1, 1);
    a.Start(3, 0);
    var slot := a.Query(ASK, [0x01], 0);
    assert a.events == [];
    assert a.sent == [QueryFrame(QueryId(3, 0, ASK), [0x01])];

    var reply := Frame(StructToId(ANSWER), true, false, 0, ZEROES);
    RoundTrip(ANSWER);
    ghost var before := a.queries[..];
    assert AnswersQuery(before[slot], ANSWER, 3, 0);
    var route := a.ProcFrame(reply, 50);
    assert route.ToQuery? by {
      assert !AnswersQuery(a.queries[..][slot], ANSWER, 3, 0);
    }
    AtMostOneAnswer(before, ANSWER, 3, 0, route.slot, slot);
    assert a.events == [Hit(QueryTable, slot, 10, reply)];

    var again := a.ProcFrame(reply, 60);
    assert !again.ToQuery?;

  }

  /** A copy of the answer with a reserved identifier bit set, or one declaring
      more than 8 data bytes, is dropped and the query stays pending. */
  method MalformedAnswerDropped()
  {
    var a := new Node(4, 1, 1);
    a.Start(3, 0);
    var slot := a.Query(ASK, [], 0);

    var dirty := Frame(StructToId(ANSWER) | 0x2000_0000, true, false, 0, ZEROES);
    var r1 := a.ProcFrame(dirty, 50);
    assert r1 == Dropped;

    var long := Frame(StructToId(ANSWER), true, false, 9, ZEROES);
    var r2 := a.ProcFrame(long, 60);
    assert r2 == Dropped;
    assert a.queries[slot].valid && a.events == [];
  }

  /** The same query is never answered: the tick at t = 500 reports its death
      with wasKilled = false, and the tick at t = 1000 runs nothing. */
  method UnansweredQuery()
  {
    var a := new Node(4, 1, 1);
    a.Start(3, 0);
    var slot := a.Query(ASK, [], 0);
    assert a.events == [];

    ghost var q := a.queries[..];
    assert QueryExpires(q[slot], 500);
    TickEventsSingle(q, slot, 500, QueryExpires, QueryTimedOut);
    TickEventsQuiet(a.broads[..], 500, BroadExpires, BroadTimedOut);
    TickEventsQuiet(a.noncs[..], 500, NonCExpires, NonCTimedOut);
    a.Tick(500);
    assert a.events == [Death(QueryTable, slot, 11, false)];

    assert forall i :: 0 <= i < a.queries.Length ==> !a.queries[..][i].valid;
    TickEventsQuiet(a.queries[..], 1000, QueryExpires, QueryTimedOut);
    TickEventsQuiet(a.broads[..], 1000, BroadExpires, BroadTimedOut);
    TickEventsQuiet(a.noncs[..], 1000, NonCExpires, NonCTimedOut);
    a.Tick(1000);
    assert a.events == [Death(QueryTable, slot, 11, false)];
  }

  /** A second query to the same target before the first has timed out kills the
      first (wasKilled = true) and takes its slot. */
  method KillOverridesTimeout()
  {
    var a := new Node(4, 1, 1);
    a.Start(3, 0);
    var first := a.Query(ASK, [], 0);
    ghost var q := a.queries[..];
    assert QueryLive(q[first]) && QueryKey(q[first]) == (5, 1, 2);
    assert HasLiveKey(q, (5 as bv6, 1 as bv4, 2 as bv7), QueryKey, QueryLive);
    var second := a.Query(ASK.(onFrame := 20, onDeath := 21), [], 100);
    assert second == first;
    assert a.events == [Death(QueryTable, first, 11, true)];
  }

  /** A reset frame reaches the DDEF reset handler only with the magic payload. */
  method ResetGate()
  {
    var a := new Node(1, 1, 1);
    a.Start(3, 0);
    a.RegisterDdefHandler(DDEF_RESET as int, Some(7));
    var resetId := CompliantId(0, 0, 5, 1, 3, 0, DDEF_RESET);
    RoundTrip(resetId);

    var wrong := Frame(StructToId(resetId), true, false, 4, [0x06, 0xD3, 0xBA, 0xAE, 0, 0, 0, 0]);
    ResetFrameBytes(wrong);
    var r1 := a.ProcFrame(wrong, 0);
    assert r1 == Dropped;
    assert a.events == [];

    var magic := Frame(StructToId(resetId), true, false, 4, [0xAE, 0xBA, 0xD3, 0x06, 0, 0, 0, 0]);
    ResetFrameBytes(magic);
    var r2 := a.ProcFrame(magic, 1);
    assert r2 == ToDdef(DDEF_RESET);
    assert a.events == [Hit(DdefTable, 4, 7, magic)];
  }
}
