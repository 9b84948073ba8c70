// Fixed-capacity handler pools: the scans the CVNP dispatcher runs over its
// query, broadcast and non-compliant tables (src/cvnp/cvnp.h:50-92, 157-162).
// Each table is an array of entries with a `valid` bit, a key that decides
// which entries are "the same handler", and a timestamp. The three tables share
// these operations, so they are written once, over an entry type T; the
// accessors are passed in as functions.
module Pools {
  import opened CanBus

  /** At most one live entry per key: the invariant registration keeps. */
  ghost predicate KeysUnique<T, K>(s: seq<T>, key: T -> K, live: T -> bool)
  {
    forall i, j :: 0 <= i < |s| && 0 <= j < |s| && i != j && live(s[i]) && live(s[j]) ==> key(s[i]) != key(s[j])
  }

  /** Some live entry of `s` has key `k`. */
  ghost predicate HasLiveKey<T, K>(s: seq<T>, k: K, key: T -> K, live: T -> bool)
  {
    exists i :: 0 <= i < |s| && live(s[i]) && key(s[i]) == k
  }

  /** Some entry of `s` is free. */
  ghost predicate HasFree<T>(s: seq<T>, live: T -> bool)
  {
    exists i :: 0 <= i < |s| && !live(s[i])
  }

  /** The slot a registration with key `k` may take at time `now`: the live entry
      with the same key if there is one (replace, do not duplicate); otherwise a
      free slot; otherwise, the table being full, the entry that has been idle
      longest (the largest `idle(e, now)`). The last rule is this model's
      eviction policy; the protocol leaves it open. */
  ghost predicate IsSlotFor<T, K>(s: seq<T>, slot: nat, k: K, key: T -> K, live: T -> bool,
                                  idle: (T, Time) -> nat, now: Time)
  {
    slot < |s| &&
    if HasLiveKey(s, k, key, live) then live(s[slot]) && key(s[slot]) == k
    else if HasFree(s, live) then !live(s[slot])
    else forall i :: 0 <= i < |s| ==> idle(s[i], now) <= idle(s[slot], now)
  }

  /** The registration scan: one pass over the table that finds the slot for key `k`. */
  method FindSlot<T, K(==)>(a: array<T>, k: K, key: T -> K, live: T -> bool, idle: (T, Time) -> nat, now: Time)
    returns (slot: nat)
    requires a.Length > 0
    ensures IsSlotFor(a[..], slot, k, key, live, idle, now)
  {
    var hit: nat, free: nat, oldest: nat := a.Length, a.Length, 0;
    var i := 0;
    while i < a.Length
      invariant 0 <= i <= a.Length && hit <= a.Length && free <= a.Length && oldest < a.Length
      invariant hit < a.Length ==> hit < i && live(a[hit]) && key(a[hit]) == k
      invariant hit == a.Length ==> forall j :: 0 <= j < i ==> !(live(a[j]) && key(a[j]) == k)
      invariant free < a.Length ==> free < i && !live(a[free])
      invariant free == a.Length ==> forall j :: 0 <= j < i ==> live(a[j])
      invariant forall j :: 0 <= j < i ==> idle(a[j], now) <= idle(a[oldest], now)
    {
      var e := a[i];
      if hit == a.Length && live(e) && key(e) == k {
        hit := i;
      }
      if free == a.Length && !live(e) {
        free := i;
      }
      if idle(e, now) > idle(a[oldest], now) {
        oldest := i;
      }
      i := i + 1;
    }
    ghost var s := a[..];
    assert forall j :: 0 <= j < a.Length ==> s[j] == a[j];
    if hit < a.Length {
      slot := hit;
      assert live(s[slot]) && key(s[slot]) == k;
    } else if free < a.Length {
      slot := free;
      assert !HasLiveKey(s, k, key, live);
      assert !live(s[slot]);
    } else {
      slot := oldest;
      assert !HasLiveKey(s, k, key, live);
      assert !HasFree(s, live);
    }
  }

  /** Writing a live entry with key `k` into the slot chosen for `k` keeps keys
      unique, and afterwards that slot is the only live entry with key `k`. */
  lemma PlaceKeepsKeysUnique<T, K>(s: seq<T>, slot: nat, v: T, k: K, key: T -> K, live: T -> bool,
                                   idle: (T, Time) -> nat, now: Time)
    requires KeysUnique(s, key, live) && IsSlotFor(s, slot, k, key, live, idle, now)
    requires live(v) && key(v) == k
    ensures KeysUnique(s[slot := v], key, live)
    ensures forall i :: 0 <= i < |s| && i != slot ==> !(live(s[i]) && key(s[i]) == k)
  {
    var t := s[slot := v];
    forall i | 0 <= i < |s| && i != slot && live(t[i])
      ensures key(t[i]) != k
    {
      assert t[i] == s[i];
    }
  }

  /** The first index whose entry satisfies `p`, or `a.Length` if none does. */
  method FindFirst<T>(a: array<T>, p: T -> bool) returns (i: nat)
    ensures i <= a.Length
    ensures i < a.Length ==> p(a[i])
    ensures forall j :: 0 <= j < i ==> !p(a[j])
  {
    i := 0;
    while i < a.Length && !p(a[i])
      invariant i <= a.Length
      invariant forall j :: 0 <= j < i ==> !p(a[j])
    {
      i := i + 1;
    }
  }

  /** The table after a tick: every entry that `fires` at `now` is replaced by
      `expire` of it, every other entry is kept. */
  function Sweep<T>(s: seq<T>, now: Time, fires: (T, Time) -> bool, expire: T -> T): (r: seq<T>)
    ensures |r| == |s|
  {
    seq(|s|, i requires 0 <= i < |s| => if fires(s[i], now) then expire(s[i]) else s[i])
  }

  /** The callbacks a tick runs for a table, in slot order: one event `fire(i, s[i])`
      for every slot `i` that fires at `now`. */
  function TickEvents<T, E>(s: seq<T>, now: Time, fires: (T, Time) -> bool, fire: (nat, T) -> E): seq<E>
  {
    if s == [] then []
    else
      var n := |s| - 1;
      TickEvents(s[..n], now, fires, fire) + (if fires(s[n], now) then [fire(n, s[n])] else [])
  }

  /** A tick runs a callback exactly for the slots that fire, and for no other. */
  lemma {:induction false} TickEventsExact<T, E>(s: seq<T>, now: Time, fires: (T, Time) -> bool, fire: (nat, T) -> E)
    ensures forall e :: e in TickEvents(s, now, fires, fire) ==>
                        exists i :: 0 <= i < |s| && fires(s[i], now) && e == fire(i, s[i])
    ensures forall i :: 0 <= i < |s| && fires(s[i], now) ==> fire(i, s[i]) in TickEvents(s, now, fires, fire)
  {
    if s != [] {
      var n := |s| - 1;
      var p := s[..n];
      TickEventsExact(p, now, fires, fire);
      forall e | e in TickEvents(s, now, fires, fire)
        ensures exists i :: 0 <= i < |s| && fires(s[i], now) && e == fire(i, s[i])
      {
        if e in TickEvents(p, now, fires, fire) {
          var i :| 0 <= i < |p| && fires(p[i], now) && e == fire(i, p[i]);
          assert s[i] == p[i];
        }
      }
      forall i | 0 <= i < |s| && fires(s[i], now)
        ensures fire(i, s[i]) in TickEvents(s, now, fires, fire)
      {
        if i < n {
          assert p[i] == s[i];
        }
      }
    }
  }

  /** A tick in which no slot fires runs no callback. */
  lemma {:induction false} TickEventsQuiet<T, E>(s: seq<T>, now: Time, fires: (T, Time) -> bool, fire: (nat, T) -> E)
    requires forall i :: 0 <= i < |s| ==> !fires(s[i], now)
    ensures TickEvents(s, now, fires, fire) == []
  {
    if s != [] {
      TickEventsQuiet(s[..|s| - 1], now, fires, fire);
    }
  }

  /** A tick in which exactly slot `k` fires runs exactly its callback. */
  lemma {:induction false} TickEventsSingle<T, E>(s: seq<T>, k: nat, now: Time, fires: (T, Time) -> bool, fire: (nat, T) -> E)
    requires k < |s| && fires(s[k], now)
    requires forall i :: 0 <= i < |s| && i != k ==> !fires(s[i], now)
    ensures TickEvents(s, now, fires, fire) == [fire(k, s[k])]
  {
    var n := |s| - 1;
    var p := s[..n];
    if k == n {
      TickEventsQuiet(p, now, fires, fire);
    } else {
      TickEventsSingle(p, k, now, fires, fire);
    }
  }

  /** A tick that only frees entries keeps keys unique. */
  lemma SweepKeepsKeysUnique<T, K>(s: seq<T>, now: Time, fires: (T, Time) -> bool, expire: T -> T,
                                       key: T -> K, live: T -> bool)
    requires KeysUnique(s, key, live)
    requires forall e :: !live(expire(e))
    ensures KeysUnique(Sweep(s, now, fires, expire), key, live)
  {
    var r := Sweep(s, now, fires, expire);
    forall i, j | 0 <= i < |r| && 0 <= j < |r| && i != j && live(r[i]) && live(r[j])
      ensures key(r[i]) != key(r[j])
    {
      assert r[i] == s[i] && r[j] == s[j];
    }
  }

  /** The tick loop over a table whose expired entries are removed: applies Sweep
      in place and returns the callbacks run, in slot order. */
  method SweepTable<T, E>(a: array<T>, now: Time, fires: (T, Time) -> bool, expire: T -> T,
                          fire: (nat, T) -> E) returns (events: seq<E>)
    modifies a
    ensures a[..] == Sweep(old(a[..]), now, fires, expire)
    ensures events == TickEvents(old(a[..]), now, fires, fire)
  {
    ghost var s := a[..];
    events := [];
    var i := 0;
    while i < a.Length
      invariant 0 <= i <= a.Length
      invariant forall j :: 0 <= j < i ==> a[j] == (if fires(s[j], now) then expire(s[j]) else s[j])
      invariant forall j :: i <= j < a.Length ==> a[j] == s[j]
      invariant events == TickEvents(s[..i], now, fires, fire)
    {
      var e := a[i];
      assert s[..i + 1][..i] == s[..i];
      if fires(e, now) {
        a[i] := expire(e);
        events := events + [fire(i, e)];
      }
      i := i + 1;
    }
    assert s[..a.Length] == s;
  }

  /** The tick loop over a table whose entries survive their timeouts: returns
      the callbacks run and changes nothing. */
  method CollectTimeouts<T, E>(a: array<T>, now: Time, fires: (T, Time) -> bool, fire: (nat, T) -> E)
    returns (events: seq<E>)
    ensures events == TickEvents(a[..], now, fires, fire)
  {
    events := [];
    var i := 0;
    while i < a.Length
      invariant 0 <= i <= a.Length
      invariant events == TickEvents(a[..i], now, fires, fire)
    {
      assert a[..i + 1][..i] == a[..i];
      if fires(a[i], now) {
        events := events + [fire(i, a[i])];
      }
      i := i + 1;
    }
    assert a[..a.Length] == a[..];
  }
}
