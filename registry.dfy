/** The service's event-handler table (src/services/signalr.service.ts, `eventHandlers`, `on`,
    `off`): event name to the ordered list of subscribed callbacks. Callbacks are opaque and
    compared by identity, so they are modelled as ids. */
module Registry {
  import opened Seqs

  /** The identity of a callback closure. */
  type HandlerId = nat

  type HandlerTable = map<string, seq<HandlerId>>

  /** The callbacks subscribed to `event`, in subscription order. */
  function Handlers(t: HandlerTable, event: string): seq<HandlerId>
  {
    if event in t then t[event] else []
  }

  /** `on`: create the list if it is absent, then append the callback (a second subscription
      of the same callback is a second entry). */
  function Register(t: HandlerTable, event: string, h: HandlerId): (r: HandlerTable)
    ensures r.Keys == t.Keys + {event}
    ensures Handlers(r, event) == Handlers(t, event) + [h]
    ensures forall e :: e != event ==> Handlers(r, e) == Handlers(t, e)
  {
    t[event := Handlers(t, event) + [h]]
  }

  function OtherHandler(h: HandlerId): HandlerId -> bool
  {
    (x: HandlerId) => x != h
  }

  /** `off`: drop every entry identical to the callback from that event's list. */
  function Unregister(t: HandlerTable, event: string, h: HandlerId): (r: HandlerTable)
    ensures r.Keys == t.Keys
    ensures forall e :: e != event ==> Handlers(r, e) == Handlers(t, e)
    ensures h !in Handlers(r, event)
    ensures forall x :: x in Handlers(r, event) <==> x in Handlers(t, event) && x != h
    ensures event !in t ==> r == t
  {
    if event in t then t[event := Filter(t[event], OtherHandler(h))] else t
  }

  /** The callbacks that stay keep their subscription order. */
  lemma UnregisterKeepsOrder(t: HandlerTable, event: string, h: HandlerId, a: seq<HandlerId>, b: seq<HandlerId>)
    requires Handlers(t, event) == a + b
    ensures Handlers(Unregister(t, event, h), event) == Filter(a, OtherHandler(h)) + Filter(b, OtherHandler(h))
  {
    FilterConcat(a, b, OtherHandler(h));
  }

  /** Unsubscribing a callback that was never subscribed to that event is a no-op. */
  lemma UnregisterUnknownIsNoop(t: HandlerTable, event: string, h: HandlerId)
    requires h !in Handlers(t, event)
    ensures Unregister(t, event, h) == t
  {
    if event in t {
      FilterAllKept(t[event], OtherHandler(h));
    }
  }

  /** Unsubscribing right after subscribing removes every subscription of that callback,
      the earlier duplicates included, and leaves the other callbacks in order. */
  lemma RegisterThenUnregister(t: HandlerTable, event: string, h: HandlerId)
    ensures Handlers(Unregister(Register(t, event, h), event, h), event) == Filter(Handlers(t, event), OtherHandler(h))
  {
    FilterConcat(Handlers(t, event), [h], OtherHandler(h));
    assert Filter([h], OtherHandler(h)) == [] by {
      assert [h][1..] == [];
    }
  }

  /** Subscribing every event of `events[k]` with callback `ids[k]`, in order. */
  function RegisterAll(t: HandlerTable, events: seq<string>, ids: seq<HandlerId>): (r: HandlerTable)
    requires |events| == |ids|
    ensures t.Keys <= r.Keys
    decreases events
  {
    if events == [] then t else RegisterAll(Register(t, events[0], ids[0]), events[1..], ids[1..])
  }

  /** Unsubscribing `ids[k]` from `events[k]`, in order. */
  function UnregisterAll(t: HandlerTable, events: seq<string>, ids: seq<HandlerId>): (r: HandlerTable)
    requires |events| == |ids|
    ensures r.Keys == t.Keys
    decreases events
  {
    if events == [] then t else UnregisterAll(Unregister(t, events[0], ids[0]), events[1..], ids[1..])
  }

  /** A cleanup that passes freshly made closures, none of them ever subscribed, leaves the
      table exactly as it was: every handler stays subscribed. */
  lemma {:induction false} CleanupWithFreshClosuresIsNoop(t: HandlerTable, events: seq<string>, closures: seq<HandlerId>)
    requires |events| == |closures|
    requires forall k, e :: 0 <= k < |closures| ==> closures[k] !in Handlers(t, e)
    ensures UnregisterAll(t, events, closures) == t
    decreases events
  {
    if events != [] {
      UnregisterUnknownIsNoop(t, events[0], closures[0]);
      forall k, e | 0 <= k < |closures[1..]|
        ensures closures[1..][k] !in Handlers(t, e)
      {
        assert closures[1..][k] == closures[k + 1];
      }
      CleanupWithFreshClosuresIsNoop(t, events[1..], closures[1..]);
    }
  }

  /** Events named at most once. */
  predicate Distinct(events: seq<string>)
  {
    forall j, k :: 0 <= j < k < |events| ==> events[j] != events[k]
  }

  lemma DistinctTail(events: seq<string>)
    requires events != [] && Distinct(events)
    ensures Distinct(events[1..])
    ensures forall k :: 0 <= k < |events[1..]| ==> events[1..][k] != events[0]
  {
    forall j, k | 0 <= j < k < |events[1..]|
      ensures events[1..][j] != events[1..][k]
    {
      assert events[1..][j] == events[j + 1] && events[1..][k] == events[k + 1];
    }
    forall k | 0 <= k < |events[1..]|
      ensures events[1..][k] != events[0]
    {
      assert events[1..][k] == events[k + 1];
    }
  }

  /** Subscribing `ids[k]` to each of distinct events `events[k]` appends exactly that
      callback to that event's list. */
  lemma {:induction false} RegisterAllAt(t: HandlerTable, events: seq<string>, ids: seq<HandlerId>, k: nat)
    requires |events| == |ids| && Distinct(events) && k < |events|
    ensures Handlers(RegisterAll(t, events, ids), events[k]) == Handlers(t, events[k]) + [ids[k]]
    decreases events
  {
    DistinctTail(events);
    var t' := Register(t, events[0], ids[0]);
    if k == 0 {
      RegisterAllKeeps(t', events[1..], ids[1..], events[0]);
    } else {
      assert events[1..][k - 1] == events[k] && ids[1..][k - 1] == ids[k];
      RegisterAllAt(t', events[1..], ids[1..], k - 1);
    }
  }

  /** Subscribing to other events leaves an event's list alone. */
  lemma {:induction false} RegisterAllKeeps(t: HandlerTable, events: seq<string>, ids: seq<HandlerId>, e: string)
    requires |events| == |ids|
    requires forall k :: 0 <= k < |events| ==> events[k] != e
    ensures Handlers(RegisterAll(t, events, ids), e) == Handlers(t, e)
    decreases events
  {
    if events != [] {
      forall k | 0 <= k < |events[1..]|
        ensures events[1..][k] != e
      {
        assert events[1..][k] == events[k + 1];
      }
      RegisterAllKeeps(Register(t, events[0], ids[0]), events[1..], ids[1..], e);
    }
  }

  /** Unsubscribing `ids[k]` from each of distinct events `events[k]` filters exactly that
      callback out of that event's list. */
  lemma {:induction false} UnregisterAllAt(t: HandlerTable, events: seq<string>, ids: seq<HandlerId>, k: nat)
    requires |events| == |ids| && Distinct(events) && k < |events|
    ensures Handlers(UnregisterAll(t, events, ids), events[k]) == Filter(Handlers(t, events[k]), OtherHandler(ids[k]))
    decreases events
  {
    DistinctTail(events);
    var t' := Unregister(t, events[0], ids[0]);
    if k == 0 {
      UnregisterAllKeeps(t', events[1..], ids[1..], events[0]);
    } else {
      assert events[1..][k - 1] == events[k] && ids[1..][k - 1] == ids[k];
      UnregisterAllAt(t', events[1..], ids[1..], k - 1);
    }
  }

  /** Unsubscribing from other events leaves an event's list alone. */
  lemma {:induction false} UnregisterAllKeeps(t: HandlerTable, events: seq<string>, ids: seq<HandlerId>, e: string)
    requires |events| == |ids|
    requires forall k :: 0 <= k < |events| ==> events[k] != e
    ensures Handlers(UnregisterAll(t, events, ids), e) == Handlers(t, e)
    decreases events
  {
    if events != [] {
      forall k | 0 <= k < |events[1..]|
        ensures events[1..][k] != e
      {
        assert events[1..][k] == events[k + 1];
      }
      UnregisterAllKeeps(Unregister(t, events[0], ids[0]), events[1..], ids[1..], e);
    }
  }

  /** Subscribing `ids` to distinct events and then unsubscribing the same callbacks gives
      every event back its former subscribers, provided none of them was subscribed before. */
  lemma {:induction false} UnregisterAllUndoesRegisterAll(t: HandlerTable, events: seq<string>, ids: seq<HandlerId>, e: string)
    requires |events| == |ids| && Distinct(events)
    requires forall k :: 0 <= k < |ids| ==> ids[k] !in Handlers(t, events[k])
    ensures Handlers(UnregisterAll(RegisterAll(t, events, ids), events, ids), e) == Handlers(t, e)
  {
    var u := RegisterAll(t, events, ids);
    if k :| 0 <= k < |events| && events[k] == e {
      var h := ids[k];
      RegisterAllAt(t, events, ids, k);
      UnregisterAllAt(u, events, ids, k);
      FilterConcat(Handlers(t, e), [h], OtherHandler(h));
      FilterAllKept(Handlers(t, e), OtherHandler(h));
      assert Filter([h], OtherHandler(h)) == [] by {
        assert [h][1..] == [];
      }
    } else {
      RegisterAllKeeps(t, events, ids, e);
      UnregisterAllKeeps(u, events, ids, e);
    }
  }

  /** Subscribing `second` after `first`, with an unsubscription in between that names only
      callbacks not subscribed at that point, leaves both callbacks on each event. */
  lemma RegisterAllTwice(t: HandlerTable, events: seq<string>, first: seq<HandlerId>, closures: seq<HandlerId>, second: seq<HandlerId>, k: nat)
    requires |events| == |first| == |closures| == |second| && Distinct(events) && k < |events|
    requires forall j, e :: 0 <= j < |closures| ==> closures[j] !in Handlers(RegisterAll(t, events, first), e)
    ensures Handlers(RegisterAll(UnregisterAll(RegisterAll(t, events, first), events, closures), events, second), events[k])
      == Handlers(t, events[k]) + [first[k], second[k]]
  {
    var u := RegisterAll(t, events, first);
    CleanupWithFreshClosuresIsNoop(u, events, closures);
    RegisterAllAt(t, events, first, k);
    RegisterAllAt(u, events, second, k);
  }
}
