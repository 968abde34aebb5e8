/** The editor's subscriptions to the service (src/components/PresentationEditor.tsx,
    `setupEventListeners` and `cleanupEventListeners`): on mount, one callback per hub event;
    on unmount, the cleanup. Each callback the component creates is a new closure, so it has
    an identity no other subscription shares. */
module Subscriptions {
  import opened Seqs
  import opened Hub
  import opened Registry

  lemma HubEventsDistinct()
    ensures Distinct(HubEvents)
  {
  }

  /** `setupEventListeners`: `ids[k]` is subscribed to `HubEvents[k]`, appended after whatever
      was subscribed before; events outside the hub's set are untouched. */
  function SetupEventListeners(t: HandlerTable, ids: seq<HandlerId>): (r: HandlerTable)
    requires |ids| == |HubEvents|
    ensures forall k :: 0 <= k < |HubEvents| ==> Handlers(r, HubEvents[k]) == Handlers(t, HubEvents[k]) + [ids[k]]
    ensures forall e :: e !in HubEvents ==> Handlers(r, e) == Handlers(t, e)
  {
    HubEventsDistinct();
    SetupEach(t, ids);
    RegisterAll(t, HubEvents, ids)
  }

  lemma SetupEach(t: HandlerTable, ids: seq<HandlerId>)
    requires |ids| == |HubEvents| && Distinct(HubEvents)
    ensures forall k :: 0 <= k < |HubEvents| ==> Handlers(RegisterAll(t, HubEvents, ids), HubEvents[k]) == Handlers(t, HubEvents[k]) + [ids[k]]
    ensures forall e :: e !in HubEvents ==> Handlers(RegisterAll(t, HubEvents, ids), e) == Handlers(t, e)
  {
    forall k | 0 <= k < |HubEvents|
      ensures Handlers(RegisterAll(t, HubEvents, ids), HubEvents[k]) == Handlers(t, HubEvents[k]) + [ids[k]]
    {
      RegisterAllAt(t, HubEvents, ids, k);
    }
    forall e | e !in HubEvents
      ensures Handlers(RegisterAll(t, HubEvents, ids), e) == Handlers(t, e)
    {
      RegisterAllKeeps(t, HubEvents, ids, e);
    }
  }

  /** `cleanupEventListeners` as written: each `off` is handed a new empty closure, one that
      was never subscribed anywhere, so the cleanup leaves the table exactly as it was. */
  function CleanupAsWritten(t: HandlerTable, closures: seq<HandlerId>): (r: HandlerTable)
    requires |closures| == |HubEvents|
    requires forall k, e :: 0 <= k < |closures| ==> closures[k] !in Handlers(t, e)
    ensures r == t
  {
    CleanupWithFreshClosuresIsNoop(t, HubEvents, closures);
    UnregisterAll(t, HubEvents, closures)
  }

  /** The cleanup the effect evidently intends: each `off` is handed the very callback the
      setup subscribed to that event, which it then removes. */
  function Cleanup(t: HandlerTable, ids: seq<HandlerId>): (r: HandlerTable)
    requires |ids| == |HubEvents|
    ensures forall k :: 0 <= k < |HubEvents| ==> Handlers(r, HubEvents[k]) == Filter(Handlers(t, HubEvents[k]), OtherHandler(ids[k]))
    ensures forall k :: 0 <= k < |HubEvents| ==> ids[k] !in Handlers(r, HubEvents[k])
    ensures forall e :: e !in HubEvents ==> Handlers(r, e) == Handlers(t, e)
  {
    HubEventsDistinct();
    CleanupEach(t, ids);
    UnregisterAll(t, HubEvents, ids)
  }

  lemma CleanupEach(t: HandlerTable, ids: seq<HandlerId>)
    requires |ids| == |HubEvents| && Distinct(HubEvents)
    ensures forall k :: 0 <= k < |HubEvents| ==> Handlers(UnregisterAll(t, HubEvents, ids), HubEvents[k]) == Filter(Handlers(t, HubEvents[k]), OtherHandler(ids[k]))
    ensures forall k :: 0 <= k < |HubEvents| ==> ids[k] !in Handlers(UnregisterAll(t, HubEvents, ids), HubEvents[k])
    ensures forall e :: e !in HubEvents ==> Handlers(UnregisterAll(t, HubEvents, ids), e) == Handlers(t, e)
  {
    forall k | 0 <= k < |HubEvents|
      ensures Handlers(UnregisterAll(t, HubEvents, ids), HubEvents[k]) == Filter(Handlers(t, HubEvents[k]), OtherHandler(ids[k]))
      ensures ids[k] !in Handlers(UnregisterAll(t, HubEvents, ids), HubEvents[k])
    {
      UnregisterAllAt(t, HubEvents, ids, k);
    }
    forall e | e !in HubEvents
      ensures Handlers(UnregisterAll(t, HubEvents, ids), e) == Handlers(t, e)
    {
      UnregisterAllKeeps(t, HubEvents, ids, e);
    }
  }

  /** As written, mounting, unmounting and mounting again leaves both mounts' callbacks
      subscribed to every hub event: the subscriber lists grow with each mount. */
  lemma RemountAccumulatesHandlers(t: HandlerTable, first: seq<HandlerId>, closures: seq<HandlerId>, second: seq<HandlerId>)
    requires |first| == |closures| == |second| == |HubEvents|
    requires forall k, e :: 0 <= k < |closures| ==> closures[k] !in Handlers(SetupEventListeners(t, first), e)
    ensures forall k :: 0 <= k < |HubEvents| ==>
      Handlers(SetupEventListeners(CleanupAsWritten(SetupEventListeners(t, first), closures), second), HubEvents[k])
      == Handlers(t, HubEvents[k]) + [first[k], second[k]]
  {
    HubEventsDistinct();
    var u := SetupEventListeners(t, first);
    assert u == RegisterAll(t, HubEvents, first);
    forall k | 0 <= k < |HubEvents|
      ensures Handlers(SetupEventListeners(CleanupAsWritten(SetupEventListeners(t, first), closures), second), HubEvents[k])
        == Handlers(t, HubEvents[k]) + [first[k], second[k]]
    {
      RegisterAllTwice(t, HubEvents, first, closures, second, k);
    }
  }

  /** With the intended cleanup, unmounting undoes the mount: every event's subscribers are
      those from before the mount. */
  lemma {:induction false} CleanupUndoesSetup(t: HandlerTable, ids: seq<HandlerId>)
    requires |ids| == |HubEvents|
    requires forall k :: 0 <= k < |ids| ==> ids[k] !in Handlers(t, HubEvents[k])
    ensures forall e :: Handlers(Cleanup(SetupEventListeners(t, ids), ids), e) == Handlers(t, e)
  {
    HubEventsDistinct();
    forall e
      ensures Handlers(Cleanup(SetupEventListeners(t, ids), ids), e) == Handlers(t, e)
    {
      UnregisterAllUndoesRegisterAll(t, HubEvents, ids, e);
    }
  }

  /** With the intended cleanup, mounting, unmounting and mounting again leaves exactly one
      callback per hub event from this component: the second mount's. */
  lemma RemountKeepsOneHandlerEach(t: HandlerTable, first: seq<HandlerId>, second: seq<HandlerId>)
    requires |first| == |second| == |HubEvents|
    requires forall k :: 0 <= k < |first| ==> first[k] !in Handlers(t, HubEvents[k])
    ensures forall k :: 0 <= k < |HubEvents| ==>
      Handlers(SetupEventListeners(Cleanup(SetupEventListeners(t, first), first), second), HubEvents[k])
      == Handlers(t, HubEvents[k]) + [second[k]]
  {
    CleanupUndoesSetup(t, first);
  }
}
