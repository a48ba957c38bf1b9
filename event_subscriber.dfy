/** `EventSubscriber`: a component that records the delegates added for an
    event name in an `EventData` struct. Event names are strings and
    delegates are identities. */
module EventSubscriberModel {
  import opened Values

  /** `EventData`; `delegates` is `None` while the dictionary is null. */
  datatype EventData = EventData(eventObject: Owner, isPrivate: bool, delegates: Option<map<string, seq<nat>>>)

  /** `dict[name].Add(action)`, or a new one-element list when the name is absent. */
  function Added(d: map<string, seq<nat>>, eventName: string, action: nat): (r: map<string, seq<nat>>)
    ensures r.Keys == d.Keys + {eventName}
    ensures eventName in d ==> r[eventName] == d[eventName] + [action]
    ensures eventName !in d ==> r[eventName] == [action]
    ensures forall n :: n in d && n != eventName ==> r[n] == d[n]
  {
    if eventName in d then d[eventName := d[eventName] + [action]] else d[eventName := [action]]
  }

  class EventSubscriber {
    /** The component's own game object. */
    const gameObject: Owner
    /** `_eventData`, created by `new()`: no object, not private, no dictionary. */
    var eventData: EventData

    constructor (go: Owner)
      ensures gameObject == go
      ensures eventData == EventData(NoOwner, false, None)
    {
      gameObject := go;
      eventData := EventData(NoOwner, false, None);
    }

    /** `AddEvent(eventName, action, isPrivate)` as written: the dictionary is
        replaced by a new empty one on every call before the action is added,
        so only the latest action survives. */
    method AddEvent(eventName: string, action: nat, isPrivate: bool)
      modifies this
      ensures eventData == EventData(gameObject, isPrivate, Some(map[eventName := [action]]))
    {
      eventData := eventData.(eventObject := gameObject);
      eventData := eventData.(isPrivate := isPrivate);
      var delegates: map<string, seq<nat>> := map[];
      if eventName in delegates {
        // Unreachable: the dictionary was created empty just above.
        assert false;
      } else {
        delegates := delegates[eventName := [action]];
      }
      eventData := eventData.(delegates := Some(delegates));
    }

    /** `AddEvent` with the dictionary created only when it is still null,
        which is what the `ContainsKey` branch is written for: every earlier
        action is kept. */
    method AddEventKeeping(eventName: string, action: nat, isPrivate: bool)
      modifies this
      ensures eventData.eventObject == gameObject && eventData.isPrivate == isPrivate
      ensures eventData.delegates == Some(Added(
        if old(eventData.delegates).Some? then old(eventData.delegates).value else map[], eventName, action))
    {
      eventData := eventData.(eventObject := gameObject);
      eventData := eventData.(isPrivate := isPrivate);
      var delegates: map<string, seq<nat>> := if eventData.delegates.Some? then eventData.delegates.value else map[];
      if eventName in delegates {
        delegates := delegates[eventName := delegates[eventName] + [action]];
      } else {
        delegates := delegates[eventName := [action]];
      }
      eventData := eventData.(delegates := Some(delegates));
    }
  }

  /** As written, a second `AddEvent` for another name discards the first. */
  method SecondAddEventDiscardsFirst(s: EventSubscriber, first: string, second: string, a: nat, b: nat)
    requires first != second
    modifies s
    ensures s.eventData.delegates.Some?
    ensures first !in s.eventData.delegates.value
    ensures s.eventData.delegates.value == map[second := [b]]
  {
    s.AddEvent(first, a, false);
    s.AddEvent(second, b, false);
  }

  /** With the dictionary kept, two `AddEvent` calls leave both actions
      reachable under their names, in the order they were added. */
  method SecondAddEventKeepsFirst(s: EventSubscriber, first: string, second: string, a: nat, b: nat)
    requires s.eventData.delegates == None
    modifies s
    ensures s.eventData.delegates.Some?
    ensures first == second ==> s.eventData.delegates.value == map[first := [a, b]]
    ensures first != second ==> s.eventData.delegates.value == map[first := [a], second := [b]]
  {
    s.AddEventKeeping(first, a, false);
    s.AddEventKeeping(second, b, false);
    assert [a] + [b] == [a, b];
  }
}
