/** `EventAutoUnsubscribeProxy`: a component on an owner game object that
    keeps the release actions registered for it and runs them, in
    registration order, when the object is destroyed. An action is a value
    of type `A`; `None` stands for a null delegate. */
module AutoUnsubscribe {
  import opened Values

  /** The actions `foreach (var a in s) a?.Invoke();` runs: the non-null
      ones, in order. */
  function Present<A>(s: seq<Option<A>>): (r: seq<A>)
    ensures |r| <= |s|
    ensures forall i :: 0 <= i < |s| && s[i].Some? ==> s[i].value in r
    ensures forall k :: 0 <= k < |r| ==> Some(r[k]) in s
  {
    if s == [] then []
    else
      var last := s[|s| - 1];
      Present(s[..|s| - 1]) + (if last.Some? then [last.value] else [])
  }

  /** Running the actions of a concatenation runs those of each part in turn. */
  lemma {:induction false} PresentAppend<A>(a: seq<Option<A>>, b: seq<Option<A>>)
    ensures Present(a + b) == Present(a) + Present(b)
    decreases |b|
  {
    if b == [] {
      assert a + b == a;
    } else {
      assert (a + b)[..|a + b| - 1] == a + b[..|b| - 1];
      PresentAppend(a, b[..|b| - 1]);
    }
  }

  class AutoUnsubscribeProxy<A> {
    /** `_unsubscribeActions`. */
    var actions: seq<Option<A>>
    /** Every action run so far, in order. */
    var invoked: seq<A>

    constructor ()
      ensures actions == [] && invoked == []
    {
      actions := [];
      invoked := [];
    }

    /** `Register(unsubscribe)`: appends the action. */
    method Register(unsubscribe: Option<A>)
      modifies this
      ensures actions == old(actions) + [unsubscribe]
      ensures invoked == old(invoked)
    {
      actions := actions + [unsubscribe];
    }

    /** `OnDestroy`: runs each registered non-null action once, in
        registration order, then forgets them all. */
    method OnDestroy()
      modifies this
      ensures invoked == old(invoked) + Present(old(actions))
      ensures actions == []
    {
      for i := 0 to |actions|
        invariant actions == old(actions)
        invariant invoked == old(invoked) + Present(actions[..i])
      {
        assert actions[..i + 1][..i] == actions[..i];
        var unsubscribe := actions[i];
        if unsubscribe.Some? {
          invoked := invoked + [unsubscribe.value];
        }
      }
      assert actions[..|actions|] == actions;
      actions := [];
    }
  }

  /** Destroying the owner twice runs nothing the second time. */
  method DestroyTwice<A>(p: AutoUnsubscribeProxy<A>)
    modifies p
    ensures p.invoked == old(p.invoked) + Present(old(p.actions))
    ensures p.actions == []
  {
    p.OnDestroy();
    p.OnDestroy();
  }
}
