/** `SOManager` and `ScriptableObjectRegistry`: a first-write-wins registry of
    ScriptableObjects by key, filled from the registry asset's entries. The
    registry asset's loading is an oracle; an object is a reference `Value`. */
module SORegistry {
  import opened Values

  /** What `Register` logs. */
  datatype RegisterOutcome = Registered | AlreadyRegistered

  /** What `Get` logs: an error when the registry asset cannot be loaded, a
      warning when the key is absent, nothing when it serves the key. */
  datatype GetOutcome = RegistryMissing | KeyMissing | Served

  /** `so as T`: the object when it is a `T`, otherwise null. */
  function As(so: Value, t: TypeTag): (r: Value)
    ensures r.Null? || Is(r, t)
    ensures Is(so, t) ==> r == so
  {
    if Is(so, t) then so else Null
  }

  class SOManager {
    /** Whether the static `registry` asset reference is set. */
    var registryLoaded: bool
    /** `Registry`. */
    var registry: map<string, Value>

    constructor ()
      ensures !registryLoaded && registry == map[]
    {
      registryLoaded := false;
      registry := map[];
    }

    /** `Initialize`: loads the registry asset unless it is already loaded;
        `assetFound` says whether `Resources.Load` finds it. */
    method Initialize(assetFound: bool)
      modifies this
      ensures registryLoaded == (old(registryLoaded) || assetFound)
      ensures registry == old(registry)
    {
      if !registryLoaded {
        registryLoaded := assetFound;
      }
    }

    /** `Register(key, so)`: `TryAdd`, so the first object registered under a
        key is kept and a later one is only reported. */
    method Register(key: string, so: Value) returns (outcome: RegisterOutcome)
      modifies this
      ensures key !in old(registry) ==> registry == old(registry)[key := so] && outcome == Registered
      ensures key in old(registry) ==> registry == old(registry) && outcome == AlreadyRegistered
      ensures registryLoaded == old(registryLoaded)
    {
      if key !in registry {
        registry := registry[key := so];
        outcome := Registered;
      } else {
        outcome := AlreadyRegistered;
      }
    }

    /** `Get<T>(key)`: loads the registry asset if needed (`assetFound` is the
        load's result) and returns null if it is missing; otherwise the
        object under the key as a `T`, or null when the key is absent. */
    method Get(key: string, t: TypeTag, assetFound: bool) returns (r: Value, outcome: GetOutcome)
      modifies this
      ensures registryLoaded == (old(registryLoaded) || assetFound)
      ensures registry == old(registry)
      ensures !registryLoaded ==> r == Null && outcome == RegistryMissing
      ensures registryLoaded && key in registry ==> r == As(registry[key], t) && outcome == Served
      ensures registryLoaded && key !in registry ==> r == Null && outcome == KeyMissing
      ensures r.Null? || Is(r, t)
    {
      if !registryLoaded {
        registryLoaded := assetFound;
        if !registryLoaded {
          return Null, RegistryMissing;
        }
      }
      if key in registry {
        return As(registry[key], t), Served;
      }
      return Null, KeyMissing;
    }
  }

  /** `SOEntry`: a key that may be null and an object that may be null. */
  datatype SOEntry = SOEntry(key: Option<string>, so: Value)

  /** The `Where` filter of `RegisterAll`: a non-empty key and an object. */
  predicate Eligible(e: SOEntry) {
    e.key.Some? && e.key.value != [] && e.so.Boxed?
  }

  /** The registry after registering the eligible entries of `es`, in
      order, into `reg` with first-wins `Register`: nothing registered
      before is replaced, and only objects of the entries are added. */
  function RegisterEntries(reg: map<string, Value>, es: seq<SOEntry>): (r: map<string, Value>)
    ensures forall k :: k in reg ==> k in r && r[k] == reg[k]
    ensures forall k :: k in r && k !in reg ==> r[k].Boxed? && k != []
  {
    if es == [] then reg
    else
      var before := RegisterEntries(reg, es[..|es| - 1]);
      var e := es[|es| - 1];
      if Eligible(e) && e.key.value !in before then before[e.key.value := e.so] else before
  }

  /** The first eligible entry for `k` is at `i`. */
  predicate FirstFor(es: seq<SOEntry>, k: string, i: int) {
    && 0 <= i < |es| && Eligible(es[i]) && es[i].key == Some(k)
    && forall j :: 0 <= j < i ==> !(Eligible(es[j]) && es[j].key == Some(k))
  }

  /** Registering entries keeps every earlier registration, adds exactly the
      keys of eligible entries, and keeps for a new key the object of the
      earliest eligible entry. */
  lemma {:induction false} RegisterEntriesFirstWins(reg: map<string, Value>, es: seq<SOEntry>, k: string)
    ensures k in reg ==> k in RegisterEntries(reg, es) && RegisterEntries(reg, es)[k] == reg[k]
    ensures k in RegisterEntries(reg, es) <==>
      k in reg || exists i :: 0 <= i < |es| && Eligible(es[i]) && es[i].key == Some(k)
    ensures forall i :: k !in reg && FirstFor(es, k, i) ==> RegisterEntries(reg, es)[k] == es[i].so
    decreases |es|
  {
    if es != [] {
      var es' := es[..|es| - 1];
      var e := es[|es| - 1];
      RegisterEntriesFirstWins(reg, es', k);
      forall i | k !in reg && FirstFor(es, k, i)
        ensures RegisterEntries(reg, es)[k] == es[i].so
      {
        if i < |es| - 1 {
          assert FirstFor(es', k, i);
        } else {
          assert !exists j :: 0 <= j < |es'| && Eligible(es'[j]) && es'[j].key == Some(k) by {
            forall j | 0 <= j < |es'| ensures !(Eligible(es'[j]) && es'[j].key == Some(k)) {
              assert es'[j] == es[j];
            }
          }
        }
      }
      if exists i :: 0 <= i < |es| && Eligible(es[i]) && es[i].key == Some(k) {
        var i :| 0 <= i < |es| && Eligible(es[i]) && es[i].key == Some(k);
        if i < |es| - 1 {
          assert es'[i] == es[i];
        }
      }
      if exists i :: 0 <= i < |es'| && Eligible(es'[i]) && es'[i].key == Some(k) {
        var i :| 0 <= i < |es'| && Eligible(es'[i]) && es'[i].key == Some(k);
        assert es[i] == es'[i];
      }
    }
  }

  class ScriptableObjectRegistry {
    var entries: seq<SOEntry>

    constructor (es: seq<SOEntry>)
      ensures entries == es
    {
      entries := es;
    }

    /** `RegisterAll`: one `Register` call per eligible entry, in list order;
        the entries themselves are left as they are. */
    method RegisterAll(m: SOManager)
      modifies m
      ensures m.registry == RegisterEntries(old(m.registry), entries)
      ensures m.registryLoaded == old(m.registryLoaded)
    {
      for i := 0 to |entries|
        invariant m.registry == RegisterEntries(old(m.registry), entries[..i])
        invariant m.registryLoaded == old(m.registryLoaded)
      {
        assert entries[..i + 1][..i] == entries[..i];
        var entry := entries[i];
        if entry.key.Some? && entry.key.value != [] && entry.so.Boxed? {
          var _ := m.Register(entry.key.value, entry.so);
        }
      }
      assert entries[..|entries|] == entries;
    }
  }
}
