/** The per-user session storage: a map from user id to a value, with a
    factory that supplies the value a reset stores when none is given. */
module Session {
  import opened Wrappers

  class MemorySession<T> {
    /** The closure-held `Map<number, T>`. */
    var entries: map<int, T>
    /** The factory passed to `createMemorySession`. */
    const factory: () -> T

    /** `createMemorySession(factory)`: an empty map. */
    constructor(factory: () -> T)
      ensures entries == map[] && this.factory == factory
    {
      entries := map[];
      this.factory := factory;
    }

    /** `get(id)`: the stored value, or nothing when none was ever stored.
        Being a function, it cannot change the map. */
    function Get(id: int): (r: Option<T>)
      reads this
      ensures r.Some? <==> id in entries
      ensures r.Some? ==> r.value == entries[id]
    {
      if id in entries then Some(entries[id]) else None
    }

    /** `set(id, data)`: the entry for `id` becomes `data`; every other entry
        stays as it was. */
    method Set(id: int, data: T)
      modifies this
      ensures entries == old(entries)[id := data]
      ensures Get(id) == Some(data)
      ensures forall other :: other != id ==> Get(other) == old(Get(other))
    {
      entries := entries[id := data];
    }

    /** `reset(id, value)`: stores `value`, or `factory()` when `value` is
        nullish. */
    method Reset(id: int, value: Option<T>)
      modifies this
      ensures entries == old(entries)[id := value.GetOr(factory())]
      ensures value.Some? ==> Get(id) == value
      ensures value.None? ==> Get(id) == Some(factory())
      ensures forall other :: other != id ==> Get(other) == old(Get(other))
    {
      entries := entries[id := value.GetOr(factory())];
    }
  }
}
