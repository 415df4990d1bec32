/**
 * The handle map of src/handle_registry.go: objects handed across the
 * foreign-function boundary are stored under integer handles drawn from a
 * counter that only grows, so a handle is never issued twice.
 */
module WgRegistry {
  import opened Wrappers

  class HandleRegistry<T> {
    /** The live objects, by handle. */
    var objects: map<int, T>
    /** The last handle issued; 0 before the first `Add`. */
    var sequence: int
    /** Every handle issued so far, live or removed. */
    ghost var issued: set<int>

    ghost predicate Valid()
      reads this
    {
      && sequence >= 0
      && (forall h :: h in issued <==> 1 <= h <= sequence)
      && objects.Keys <= issued
    }

    /** `NewHandleRegistry`: nothing stored, no handle issued. */
    constructor ()
      ensures Valid() && objects == map[] && sequence == 0 && issued == {}
    {
      objects, sequence := map[], 0;
      issued := {};
    }

    /** `Add`: store `obj` under the next handle, one past the last one issued. */
    method Add(obj: T) returns (h: int)
      requires Valid()
      modifies this
      ensures Valid()
      ensures h == old(sequence) + 1 && sequence == h
      ensures h !in old(issued) && issued == old(issued) + {h}
      ensures forall k :: k in old(issued) ==> k < h
      ensures objects == old(objects)[h := obj]
      ensures Count() == old(Count()) + 1
    {
      sequence := sequence + 1;
      objects := objects[sequence := obj];
      issued := issued + {sequence};
      h := sequence;
    }

    /** `Get`: the object stored under `h`, or None when there is none. */
    function Get(h: int): (r: Option<T>)
      reads this
      ensures r.Some? <==> h in objects
      ensures r.Some? ==> r.value == objects[h]
      ensures h <= 0 && Valid() ==> r.None?
    {
      if h in objects then Some(objects[h]) else None
    }

    /** `Remove`: drop `h`, answering whether it was present; the counter is untouched. */
    method Remove(h: int) returns (removed: bool)
      requires Valid()
      modifies this
      ensures Valid()
      ensures removed <==> h in old(objects)
      ensures objects == old(objects) - {h} && Get(h).None?
      ensures sequence == old(sequence) && issued == old(issued)
      ensures Count() == old(Count()) - (if removed then 1 else 0)
    {
      if h in objects {
        objects := objects - {h};
        return true;
      }
      return false;
    }

    /** `Count`: the number of live handles. */
    function Count(): (n: nat)
      reads this
      ensures n == 0 <==> objects == map[]
      ensures forall h :: h in objects ==> n >= 1
    {
      |objects|
    }
  }
}
