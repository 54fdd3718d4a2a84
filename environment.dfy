/** Variable bindings consulted during evaluation (Environment.java). */
module Environments {

  class Environment {
    /** The HashMap from names to values. */
    var bindings: map<string, int>

    /** A fresh environment binds nothing, so every name reads as 0. */
    constructor ()
      ensures bindings == map[]
      ensures forall id :: Lookup(id) == 0
    {
      bindings := map[];
    }

    /** Inserts or overwrites the binding of id; every other name keeps its value. */
    method Bind(id: string, value: int)
      modifies this
      ensures bindings == old(bindings)[id := value]
      ensures Lookup(id) == value
      ensures forall other :: other != id ==> Lookup(other) == old(Lookup(other))
    {
      bindings := bindings[id := value];
    }

    /** The value bound to id, or 0 when id is unbound; never fails. */
    function Lookup(id: string): (v: int)
      reads this
      ensures id in bindings ==> v == bindings[id]
      ensures id !in bindings ==> v == 0
    {
      if id in bindings then bindings[id] else 0
    }
  }
}
