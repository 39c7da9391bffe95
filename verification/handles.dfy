/**
 * Live C++ objects of one class, by identity: `this != &other` in the
 * assignment operators compares two `Id`s. `socket` and `address` share this
 * copy/move behaviour and differ only in what a moved-from object holds.
 */
module Handles {

  /** Identity of a live object (its address in the C++ program). */
  type Id = nat

  /** A new object holding `value`; no live object is touched. */
  function Construct<T>(store: map<Id, T>, id: Id, value: T): (r: map<Id, T>)
    requires id !in store
    ensures r.Keys == store.Keys + {id}
    ensures r[id] == value
    ensures forall i :: i in store ==> r[i] == store[i]
  {
    store[id := value]
  }

  /** Copy assignment: the target takes the source's state, unless both are the same object. */
  function CopyAssign<T>(store: map<Id, T>, dst: Id, src: Id): (r: map<Id, T>)
    requires dst in store && src in store
    ensures r.Keys == store.Keys
    ensures r[dst] == store[src]
    ensures forall i :: i in store && i != dst ==> r[i] == store[i]
  {
    if dst == src then store else store[dst := store[src]]
  }

  /** Move assignment: the target takes the source's state and the source is left `vacated`; self-move changes nothing. */
  function MoveAssign<T>(store: map<Id, T>, dst: Id, src: Id, vacated: T): (r: map<Id, T>)
    requires dst in store && src in store
    ensures r.Keys == store.Keys
    ensures dst == src ==> r == store
    ensures dst != src ==> r[dst] == store[src] && r[src] == vacated
    ensures forall i :: i in store && i != dst && i != src ==> r[i] == store[i]
  {
    if dst == src then store else store[dst := store[src]][src := vacated]
  }

  /** Copy constructor: start `vacated`, then copy-assign from `other`. */
  function CopyConstruct<T>(store: map<Id, T>, id: Id, other: Id, vacated: T): (r: map<Id, T>)
    requires id !in store && other in store
    ensures r.Keys == store.Keys + {id}
    ensures r[id] == store[other]
    ensures forall i :: i in store ==> r[i] == store[i]
  {
    CopyAssign(Construct(store, id, vacated), id, other)
  }

  /** Move constructor: start `vacated`, then move-assign from `other`. */
  function MoveConstruct<T>(store: map<Id, T>, id: Id, other: Id, vacated: T): (r: map<Id, T>)
    requires id !in store && other in store
    ensures r.Keys == store.Keys + {id}
    ensures r[id] == store[other] && r[other] == vacated
    ensures forall i :: i in store && i != other ==> r[i] == store[i]
  {
    MoveAssign(Construct(store, id, vacated), id, other, vacated)
  }

  /** Self-assignment, by copy or by move, leaves every object as it was. */
  lemma SelfAssignmentIsNoOp<T>(store: map<Id, T>, id: Id, vacated: T)
    requires id in store
    ensures CopyAssign(store, id, id) == store
    ensures MoveAssign(store, id, id, vacated) == store
  {
  }
}
