/**
 * `ha::socket`: a handle whose whole state is one `int`, `-1` meaning "no
 * descriptor". The operating system is modelled by the set of descriptors it
 * has open; `::socket` and `::close` are the only calls that change it.
 */
module Socket {
  import opened Wrappers
  import Handles

  type Id = Handles.Id

  /** The value of a handle that owns no descriptor. */
  const NoDescriptor: int := -1

  /** Every live handle's `socket_`, and the descriptors the OS has open. */
  datatype World = World(handles: map<Id, int>, open: set<int>)

  /** What a `close()` did to the OS. */
  datatype Release =
    | NoRelease            // the handle held no descriptor: `::close` was not called
    | Released(fd: int)    // `::close` released an open descriptor
    | StaleRelease(fd: int) // `::close` on a number the OS no longer has open under this owner

  /** Thrown by the (domain, type, protocol) constructor: "Invalid socket." */
  datatype CreateError = InvalidSocket

  /** `socket()`: a new handle holding no descriptor. */
  function Construct(w: World, id: Id): (r: World)
    requires id !in w.handles
    ensures r.handles == w.handles[id := NoDescriptor] && r.open == w.open
  {
    World(Handles.Construct(w.handles, id, NoDescriptor), w.open)
  }

  /** `socket(int)`: a new handle adopting a raw descriptor value as is. */
  function Adopt(w: World, id: Id, fd: int): (r: World)
    requires id !in w.handles
    ensures r.handles == w.handles[id := fd] && r.open == w.open
  {
    World(Handles.Construct(w.handles, id, fd), w.open)
  }

  /**
   * `socket(domain, type, protocol)`, where `osResult` is what `::socket`
   * returned: a negative result throws and no handle comes to life.
   */
  function Create(w: World, id: Id, osResult: int): (r: Result<World, CreateError>)
    requires id !in w.handles
    requires osResult >= 0 ==> osResult !in w.open
    ensures r.Err? <==> osResult < 0
    ensures r.Ok? ==> r.value.handles == w.handles[id := osResult] && r.value.open == w.open + {osResult}
  {
    if osResult < 0 then Err(InvalidSocket)
    else Ok(World(Handles.Construct(w.handles, id, osResult), w.open + {osResult}))
  }

  /** `operator const int()`: the handle's descriptor value; in a world with nothing dangling, a non-negative value is an open descriptor. */
  function Value(w: World, id: Id): (v: int)
    requires id in w.handles
    ensures NoDangling(w) && v >= 0 ==> v in w.open
  {
    w.handles[id]
  }

  /** `operator=(const socket&)`: copies the number, not the descriptor; the OS is not called. */
  function CopyAssign(w: World, dst: Id, src: Id): (r: World)
    requires dst in w.handles && src in w.handles
    ensures r.open == w.open && r.handles.Keys == w.handles.Keys
    ensures r.handles[dst] == w.handles[src]
    ensures forall i :: i in w.handles && i != dst ==> r.handles[i] == w.handles[i]
  {
    World(Handles.CopyAssign(w.handles, dst, src), w.open)
  }

  /** `operator=(socket&&)`: the number moves over and the source is left with `-1`; the OS is not called. */
  function MoveAssign(w: World, dst: Id, src: Id): (r: World)
    requires dst in w.handles && src in w.handles
    ensures r.open == w.open && r.handles.Keys == w.handles.Keys
    ensures dst == src ==> r == w
    ensures dst != src ==> r.handles[dst] == w.handles[src] && r.handles[src] == NoDescriptor
    ensures forall i :: i in w.handles && i != dst && i != src ==> r.handles[i] == w.handles[i]
  {
    World(Handles.MoveAssign(w.handles, dst, src, NoDescriptor), w.open)
  }

  /** Copy constructor `socket(const socket&)`. */
  function CopyConstruct(w: World, id: Id, other: Id): (r: World)
    requires id !in w.handles && other in w.handles
    ensures r.open == w.open && r.handles == w.handles[id := w.handles[other]]
  {
    World(Handles.CopyConstruct(w.handles, id, other, NoDescriptor), w.open)
  }

  /** Move constructor `socket(socket&&)`. */
  function MoveConstruct(w: World, id: Id, other: Id): (r: World)
    requires id !in w.handles && other in w.handles
    ensures r.open == w.open && r.handles == w.handles[id := w.handles[other]][other := NoDescriptor]
  {
    World(Handles.MoveConstruct(w.handles, id, other, NoDescriptor), w.open)
  }

  /** `int operator=(int)`: overwrites the number and returns it; the old descriptor is not closed. */
  function AssignRaw(w: World, dst: Id, fd: int): (r: (World, int))
    requires dst in w.handles
    ensures r.0.open == w.open && r.0.handles == w.handles[dst := fd]
    ensures r.1 == fd
  {
    (World(w.handles[dst := fd], w.open), fd)
  }

  /** `close()`: only a non-negative number is passed to `::close` and then reset to `-1`; a negative one is left as it is. */
  function Close(w: World, id: Id): (r: (World, Release))
    requires id in w.handles
    ensures w.handles[id] >= 0 ==> r.0.handles == w.handles[id := NoDescriptor]
    ensures w.handles[id] < 0 ==> r == (w, NoRelease)
    ensures w.handles[id] >= 0 && w.handles[id] in w.open ==>
      r.0.open == w.open - {w.handles[id]} && r.1 == Released(w.handles[id])
    ensures w.handles[id] >= 0 && w.handles[id] !in w.open ==>
      r.0.open == w.open && r.1 == StaleRelease(w.handles[id])
  {
    var fd := w.handles[id];
    if fd < 0 then (w, NoRelease)
    else if fd in w.open then (World(w.handles[id := NoDescriptor], w.open - {fd}), Released(fd))
    else (World(w.handles[id := NoDescriptor], w.open), StaleRelease(fd))
  }

  /** `~socket()`: `close()`, then the handle is gone. */
  function Destroy(w: World, id: Id): (r: (World, Release))
    requires id in w.handles
    ensures r.0.handles == w.handles - {id}
    ensures r.1 == Close(w, id).1 && r.0.open == Close(w, id).0.open
  {
    var (closed, release) := Close(w, id);
    (World(closed.handles - {id}, closed.open), release)
  }

  /** No two live handles hold the same descriptor. */
  predicate SoleOwners(w: World) {
    forall i, j :: i in w.handles && j in w.handles && i != j && w.handles[i] >= 0 ==> w.handles[i] != w.handles[j]
  }

  /** Every descriptor a live handle holds is open. */
  predicate NoDangling(w: World) {
    forall i :: i in w.handles && w.handles[i] >= 0 ==> w.handles[i] in w.open
  }

  /** Some live handle holds `fd`. */
  predicate Held(w: World, fd: int) {
    exists i :: i in w.handles && w.handles[i] == fd
  }

  /** Closing twice releases once: the second `close()` finds `-1` and changes nothing. */
  lemma CloseIsIdempotent(w: World, id: Id)
    requires id in w.handles
    ensures Close(w, id).0.handles[id] < 0
    ensures Close(Close(w, id).0, id) == (Close(w, id).0, NoRelease)
  {
  }

  /** A default-constructed handle owns nothing, and destroying it calls nothing. */
  lemma DefaultHandleReleasesNothing(w: World, id: Id)
    requires id !in w.handles
    ensures Value(Construct(w, id), id) == NoDescriptor
    ensures Destroy(Construct(w, id), id) == (w, NoRelease)
  {
    assert Construct(w, id).handles - {id} == w.handles;
  }

  /** With one owner per descriptor and none dangling, `close()` never hits a stale number and keeps both facts. */
  lemma CloseUnderSoleOwnership(w: World, id: Id)
    requires id in w.handles
    requires SoleOwners(w) && NoDangling(w)
    ensures !Close(w, id).1.StaleRelease?
    ensures SoleOwners(Close(w, id).0) && NoDangling(Close(w, id).0)
  {
    var r := Close(w, id).0;
    forall i | i in r.handles && r.handles[i] >= 0 ensures r.handles[i] in r.open {
      assert i != id;
    }
  }

  /**
   * Move assignment transfers ownership: the target holds the source's
   * descriptor, the source holds none, and single ownership is kept.
   */
  lemma MoveTransfersOwnership(w: World, dst: Id, src: Id)
    requires dst in w.handles && src in w.handles && dst != src
    requires SoleOwners(w) && NoDangling(w)
    ensures Value(MoveAssign(w, dst, src), dst) == Value(w, src)
    ensures Value(MoveAssign(w, dst, src), src) == NoDescriptor
    ensures SoleOwners(MoveAssign(w, dst, src)) && NoDangling(MoveAssign(w, dst, src))
  {
  }

  /**
   * Move assignment does not close the target's old descriptor: it stays open
   * with no live handle holding it, a leak.
   */
  lemma MoveAssignLeaksTarget(w: World, dst: Id, src: Id)
    requires dst in w.handles && src in w.handles && dst != src
    requires SoleOwners(w)
    requires w.handles[dst] >= 0 && w.handles[dst] in w.open
    ensures w.handles[dst] in MoveAssign(w, dst, src).open
    ensures !Held(MoveAssign(w, dst, src), w.handles[dst])
  {
    var r := MoveAssign(w, dst, src);
    var fd := w.handles[dst];
    forall i | i in r.handles ensures r.handles[i] != fd {
      if i != dst && i != src {
        assert r.handles[i] == w.handles[i];
      }
    }
  }

  /** Copying a handle that holds a descriptor gives two live handles on that one descriptor. */
  lemma CopyAliases(w: World, dst: Id, src: Id)
    requires dst in w.handles && src in w.handles && dst != src
    requires w.handles[src] >= 0
    ensures !SoleOwners(CopyAssign(w, dst, src))
  {
    var r := CopyAssign(w, dst, src);
    assert r.handles[dst] == r.handles[src];
  }

  /** After a copy, closing the source releases the descriptor and closing the copy releases it again. */
  lemma CopyThenDoubleRelease(w: World, dst: Id, src: Id)
    requires dst in w.handles && src in w.handles && dst != src
    requires w.handles[src] >= 0 && w.handles[src] in w.open
    ensures Close(CopyAssign(w, dst, src), src).1 == Released(w.handles[src])
    ensures Close(Close(CopyAssign(w, dst, src), src).0, dst).1 == StaleRelease(w.handles[src])
  {
  }

  /** A move-constructed handle owns the descriptor: destroying the moved-from one releases nothing. */
  lemma MoveConstructThenDestroySource(w: World, id: Id, other: Id)
    requires id !in w.handles && other in w.handles
    ensures Value(MoveConstruct(w, id, other), id) == Value(w, other)
    ensures Destroy(MoveConstruct(w, id, other), other).1 == NoRelease
    ensures Destroy(MoveConstruct(w, id, other), other).0.open == w.open
  {
  }

  /** Creating a socket on a fresh descriptor keeps single ownership and nothing dangling. */
  lemma CreateKeepsOwnership(w: World, id: Id, osResult: int)
    requires id !in w.handles && osResult >= 0 && osResult !in w.open
    requires SoleOwners(w) && NoDangling(w)
    ensures Create(w, id, osResult).Ok?
    ensures SoleOwners(Create(w, id, osResult).value) && NoDangling(Create(w, id, osResult).value)
  {
  }

  /**
   * Assigning a raw `int` does not close the old descriptor: it stays open
   * with no live handle holding it, a leak.
   */
  lemma AssignRawLeaks(w: World, dst: Id, fd: int)
    requires dst in w.handles && SoleOwners(w)
    requires w.handles[dst] >= 0 && w.handles[dst] in w.open && fd != w.handles[dst]
    ensures w.handles[dst] in AssignRaw(w, dst, fd).0.open
    ensures !Held(AssignRaw(w, dst, fd).0, w.handles[dst])
  {
    var r := AssignRaw(w, dst, fd).0;
    var old_fd := w.handles[dst];
    forall i | i in r.handles ensures r.handles[i] != old_fd {
      if i != dst {
        assert r.handles[i] == w.handles[i];
      }
    }
  }

  /**
   * The copy constructor aliases a held descriptor too: both handles hold it,
   * and the two destructors release it once and then again.
   */
  lemma CopyConstructAliases(w: World, id: Id, other: Id)
    requires id !in w.handles && other in w.handles
    requires w.handles[other] >= 0 && w.handles[other] in w.open
    ensures !SoleOwners(CopyConstruct(w, id, other))
    ensures Destroy(CopyConstruct(w, id, other), id).1 == Released(w.handles[other])
    ensures Destroy(Destroy(CopyConstruct(w, id, other), id).0, other).1 == StaleRelease(w.handles[other])
  {
    var r := CopyConstruct(w, id, other);
    assert r.handles[id] == r.handles[other];
  }

  /** Adopting an open descriptor that no handle holds keeps single ownership and nothing dangling. */
  lemma AdoptKeepsOwnership(w: World, id: Id, fd: int)
    requires id !in w.handles && fd in w.open && !Held(w, fd)
    requires SoleOwners(w) && NoDangling(w)
    ensures SoleOwners(Adopt(w, id, fd)) && NoDangling(Adopt(w, id, fd))
  {
    forall i | i in w.handles ensures w.handles[i] != fd {
    }
  }
}
