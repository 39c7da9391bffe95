/**
 * `scoped_resource<T, A...>`: the constructor runs the initializer on the
 * arguments and stores what it returns; the destructor hands that stored
 * value to the finalizer. Copy and move are deleted, so the one object is the
 * only holder of the resource from construction to destruction, and its
 * whole life is a single scope. A scope is modelled by the trace of calls it
 * makes to the initializer, the accessors and the finalizer.
 */
module ScopedResource {
  import opened Wrappers

  /** One observable step of a scoped resource's life. */
  datatype Event<A, T> =
    | Initialized(args: A)  // `finit_(args...)` was called
    | Read(resource: T)     // `get()` returned this value
    | Finalized(resource: T) // `final_(resource_)` was called

  /** A constructed `scoped_resource`: the stored `resource_`. */
  datatype Scoped<T> = Scoped(resource: T)

  /** `get()` and `operator T()`: the stored resource, unchanged. */
  function Get<T>(s: Scoped<T>): T {
    s.resource
  }

  /** `get<Y>()`: the stored resource through `static_cast<Y>`, given as `cast`. */
  function GetAs<T, Y>(s: Scoped<T>, cast: T -> Y): (y: Y)
    ensures y == cast(Get(s))
  {
    cast(s.resource)
  }

  /**
   * The body of the scope: each use reads the resource through `get()` and
   * either yields a result or throws (`None`), which ends the body early.
   * Returns the values the reads returned and the results obtained.
   */
  function UseAll<T, R>(s: Scoped<T>, uses: seq<T -> Option<R>>): (out: (seq<T>, seq<R>))
    ensures |out.1| <= |out.0| <= |uses|
    ensures |out.0| == |uses| || |out.0| == |out.1| + 1
    ensures forall k :: 0 <= k < |out.0| ==> out.0[k] == Get(s)
    ensures forall k :: 0 <= k < |out.1| ==> uses[k](Get(s)) == Some(out.1[k])
    ensures |out.1| < |uses| ==> uses[|out.1|](Get(s)).None? && |out.0| == |out.1| + 1
    decreases |uses|
  {
    if |uses| == 0 then ([], [])
    else match uses[0](Get(s))
      case None => ([Get(s)], [])
      case Some(v) =>
        var rest := UseAll(s, uses[1..]);
        ([Get(s)] + rest.0, [v] + rest.1)
  }

  /**
   * A whole scope: construct with `finit` on `args`, run the uses, destroy.
   * When the initializer throws (`None`) no object exists, so nothing is read
   * and the finalizer is never called.
   */
  function Scope<A, T, R>(finit: A -> Option<T>, args: A, uses: seq<T -> Option<R>>): (out: (seq<Event<A, T>>, seq<R>))
    ensures |out.0| >= 1 && out.0[0] == Initialized(args)
    ensures |out.0| == 1 <==> finit(args).None?
    ensures |out.1| <= |uses|
  {
    match finit(args)
    case None => ([Initialized(args)], [])
    case Some(res) =>
      var body := UseAll(Scoped(res), uses);
      var readEvents := seq(|body.0|, k requires 0 <= k < |body.0| => Read(body.0[k]));
      ([Initialized(args)] + readEvents + [Finalized(res)], body.1)
  }

  /**
   * The life cycle a scoped resource promises: the initializer runs exactly
   * once, first; the finalizer runs exactly once, last, on the very value
   * the initializer returned, and not at all if the initializer threw; every
   * read sees that same value; the uses are applied in order to it, and a use
   * that throws still leads to the finalizer.
   */
  lemma ScopeLifecycle<A, T, R>(finit: A -> Option<T>, args: A, uses: seq<T -> Option<R>>)
    ensures |Scope(finit, args, uses).0| >= 1 && Scope(finit, args, uses).0[0] == Initialized(args)
    ensures forall k :: 0 < k < |Scope(finit, args, uses).0| ==> !Scope(finit, args, uses).0[k].Initialized?
    ensures finit(args).None? ==>
      Scope(finit, args, uses) == ([Initialized(args)], [])
    ensures finit(args).Some? ==>
      var ev := Scope(finit, args, uses).0;
      ev[|ev| - 1] == Finalized(finit(args).value) &&
      (forall k :: 0 <= k < |ev| - 1 ==> !ev[k].Finalized?) &&
      (forall k :: 0 <= k < |ev| && ev[k].Read? ==> ev[k].resource == finit(args).value)
    ensures finit(args).Some? ==>
      var rs := Scope(finit, args, uses).1;
      |rs| <= |uses| &&
      (forall k :: 0 <= k < |rs| ==> uses[k](finit(args).value) == Some(rs[k])) &&
      (|rs| < |uses| ==> uses[|rs|](finit(args).value).None?)
  {
    if finit(args).Some? {
      var res := finit(args).value;
      var body := UseAll(Scoped(res), uses);
      var readEvents: seq<Event<A, T>> := seq(|body.0|, k requires 0 <= k < |body.0| => Read(body.0[k]));
      var ev := Scope(finit, args, uses).0;
      assert ev == [Initialized(args)] + readEvents + [Finalized(res)];
      forall k | 0 < k < |ev| - 1 ensures ev[k] == Read(res) {
        assert ev[k] == readEvents[k - 1];
      }
    }
  }

  /**
   * Inside a scope, at every read, `get()` returns the value the initializer
   * stored and `get<Y>()` returns its cast.
   */
  lemma ReadsInScope<A, T, R, Y>(finit: A -> Option<T>, args: A, uses: seq<T -> Option<R>>, cast: T -> Y)
    requires finit(args).Some?
    ensures forall k :: 0 <= k < |Scope(finit, args, uses).0| && Scope(finit, args, uses).0[k].Read? ==>
      && Get(Scoped(Scope(finit, args, uses).0[k].resource)) == finit(args).value
      && GetAs(Scoped(Scope(finit, args, uses).0[k].resource), cast) == cast(finit(args).value)
  {
    ScopeLifecycle(finit, args, uses);
  }
}
