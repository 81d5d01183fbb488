/** The base observer registry of an observable sequence: an ordered list of
    subscribed observers and a one-way disposed flag. Observers are opaque
    values of an equality type O; the registry never calls them. Equality of O
    stands for the default equality the list uses to find an observer
    (Object.Equals, which is reference identity unless an observer class
    overrides it). */
module Observables {
  import opened ObserverList

  /** The one error the registry raises itself. */
  datatype Error = ObjectDisposed

  /** Outcome of the disposed-state guard. */
  datatype Outcome = Pass | Fail(error: Error)

  /** Outcome of a subscription: a handle, or the error that refused it. */
  datatype Result<T> = Ok(value: T) | Err(error: Error)

  class AbstractObservable<O(==)> {
    /** The subscribed observers, in the order of their subscriptions. */
    var observers: seq<O>
    var disposed: bool

    /** A new registry has no observers and is not disposed. */
    constructor ()
      ensures observers == [] && !disposed
    {
      observers := [];
      disposed := false;
    }

    /** The observer list, for broadcasting by derived observables: every
        current entry, in subscription order. */
    function Observers(): (r: seq<O>)
      reads this
      ensures r == observers
    {
      observers
    }

    /** Marks the registry disposed; the observer list is left as it is.
        Disposing again changes nothing. */
    method Dispose()
      modifies this
      ensures disposed
      ensures observers == old(observers)
    {
      disposed := true;
    }

    /** Fails with ObjectDisposed exactly when the registry is disposed. */
    method CheckDisposed() returns (r: Outcome)
      ensures r == Fail(ObjectDisposed) <==> disposed
      ensures r == Pass <==> !disposed
    {
      if disposed {
        return Fail(ObjectDisposed);
      }
      return Pass;
    }

    /** Refuses a disposed registry and leaves it untouched; otherwise appends
        the observer at the end and returns a fresh handle whose release
        removes that observer from this registry. */
    method Subscribe(observer: O) returns (r: Result<Subscription<O>>)
      modifies this
      ensures disposed == old(disposed)
      ensures old(disposed) ==> r == Err(ObjectDisposed) && observers == old(observers)
      ensures !old(disposed) ==> r.Ok? && fresh(r.value)
      ensures !old(disposed) ==> r.value.owner == this && r.value.observer == observer
      ensures !old(disposed) ==> observers == old(observers) + [observer]
    {
      var check := CheckDisposed();
      if check.Fail? {
        return Err(check.error);
      }
      observers := observers + [observer];
      var handle := new Subscription(this, observer);
      return Ok(handle);
    }
  }

  /** The handle a subscription returns: it remembers the registry and the
      observer, and its release deletes the first entry of the registry equal
      to that observer. It does not look at the disposed flag and keeps no
      record of an earlier release. */
  class Subscription<O(==)> {
    const owner: AbstractObservable<O>
    const observer: O

    constructor (owner: AbstractObservable<O>, observer: O)
      ensures this.owner == owner && this.observer == observer
    {
      this.owner := owner;
      this.observer := observer;
    }

    method Dispose()
      modifies owner
      ensures owner.observers == RemoveFirst(old(owner.observers), observer)
      ensures owner.disposed == old(owner.disposed)
    {
      owner.observers := RemoveFirst(owner.observers, observer);
    }
  }

  /** Subscribing an observer and releasing its handle gives back the same
      observers with the same multiplicities, and exactly the same list when
      the observer was not subscribed already. If it was, its earliest entry
      moves to the end. On a disposed registry the subscription is refused and
      nothing changes. */
  method SubscribeThenRelease<O(==)>(registry: AbstractObservable<O>, o: O)
    modifies registry
    ensures registry.disposed == old(registry.disposed)
    ensures multiset(registry.observers) == multiset(old(registry.observers))
    ensures o !in old(registry.observers) ==> registry.observers == old(registry.observers)
    ensures old(registry.disposed) ==> registry.observers == old(registry.observers)
    ensures !old(registry.disposed) && o in old(registry.observers) ==>
              registry.observers == RemoveFirst(old(registry.observers), o) + [o]
  {
    ghost var before := registry.observers;
    var r := registry.Subscribe(o);
    if r.Ok? {
      r.value.Dispose();
      AppendThenRemoveMultiset(before, o);
      if o !in before {
        AppendThenRemoveAbsent(before, o);
      } else {
        AppendThenRemovePresent(before, o);
      }
    }
  }

  /** Observers reports the entries in the order they subscribed. */
  method SubscriptionOrder<O(==)>(a: O, b: O, c: O) returns (view: seq<O>)
    ensures view == [a, b, c]
  {
    var registry := new AbstractObservable<O>();
    var ra := registry.Subscribe(a);
    var rb := registry.Subscribe(b);
    var rc := registry.Subscribe(c);
    view := registry.Observers();
  }

  /** Once disposed, every subscription is refused and the list stays as it
      was when the registry was disposed. */
  method SubscribeAfterDispose<O(==)>(a: O, b: O) returns (first: Result<Subscription<O>>, second: Result<Subscription<O>>, view: seq<O>)
    ensures first == Err(ObjectDisposed) && second == Err(ObjectDisposed)
    ensures view == [a]
  {
    var registry := new AbstractObservable<O>();
    var ra := registry.Subscribe(a);
    registry.Dispose();
    first := registry.Subscribe(b);
    registry.Dispose();
    second := registry.Subscribe(b);
    view := registry.Observers();
  }

  /** A handle obtained before disposal still removes its observer afterwards. */
  method ReleaseAfterDispose<O(==)>(a: O, b: O) returns (view: seq<O>, disposed: bool)
    ensures view == [b] && disposed
  {
    var registry := new AbstractObservable<O>();
    var ra := registry.Subscribe(a);
    var rb := registry.Subscribe(b);
    registry.Dispose();
    ra.value.Dispose();
    view := registry.Observers();
    disposed := registry.disposed;
  }

  /** An observer subscribed twice occupies two entries; releasing the LATER
      handle deletes the EARLIER entry, which moves the observer behind the
      ones subscribed in between. (When a == b the result is [a, a] as well.) */
  method ReleaseDuplicate<O(==)>(a: O, b: O) returns (view: seq<O>)
    ensures view == [b, a]
  {
    var registry := new AbstractObservable<O>();
    var r1 := registry.Subscribe(a);
    var r2 := registry.Subscribe(b);
    var r3 := registry.Subscribe(a);
    r3.value.Dispose();
    view := registry.Observers();
  }
}
