# Observer registry of mono-reactive's AbstractObservable

This project models `AbstractObservable<T>`, the base observer registry of the
Reactive Extensions port in `System.Reactive.Linq`. A registry holds two
things: an ordered, mutable list of subscribed observers and a `disposed` flag.

- `Subscribe` throws `ObjectDisposedException` once the registry is disposed.
  Otherwise it appends the observer and returns a handle. Releasing the handle
  runs `observers.Remove(observer)`.
- `Dispose` only raises the flag.
- `Observers` exposes the list.

The model is imperative, like the source:

- `Observables.AbstractObservable` is a class with a `seq` field `observers`
  and a `bool` field `disposed`.
- `Observables.Subscription` is the handle that the release closure becomes.
  It holds the registry and the observer, and its `Dispose` mutates the
  registry.
- The exception is the `Err(ObjectDisposed)` case of a `Result`.
- Observers are opaque values of an equality type `O`. `List<T>.Remove`
  finds an observer with the default equality, `Object.Equals`. That is
  reference identity unless an observer class overrides `Equals`. Equality of
  `O` stands for that default equality.

`List<T>.Remove` deletes the first element equal to its argument and changes
nothing when there is none. In the model this is `ObserverList.RemoveFirst`,
defined as "index of first occurrence, then delete at that index"
(`ObserverList.FirstIndex`). The lemmas beside it state what removal does:

- the entries before and after the removed one
- the recursive reading of removal
- the multiset of the list
- relative order, as a subsequence
- the subscribe-then-release round trip

One might expect releasing a handle to remove exactly the entry that its own
subscription added. The code removes the *first* equal entry instead, and the
model follows the code. `ObserverList.AppendThenRemovePresent`
and `Observables.ReleaseDuplicate` show the difference: with `[a, b]`
subscribed, subscribing `a` again and releasing that newest handle leaves
`[b, a]`, not `[a, b]`. The multiset of observers is the same either way
(`ObserverList.AppendThenRemoveMultiset`); only the order differs.

## Model

| member | source | states |
|---|---|---|
| ObserverList.FirstIndex | System.Reactive/System.Reactive.Linq/Internal_AbstractObservable.cs:37 | the index at which `Remove` finds the observer: equal to it, with no earlier equal entry; the length of the list exactly when the observer is absent |
| ObserverList.RemoveFirst | System.Reactive/System.Reactive.Linq/Internal_AbstractObservable.cs:37 | removing an absent observer leaves the list unchanged; removing a present one shortens the list by exactly one |
| ObserverList.RemoveFirstAt | System.Reactive/System.Reactive.Linq/Internal_AbstractObservable.cs:37 | entries before the first occurrence stay at their positions (and differ from the observer); entries after it move up by one place |
| ObserverList.RemoveFirstCons | System.Reactive/System.Reactive.Linq/Internal_AbstractObservable.cs:37 | removal skips leading entries that differ from the observer and drops the first one equal to it |
| ObserverList.RemoveFirstMultiset | System.Reactive/System.Reactive.Linq/Internal_AbstractObservable.cs:37 | release takes exactly one copy of the observer out of the multiset when present, none when absent, and leaves every other observer's count unchanged |
| ObserverList.RemoveFirstIsSubsequence | System.Reactive/System.Reactive.Linq/Internal_AbstractObservable.cs:37 | the remaining entries keep their relative order: the result is a subsequence of the old list |
| ObserverList.AppendThenRemoveAbsent | System.Reactive/System.Reactive.Linq/Internal_AbstractObservable.cs:36-37 | subscribing an observer that is not yet in the list and then releasing it restores the list exactly |
| ObserverList.AppendThenRemovePresent | System.Reactive/System.Reactive.Linq/Internal_AbstractObservable.cs:36-37 | for an observer already in the list, append-then-remove deletes its earliest entry and keeps the new one at the end |
| ObserverList.AppendThenRemoveMultiset | System.Reactive/System.Reactive.Linq/Internal_AbstractObservable.cs:36-37 | append-then-remove always restores the multiset of observers |
| Observables.AbstractObservable.constructor | System.Reactive/System.Reactive.Linq/Internal_AbstractObservable.cs:14-16 | a new registry has an empty observer list and is not disposed |
| Observables.AbstractObservable.Observers | System.Reactive/System.Reactive.Linq/Internal_AbstractObservable.cs:18-20 | returns the current observer list as a value, every entry in subscription order (the live-list aliasing is left out) |
| Observables.AbstractObservable.Dispose | System.Reactive/System.Reactive.Linq/Internal_AbstractObservable.cs:22-25 | afterwards the registry is disposed and the observer list is unchanged; a second call changes nothing |
| Observables.AbstractObservable.CheckDisposed | System.Reactive/System.Reactive.Linq/Internal_AbstractObservable.cs:27-31 | fails with the disposed error if and only if the registry is disposed, and passes otherwise |
| Observables.AbstractObservable.Subscribe | System.Reactive/System.Reactive.Linq/Internal_AbstractObservable.cs:33-38 | on a disposed registry: fails with the disposed error and leaves the list unchanged. Otherwise: the new list is the old one plus the observer at the end, and the result is a fresh handle bound to this registry and observer. The flag never changes |
| Observables.Subscription.Dispose | System.Reactive/System.Reactive.Linq/Internal_AbstractObservable.cs:37 | the registry's new list is the old one with the first occurrence of the observer removed; the disposed flag is neither checked nor changed |
| Observables.SubscribeThenRelease | System.Reactive/System.Reactive.Linq/Internal_AbstractObservable.cs:33-38 | subscribe followed by release keeps the multiset of observers and the flag. It restores the list exactly if the observer was absent or the registry was disposed. If the observer was present on a live registry, its earliest entry moves to the end |
| Observables.SubscriptionOrder | System.Reactive/System.Reactive.Linq/Internal_AbstractObservable.cs:18-20 | `Observers` of a new registry after subscribing a, b, c is exactly [a, b, c], in subscription order |
| Observables.SubscribeAfterDispose | System.Reactive/System.Reactive.Linq/Internal_AbstractObservable.cs:22-31 | after `Dispose`, two later `Subscribe` calls, one of them after a second `Dispose`, both fail with the disposed error, and the list keeps the observer that subscribed before disposal. The general claim for every call is `Subscribe`'s own contract |
| Observables.ReleaseAfterDispose | System.Reactive/System.Reactive.Linq/Internal_AbstractObservable.cs:22-25 | a handle obtained before `Dispose` still removes its observer after it; the registry stays disposed |
| Observables.ReleaseDuplicate | System.Reactive/System.Reactive.Linq/Internal_AbstractObservable.cs:36-37 | after subscribing a, b, a, releasing the last handle leaves [b, a]: the earliest entry of a is removed |

## Left out

- `HotObservable<T>` and `ColdObservable<T>` (the rest of the same source file): they delegate to `ReplaySubject<T>`, `Subject<T>` and `IScheduler.Schedule`, which are not part of this model. Their replay, multicast and cold/hot behaviour lives in those classes.
- Scheduling and asynchrony: work handed to a scheduler may run on another thread; the model is sequential.
- Thread safety: the source's `List` is not synchronized. Concurrent subscribe and release are not modelled.
- Observables.Subscription.Dispose: idempotence is not modelled. `Disposable.Create` is not part of this model, so the handle keeps no released-once flag. A second release removes another equal entry if one exists.
- Observables.AbstractObservable.Observers: it returns a value copy of the list. The source returns the live `List` object, so later changes show through it; that aliasing is not modelled.
- Observer callbacks (`OnNext`, `OnError`, `OnCompleted`) and the element type `T`: the registry never calls them, so observers are opaque identities.
- The commented-out `TimerObservable`: dead code.
