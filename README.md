# ConcurrentListT in Dafny

A model of the generic list `ConcurrentListT[T]` of `collections/concurrent/concurrentlistT.go`
(package `concurrent` of utils-go/ngo). The list keeps its elements in a slice guarded by a mutex.
Every `Add`, `AddRange`, `Clear`, `Remove` and `RemoveRange` call announces itself on a buffered
channel of capacity one, sending without blocking; `Remove` does so even when it found nothing.

- `wrappers.dfy` (module `Wrappers`): `Option` (the channel slot) and `Result` (Go's
  `(T, error)` pairs).
- `list_spec.dfy` (module `ListSpec`): the value-level meaning of the operations. `FirstIndex`
  and `RemoveFirst` give "remove the first equal element", `WithoutRange` cuts out a range, and
  `Notified`/`NotifyAll` give the non-blocking send into the one-slot buffer. The lemmas
  about them are here too.
- `concurrent_list.dfy` (module `ConcurrentList`): class `ConcurrentListT<T(==)>` with the
  fields `data: seq<T>` and `pending: Option<ChangeType>` (the channel's single slot). There
  is one method per modelled Go method, the `...WithoutLock` helpers included. Each public
  method is one atomic step, because the mutex only serialises them. `RemoveWithoutLock` keeps the Go loop: it copies elements into `newslice`
  and flips `isexist`, and its invariants prove it equals `RemoveFirst`.
- `scenarios.dfy` (module `Scenarios`): client call sequences on fresh lists. They state what callers
  see after a series of calls: call order after adds, what repeated `Remove` does, out-of-range
  `Get`/`Take`, what `Take` and `TakeAll` leave behind, and the slot after `Clear`.

`ChangeType = Add | Remove` stands for the package's `changeType` with its `add` and `remove`
constants. Those are declared outside the modelled file. Element comparison
(`reflect.DeepEqual`) is Dafny's `==` on `T(==)`.

Some of the code's behaviour differs from what a caller might expect of a producer/consumer list;
the model follows the code:

- A caller might expect `Clear` to discard a pending `Add`; it does not drain the slot before
  sending `Remove`. After `Add(x); Clear()` the slot still
  holds `Add`, so a waiter can be woken onto an empty list (`Scenarios.ClearKeepsStaleAdd`).
- `Take` and `TakeAll` send no notification (`Scenarios.ReadsKeepSlot`).
- `RemoveRange` does not return an out-of-range error. Out-of-range slicing panics in Go, so the
  slice bounds are its `requires`. Those bounds allow a negative `count` with
  `index + count >= 0`, and such a call duplicates elements instead of removing any
  (`ListSpec.NegativeCountDuplicates`).
- `Take(i)` removes the first element equal to `data[i]`, not position `i`. The remaining values
  are the same multiset as the list with position `i` deleted, but their order can differ:
  `[1, 2, 1]` with `Take(2)` leaves `[2, 1]` (`Scenarios.TakeReorders`).

## Model

| member | source | states |
|---|---|---|
| `ListSpec.FirstIndex` | collections/concurrent/concurrentlistT.go:67-69 | the index the removal loop matches: it holds `v` and no earlier element equals `v` |
| `ListSpec.RemoveFirst` | collections/concurrent/concurrentlistT.go:63-81 | if `v` is absent the sequence is unchanged; otherwise it is exactly one element shorter |
| `ListSpec.RemoveFirstSplice` | collections/concurrent/concurrentlistT.go:63-81 | when `v` occurs, the result is the sequence with only position `FirstIndex(s, v)` left out, so earlier elements, later copies of `v` and the order all stay |
| `ListSpec.RemoveFirstMultiset` | collections/concurrent/concurrentlistT.go:63-81 | a successful removal shortens the list by one and takes exactly one `v` out of its multiset |
| `ListSpec.RemoveFirstStillContains` | collections/concurrent/concurrentlistT.go:55-81 | `v` is still present after one removal exactly when it occurred at least twice |
| `ListSpec.RemoveFirstSkipsPrefix` | collections/concurrent/concurrentlistT.go:67-72 | elements before the first match are copied through unchanged: removal from `a + b` with `v` not in `a` is `a` followed by removal from `b` |
| `ListSpec.RemoveFirstNext` | collections/concurrent/concurrentlistT.go:55-81 | a second `Remove(v)` leaves everything before the first occurrence alone and removes the first `v` after it, and it finds one exactly when `v` occurs after the first occurrence |
| `ListSpec.TakeRemovesFirstEqual` | collections/concurrent/concurrentlistT.go:121-133 | `Take(i)` removes the first element equal to `s[i]`, at an index not after `i`; the length drops by one; the remaining multiset is that of `s` without position `i`; it is positional when no earlier element equals `s[i]` |
| `ListSpec.TakeMayRemoveEarlierCopy` | collections/concurrent/concurrentlistT.go:125-129 | on `[1, 2, 1]`, index 2, the 1 at index 0 is removed: the result is `[2, 1]`, not the list without position 2 |
| `ListSpec.WithoutRange` | collections/concurrent/concurrentlistT.go:90-96 | the cut list has `|s| - count` elements: the first `index` as in `s`, every later one shifted by `count` |
| `ListSpec.WithoutRangeMultiset` | collections/concurrent/concurrentlistT.go:90-96 | for `count >= 0` exactly the elements `s[index..index+count]` leave the multiset |
| `ListSpec.NegativeCountDuplicates` | collections/concurrent/concurrentlistT.go:92-93 | the bounds Go accepts let `RemoveRange(2, -1)` turn `[1, 2, 3]` into `[1, 2, 2, 3]` |
| `ListSpec.Notified` | collections/concurrent/concurrentlistT.go:17-22 | after a send the slot is full; an event already there is kept and the new one dropped; an empty slot takes the new event |
| `ListSpec.NotifyAllKeepsEarliest` | collections/concurrent/concurrentlistT.go:17-22 | with no receiver, a full slot keeps its event through any sends, and an empty slot ends up holding the first event sent; all later events are dropped |
| `ConcurrentList.ConcurrentListT.constructor` | collections/concurrent/concurrentlistT.go:24-29 | a new list is empty and its channel slot is empty |
| `ConcurrentList.ConcurrentListT.NotifyItemChanged` | collections/concurrent/concurrentlistT.go:17-22 | an empty slot takes the event; a full slot is unchanged and the event is dropped; data is untouched |
| `ConcurrentList.ConcurrentListT.Add` | collections/concurrent/concurrentlistT.go:31-37 | `data == old(data) + [v]`, then an `Add` send |
| `ConcurrentList.ConcurrentListT.AddRange` | collections/concurrent/concurrentlistT.go:39-45 | `data == old(data) + vs`, then one `Add` send |
| `ConcurrentList.ConcurrentListT.Clear` | collections/concurrent/concurrentlistT.go:47-53 | data becomes empty, then a `Remove` send; the slot is not drained |
| `ConcurrentList.ConcurrentListT.Remove` | collections/concurrent/concurrentlistT.go:55-62 | returns whether `v` was present; data is `RemoveFirst(old(data), v)`; on success one `v` leaves the multiset and the length drops by one; a `Remove` send happens even when nothing was found |
| `ConcurrentList.ConcurrentListT.RemoveWithoutLock` | collections/concurrent/concurrentlistT.go:63-81 | the loop's result: true and `old[..k] + old[k+1..]` with `k` the first match, or false with data unchanged; the slot is untouched |
| `ConcurrentList.ConcurrentListT.RemoveRange` | collections/concurrent/concurrentlistT.go:83-89 | within the slice bounds, data is `WithoutRange(old(data), index, count)`, then a `Remove` send |
| `ConcurrentList.ConcurrentListT.RemoveRangeWithoutLock` | collections/concurrent/concurrentlistT.go:90-96 | data is `old[..index] + old[index+count..]`; for `count >= 0` it is `count` shorter; the slot is untouched |
| `ConcurrentList.ConcurrentListT.Get` | collections/concurrent/concurrentlistT.go:98-103 | for `index >= 0`: an error exactly when `index >= |data|`, carrying `index` and the length; otherwise `data[index]`; nothing changes |
| `ConcurrentList.ConcurrentListT.GetWithoutLock` | collections/concurrent/concurrentlistT.go:105-111 | the lookup `Get` and `Take` share: an error carrying `index` and the length exactly when `index >= |data|`, otherwise `data[index]`; nothing changes |
| `ConcurrentList.ConcurrentListT.GetAll` | collections/concurrent/concurrentlistT.go:113-118 | returns exactly the current elements and changes nothing |
| `ConcurrentList.ConcurrentListT.Take` | collections/concurrent/concurrentlistT.go:120-133 | past the end: the `Get` error and no change; otherwise `Success(old[index])`, data is `RemoveFirst(old, old[index])`, the removed copy is at an index not after `index`, and the length drops by one; with a reflexive equality the `"remove fail"` branch is proved unreachable (not so for NaN or func values under DeepEqual); the slot is untouched |
| `ConcurrentList.ConcurrentListT.TakeAll` | collections/concurrent/concurrentlistT.go:134-141 | returns exactly `old(data)` and leaves data empty; the slot is untouched |
| `Scenarios.AddsInOrder` | collections/concurrent/concurrentlistT.go:31-37 | after adding `vs` one by one, `GetAll` returns `vs` |
| `Scenarios.RemoveTwiceThenMiss` | collections/concurrent/concurrentlistT.go:55-81 | with `v` present exactly twice, `Remove(v)` returns true, true, then false, and both copies are gone |
| `Scenarios.OutOfRangeFails` | collections/concurrent/concurrentlistT.go:105-111 | `Get(i)` and `Take(i)` fail with `OutOfBound(i, |s|)` for every `i >= |s|`, also on an empty list, and the list is unchanged |
| `Scenarios.TakeThenGetAll` | collections/concurrent/concurrentlistT.go:121-133 | after `Take(i)` succeeds with `s[i]`, `GetAll` returns one element fewer, with the multiset of `s` without position `i` |
| `Scenarios.TakeReorders` | collections/concurrent/concurrentlistT.go:121-133 | `Take(2)` on `[1, 2, 1]` returns 1 and leaves `[2, 1]`, not `[1, 2]` |
| `Scenarios.TakeAllThenGetAll` | collections/concurrent/concurrentlistT.go:134-141 | `TakeAll` returns the previous contents, and `GetAll` afterwards returns an empty list |
| `Scenarios.ClearKeepsStaleAdd` | collections/concurrent/concurrentlistT.go:47-53 | after `Add(x); Clear()` with no receiver, the list is empty and the slot still holds `Add` |
| `Scenarios.ReadsKeepSlot` | collections/concurrent/concurrentlistT.go:99-141 | from an empty slot, `Get`, `Take` and `TakeAll` leave it empty: none of them sends |

## Left out

- The `sync.Mutex` (lines 13, 32-34 and the other lock calls). Each public method is one atomic step, and interleavings are not modelled. So the expectation that N concurrent `Add` calls lose no update is only covered in its sequential form (`Scenarios.AddsInOrder`).
- `TakeAllBlock` (lines 143-160). It starts a goroutine and races `ctx.Done()` against a channel, so its behaviour depends on Go scheduling. Receiving from the notification channel happens only there, so the class has no receive operation; the client call sequences model a receive by setting `pending` back to `None`.
- `reflect.DeepEqual` (line 68) is a library call. It is replaced by `==` on `T(==)`, so the model assumes DeepEqual coincides with a structural, reflexive equality on `T`. DeepEqual follows pointers, whereas Dafny's `==` on a class type compares identity, so reference-typed elements are compared structurally only in Go. DeepEqual is not reflexive for a NaN (`DeepEqual(NaN, NaN)` is false) or a non-nil func value. For such a value Go's `Remove` returns false even when the list holds it, so `Remove`'s `found <==> v in old(data)` does not hold there, and `Take(i)` on such an element reaches the `"remove fail"` branch and returns the value with that error.
- The error text built with `fmt.Sprintf` (line 108). The error is `OutOfBound(index, length)` instead.
- Go slice aliasing: `GetAll` and `TakeAll` return `c.data` itself. A Dafny `seq` is a value, so the caller gets a copy.
- Go slice capacity: `data[0:index]` is legal for `index` up to the capacity, not only the length. `RemoveRange` requires `index <= |data|`, because the model does not track capacity.
- Panics on a negative index in `Get`/`Take`, and on bad slice bounds in `RemoveRange`. These are `requires` clauses, not error results.
- ConcurrentList.ConcurrentListT.GetWithoutLock: on an error Go also returns the zero value of `T` (lines 106-108). The `Result` carries only the error.
- ConcurrentList.ConcurrentListT.Get: passes on the same (zero value, error) pair from `getWithoutLock`; the `Result` carries only the error.
- ConcurrentList.ConcurrentListT.Take: when the index is out of range Go passes on the same zero value with the error (lines 125-127); the `Result` carries only the error.
- ConcurrentList.ConcurrentListT.Take: in the `"remove fail"` branch Go returns the value it read together with the error. The model returns only `Failure(RemoveFail)` there, and that branch is proved unreachable.
