/** Client call sequences on the list that state its observable behaviour: what a caller
    sees through `GetAll`, `Get`, `Take` and the notification slot after a series of calls. */
module Scenarios {
  import opened Wrappers
  import opened ListSpec
  import opened ConcurrentList

  /** Adding values one at a time keeps them in call order. */
  method AddsInOrder<T(==)>(vs: seq<T>) returns (r: seq<T>)
    ensures r == vs
  {
    var list := new ConcurrentListT<T>();
    for i := 0 to |vs|
      invariant list.data == vs[..i]
    {
      list.Add(vs[i]);
      assert vs[..i + 1] == vs[..i] + [vs[i]];
    }
    assert vs[..|vs|] == vs;
    r := list.GetAll();
  }

  /** With `v` in the list exactly twice, `Remove(v)` succeeds twice and then reports that
      nothing was found; what is left is the list with both copies out. */
  method RemoveTwiceThenMiss<T(==)>(s: seq<T>, v: T) returns (first: bool, second: bool, third: bool, rest: seq<T>)
    requires multiset(s)[v] == 2
    ensures first && second && !third
    ensures |rest| == |s| - 2 && v !in rest
    ensures multiset(rest) == multiset(s) - multiset{v, v}
  {
    var list := new ConcurrentListT<T>();
    list.AddRange(s);
    assert list.data == s;
    assert v in s;
    RemoveFirstMultiset(s, v);
    var s1 := RemoveFirst(s, v);
    first := list.Remove(v);
    RemoveFirstStillContains(s, v);
    RemoveFirstMultiset(s1, v);
    second := list.Remove(v);
    assert multiset(list.data)[v] == 0;
    third := list.Remove(v);
    rest := list.GetAll();
  }

  /** `Get(i)` and `Take(i)` both fail with the index and the length for every `i` at or past
      the end, also on an empty list, and leave the list as it was. */
  method OutOfRangeFails<T(==)>(s: seq<T>, i: int) returns (got: Result<T, ListError>, taken: Result<T, ListError>, rest: seq<T>)
    requires |s| <= i
    ensures got == Failure(OutOfBound(i, |s|))
    ensures taken == Failure(OutOfBound(i, |s|))
    ensures rest == s
  {
    var list := new ConcurrentListT<T>();
    list.AddRange(s);
    got := list.Get(i);
    taken := list.Take(i);
    rest := list.GetAll();
  }

  /** After `Take(i)` the list holds the other elements (the same values as the list without
      position `i`) with one element fewer. */
  method TakeThenGetAll<T(==)>(s: seq<T>, i: int) returns (taken: Result<T, ListError>, rest: seq<T>)
    requires 0 <= i < |s|
    ensures taken == Success(s[i])
    ensures |rest| == |s| - 1
    ensures multiset(rest) == multiset(s[..i] + s[i + 1..])
  {
    var list := new ConcurrentListT<T>();
    list.AddRange(s);
    assert list.data == s;
    TakeRemovesFirstEqual(s, i);
    taken := list.Take(i);
    rest := list.GetAll();
  }

  /** `Take(2)` on `[1, 2, 1]` returns 1 and leaves `[2, 1]`: the earlier copy goes, so the
      order of what remains is not that of the list with position 2 deleted. */
  method TakeReorders() returns (taken: Result<int, ListError>, rest: seq<int>)
    ensures taken == Success(1)
    ensures rest == [2, 1]
    ensures rest != [1, 2]
  {
    var list := new ConcurrentListT<int>();
    list.AddRange([1, 2, 1]);
    taken := list.Take(2);
    assert RemoveFirst([1, 2, 1], 1) == [2, 1];
    rest := list.GetAll();
  }

  /** `TakeAll` returns exactly the previous contents and `GetAll` then sees an empty list. */
  method TakeAllThenGetAll<T(==)>(s: seq<T>) returns (taken: seq<T>, rest: seq<T>)
    ensures taken == s
    ensures rest == []
  {
    var list := new ConcurrentListT<T>();
    list.AddRange(s);
    taken := list.TakeAll();
    rest := list.GetAll();
  }

  /** `Clear` does not drain the slot: after `Add(x)` and `Clear()` with nobody receiving, the
      list is empty but the slot still holds the `Add` event, and the `Remove` is lost. */
  method ClearKeepsStaleAdd<T(==)>(x: T) returns (slot: Option<ChangeType>, rest: seq<T>)
    ensures slot == Some(ChangeType.Add)
    ensures rest == []
  {
    var list := new ConcurrentListT<T>();
    list.Add(x);
    list.Clear();
    slot := list.pending;
    rest := list.GetAll();
  }

  /** `Take`, `TakeAll` and `Get` leave the slot alone: once a receiver has taken the `Add`
      event of `AddRange`, the slot stays empty whatever is read or taken afterwards. */
  method ReadsKeepSlot<T(==)>(s: seq<T>, i: int) returns (slot: Option<ChangeType>)
    requires 0 <= i
    ensures slot == None
  {
    var list := new ConcurrentListT<T>();
    list.AddRange(s);
    // a receiver takes the pending event
    list.pending := None;
    var got := list.Get(i);
    var taken := list.Take(i);
    var all := list.TakeAll();
    slot := list.pending;
  }
}
