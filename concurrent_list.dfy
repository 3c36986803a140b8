/** The generic list `ConcurrentListT[T]`: an element sequence guarded by a mutex and a
    notification channel of capacity one. Each public method runs under the mutex, so each is
    one atomic step here; the lock itself is not modelled. Element equality is Dafny's `==`. */
module ConcurrentList {
  import opened Wrappers
  import opened ListSpec

  class ConcurrentListT<T(==)> {
    /** The list's elements, in insertion order. */
    var data: seq<T>
    /** The one slot of the notification channel: the event waiting to be received, if any. */
    var pending: Option<ChangeType>

    /** `NewListT`: an empty list with an empty channel. */
    constructor ()
      ensures data == [] && pending == None
    {
      data := [];
      pending := None;
    }

    /** Non-blocking send: an empty slot takes `t`; a full one is left alone and `t` is lost. */
    method NotifyItemChanged(t: ChangeType)
      modifies this
      ensures pending == Notified(old(pending), t)
      ensures old(pending).None? ==> pending == Some(t)
      ensures old(pending).Some? ==> pending == old(pending)
      ensures data == old(data)
    {
      if pending.None? {
        pending := Some(t);
      }
    }

    /** Appends `v` and announces `Add`. */
    method Add(v: T)
      modifies this
      ensures data == old(data) + [v]
      ensures pending == Notified(old(pending), ChangeType.Add)
    {
      data := data + [v];
      NotifyItemChanged(ChangeType.Add);
    }

    /** Appends all of `vs` in order and announces `Add` once. */
    method AddRange(vs: seq<T>)
      modifies this
      ensures data == old(data) + vs
      ensures pending == Notified(old(pending), ChangeType.Add)
    {
      data := data + vs;
      NotifyItemChanged(ChangeType.Add);
    }

    /** Empties the list and announces `Remove`; an event already in the slot stays there. */
    method Clear()
      modifies this
      ensures data == []
      ensures pending == Notified(old(pending), ChangeType.Remove)
    {
      data := [];
      NotifyItemChanged(ChangeType.Remove);
    }

    /** Removes the first element equal to `v`, reporting whether there was one, and announces
        `Remove` in either case. */
    method Remove(v: T) returns (found: bool)
      modifies this
      ensures found <==> v in old(data)
      ensures data == RemoveFirst(old(data), v)
      ensures found ==> (|data| == |old(data)| - 1
                         && multiset(old(data)) == multiset(data) + multiset{v})
      ensures !found ==> data == old(data)
      ensures pending == Notified(old(pending), ChangeType.Remove)
    {
      found := RemoveWithoutLock(v);
      if found {
        RemoveFirstMultiset(old(data), v);
      }
      NotifyItemChanged(ChangeType.Remove);
    }

    /** One pass over the elements copies all but the first one equal to `v`; the copy replaces
        the list only when such an element was found. */
    method RemoveWithoutLock(v: T) returns (found: bool)
      modifies this
      ensures found <==> v in old(data)
      ensures found ==> data == old(data)[..FirstIndex(old(data), v)]
                             + old(data)[FirstIndex(old(data), v) + 1..]
      ensures !found ==> data == old(data)
      ensures data == RemoveFirst(old(data), v)
      ensures pending == old(pending)
    {
      var newslice: seq<T> := [];
      var isexist := false;
      ghost var k: nat := 0;
      for i := 0 to |data|
        invariant isexist <==> v in data[..i]
        invariant isexist ==> k < i && data[k] == v && v !in data[..k]
                              && newslice == data[..k] + data[k + 1..i]
        invariant !isexist ==> newslice == data[..i]
      {
        var d := data[i];
        if d == v && !isexist {
          isexist := true;
          k := i;
        } else {
          newslice := newslice + [d];
        }
        assert data[..i + 1] == data[..i] + [d];
      }
      assert data[..|data|] == data;
      if isexist {
        RemoveFirstSplice(data, v);
        data := newslice;
        return true;
      }
      return false;
    }

    /** Cuts out the `count` elements starting at `index` and announces `Remove`. Go panics
        unless both slice bounds are within the list. */
    method RemoveRange(index: int, count: int)
      requires 0 <= index <= |data|
      requires 0 <= index + count <= |data|
      modifies this
      ensures data == WithoutRange(old(data), index, count)
      ensures pending == Notified(old(pending), ChangeType.Remove)
    {
      RemoveRangeWithoutLock(index, count);
      NotifyItemChanged(ChangeType.Remove);
    }

    /** Rebuilds the list from the slice before `index` and the slice from `index + count`. */
    method RemoveRangeWithoutLock(index: int, count: int)
      requires 0 <= index <= |data|
      requires 0 <= index + count <= |data|
      modifies this
      ensures data == WithoutRange(old(data), index, count)
      ensures 0 <= count ==> |data| == |old(data)| - count
      ensures pending == old(pending)
    {
      var newslice: seq<T> := [];
      newslice := newslice + data[0..index];
      newslice := newslice + data[index + count..|data|];
      data := newslice;
    }

    /** `Get`: the lookup of `GetWithoutLock` under the lock. */
    method Get(index: int) returns (r: Result<T, ListError>)
      requires 0 <= index
      ensures r.Success? <==> index < |data|
      ensures index < |data| ==> r.value == data[index]
      ensures |data| <= index ==> r.error == OutOfBound(index, |data|)
    {
      r := GetWithoutLock(index);
    }

    /** The element at `index`, or `OutOfBound` carrying `index` and the length when `index` is
        past the end. Go panics on a negative index. */
    method GetWithoutLock(index: int) returns (r: Result<T, ListError>)
      requires 0 <= index
      ensures r.Success? <==> index < |data|
      ensures index < |data| ==> r.value == data[index]
      ensures |data| <= index ==> r.error == OutOfBound(index, |data|)
    {
      if |data| <= index {
        return Failure(OutOfBound(index, |data|));
      }
      return Success(data[index]);
    }

    /** All elements, in order, without changing the list. */
    method GetAll() returns (r: seq<T>)
      ensures r == data
    {
      r := data;
    }

    /** Reads the element at `index` and removes the first element equal to it, under one
        lock. With a reflexive equality the `RemoveFail` branch cannot be taken: the value just
        read is in the list. Go's `reflect.DeepEqual` is not reflexive on a NaN or a non-nil
        func value, and for those `Take` does reach `RemoveFail`. */
    method Take(index: int) returns (r: Result<T, ListError>)
      requires 0 <= index
      modifies this
      ensures |old(data)| <= index ==> r == Failure(OutOfBound(index, |old(data)|)) && data == old(data)
      ensures index < |old(data)| ==> (r == Success(old(data)[index])
                                       && data == RemoveFirst(old(data), old(data)[index]))
      ensures index < |old(data)| ==> (FirstIndex(old(data), old(data)[index]) <= index
                                       && |data| == |old(data)| - 1)
      ensures pending == old(pending)
    {
      var got := GetWithoutLock(index);
      if got.Failure? {
        return got;
      }
      var d := got.value;
      TakeRemovesFirstEqual(data, index);
      var removed := RemoveWithoutLock(d);
      if !removed {
        assert false;
        return Failure(RemoveFail);
      }
      return Success(d);
    }

    /** Hands over every element and leaves the list empty, under one lock. */
    method TakeAll() returns (r: seq<T>)
      modifies this
      ensures r == old(data)
      ensures data == []
      ensures pending == old(pending)
    {
      r := data;
      data := [];
    }
  }
}
