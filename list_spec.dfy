/** Value-level specification of the concurrent list: what each operation does to the
    element sequence and to the one-slot notification buffer. */
module ListSpec {
  import opened Wrappers

  /** The kind of change a mutator announces on the notification channel. */
  datatype ChangeType = Add | Remove

  /** Errors returned by `Get` and `Take`. `OutOfBound` carries the requested index and the
      length of the list at the time of the call; `RemoveFail` is the internal-consistency
      error of `Take`. */
  datatype ListError = OutOfBound(index: int, length: nat) | RemoveFail

  // ---------------------------------------------------------------------------
  // Removing the first occurrence of a value

  /** Position of the first element equal to `v`. */
  function FirstIndex<T(==)>(s: seq<T>, v: T): (k: nat)
    requires v in s
    ensures k < |s| && s[k] == v
    ensures forall j :: 0 <= j < k ==> s[j] != v
  {
    if s[0] == v then 0 else 1 + FirstIndex(s[1..], v)
  }

  /** The sequence with its first element equal to `v` left out; `s` itself when `v` does
      not occur. This is what one pass of the Go removal loop builds. */
  function RemoveFirst<T(==)>(s: seq<T>, v: T): (r: seq<T>)
    ensures v !in s ==> r == s
    ensures v in s ==> |r| == |s| - 1
  {
    if s == [] then []
    else if s[0] == v then s[1..]
    else
      assert v in s <==> v in s[1..] by {
        assert s == [s[0]] + s[1..];
      }
      [s[0]] + RemoveFirst(s[1..], v)
  }

  /** Only the first occurrence goes: the result is `s` with position `FirstIndex(s, v)` left
      out, so earlier elements, later copies of `v` and the order all stay. */
  lemma {:induction false} RemoveFirstSplice<T>(s: seq<T>, v: T)
    requires v in s
    ensures RemoveFirst(s, v) == s[..FirstIndex(s, v)] + s[FirstIndex(s, v) + 1..]
  {
    if s[0] != v {
      assert s == [s[0]] + s[1..];
      assert v in s[1..];
      RemoveFirstSplice(s[1..], v);
      var k := FirstIndex(s[1..], v);
      assert s[..k + 1] == [s[0]] + s[1..][..k];
      assert s[k + 2..] == s[1..][k + 1..];
    }
  }

  /** Removing the first occurrence takes exactly one copy of `v` out of the multiset of
      elements and shortens the list by one; every other value keeps its count. */
  lemma RemoveFirstMultiset<T>(s: seq<T>, v: T)
    requires v in s
    ensures |RemoveFirst(s, v)| == |s| - 1
    ensures multiset(s) == multiset(RemoveFirst(s, v)) + multiset{v}
    ensures multiset(RemoveFirst(s, v))[v] == multiset(s)[v] - 1
  {
    var k := FirstIndex(s, v);
    var r := RemoveFirst(s, v);
    RemoveFirstSplice(s, v);
    assert r == s[..k] + s[k + 1..];
    MultisetWithoutAt(s, k);
    assert multiset(s) == multiset(r) + multiset{v};
  }

  /** A value that does not occur leaves the sequence as it is, and a value occurs again after
      one removal exactly when it occurred at least twice. */
  lemma RemoveFirstStillContains<T>(s: seq<T>, v: T)
    ensures v in RemoveFirst(s, v) <==> multiset(s)[v] >= 2
  {
    if v in s {
      RemoveFirstMultiset(s, v);
      assert v in RemoveFirst(s, v) <==> multiset(RemoveFirst(s, v))[v] > 0;
    } else {
      assert multiset(s)[v] == 0;
    }
  }

  /** Removal skips a prefix that does not contain `v`. */
  lemma {:induction false} RemoveFirstSkipsPrefix<T>(a: seq<T>, b: seq<T>, v: T)
    requires v !in a
    ensures RemoveFirst(a + b, v) == a + RemoveFirst(b, v)
    decreases |a|
  {
    if a != [] {
      assert (a + b)[0] == a[0];
      assert (a + b)[1..] == a[1..] + b;
      RemoveFirstSkipsPrefix(a[1..], b, v);
      assert a == [a[0]] + a[1..];
    } else {
      assert a + b == b;
    }
  }

  /** A second removal of the same value takes out the next occurrence: it leaves the part
      before the first occurrence alone and removes the first `v` of the part after it, and it
      finds one exactly when `v` occurs after its first occurrence. */
  lemma RemoveFirstNext<T>(s: seq<T>, v: T)
    requires v in s
    ensures v !in s[..FirstIndex(s, v)]
    ensures v in RemoveFirst(s, v) <==> v in s[FirstIndex(s, v) + 1..]
    ensures RemoveFirst(RemoveFirst(s, v), v)
         == s[..FirstIndex(s, v)] + RemoveFirst(s[FirstIndex(s, v) + 1..], v)
  {
    var k := FirstIndex(s, v);
    RemoveFirstSplice(s, v);
    RemoveFirstSkipsPrefix(s[..k], s[k + 1..], v);
  }

  /** Deleting position `i` takes one copy of `s[i]` out of the multiset of elements. */
  lemma MultisetWithoutAt<T>(s: seq<T>, i: nat)
    requires i < |s|
    ensures multiset(s) == multiset(s[..i] + s[i + 1..]) + multiset{s[i]}
  {
    assert s == s[..i] + [s[i]] + s[i + 1..];
  }

  /** Adding the same element to two multisets keeps them apart: equal sums mean equal parts. */
  lemma MultisetCancel<T>(a: multiset<T>, b: multiset<T>, v: T)
    requires a + multiset{v} == b + multiset{v}
    ensures a == b
  {
    assert a == a + multiset{v} - multiset{v};
  }

  /** `Take(i)` looks up `s[i]` and then removes the first element equal to it: that element
      is at an index not after `i`, the list shrinks by one, and the remaining values form the
      same multiset as deleting position `i` itself. When no earlier element equals `s[i]` the
      result is exactly `s` without position `i`. */
  lemma TakeRemovesFirstEqual<T>(s: seq<T>, i: nat)
    requires i < |s|
    ensures s[i] in s && FirstIndex(s, s[i]) <= i
    ensures |RemoveFirst(s, s[i])| == |s| - 1
    ensures multiset(RemoveFirst(s, s[i])) == multiset(s[..i] + s[i + 1..])
    ensures FirstIndex(s, s[i]) == i ==> RemoveFirst(s, s[i]) == s[..i] + s[i + 1..]
  {
    var v := s[i];
    RemoveFirstSplice(s, v);
    RemoveFirstMultiset(s, v);
    MultisetWithoutAt(s, i);
    MultisetCancel(multiset(RemoveFirst(s, v)), multiset(s[..i] + s[i + 1..]), v);
  }

  /** `Take` is not positional: on `[1, 2, 1]`, taking index 2 removes the 1 at index 0, so the
      rest is `[2, 1]` rather than `[1, 2]`. */
  lemma TakeMayRemoveEarlierCopy()
    ensures RemoveFirst([1, 2, 1], 1) == [2, 1]
    ensures RemoveFirst([1, 2, 1], 1) != [1, 2, 1][..2] + [1, 2, 1][3..]
  {
    var s := [1, 2, 1];
    assert s[1..] == [2, 1];
    assert s[..2] + s[3..] == [1, 2];
  }

  // ---------------------------------------------------------------------------
  // Cutting out a contiguous range

  /** `s` with the `count` elements starting at `index` cut out, as two Go slice
      expressions append them. The bounds are the ones under which the slicing does not panic;
      they admit a negative `count`, which copies elements instead of cutting them. */
  function WithoutRange<T>(s: seq<T>, index: int, count: int): (r: seq<T>)
    requires 0 <= index <= |s|
    requires 0 <= index + count <= |s|
    ensures |r| == |s| - count
    ensures forall j :: 0 <= j < index ==> r[j] == s[j]
    ensures forall j :: index <= j < |r| ==> r[j] == s[j + count]
  {
    s[..index] + s[index + count..]
  }

  /** For a non-negative `count`, cutting out a range removes exactly the elements of that
      range from the multiset of elements and keeps the rest in order around the cut. */
  lemma WithoutRangeMultiset<T>(s: seq<T>, index: int, count: int)
    requires 0 <= index && 0 <= count && index + count <= |s|
    ensures multiset(s) == multiset(WithoutRange(s, index, count)) + multiset(s[index..index + count])
  {
    assert s == s[..index] + s[index..index + count] + s[index + count..];
  }

  /** A negative `count` that the slicing accepts duplicates elements:
      `RemoveRange(2, -1)` on `[1, 2, 3]` leaves `[1, 2, 2, 3]`. */
  lemma NegativeCountDuplicates()
    ensures WithoutRange([1, 2, 3], 2, -1) == [1, 2, 2, 3]
  {
  }

  // ---------------------------------------------------------------------------
  // The one-slot notification channel

  /** The slot after a non-blocking send of `t`: an empty slot takes the event, a full one
      keeps its event and `t` is dropped. */
  function Notified(slot: Option<ChangeType>, t: ChangeType): (r: Option<ChangeType>)
    ensures r.Some?
    ensures slot.Some? ==> r == slot
    ensures slot.None? ==> r.value == t
  {
    if slot.None? then Some(t) else slot
  }

  /** The slot after the events `ts` are sent in order with no receive in between. */
  function NotifyAll(slot: Option<ChangeType>, ts: seq<ChangeType>): (r: Option<ChangeType>)
    decreases |ts|
  {
    if ts == [] then slot else NotifyAll(Notified(slot, ts[0]), ts[1..])
  }

  /** Sends coalesce: with no receiver, a full slot keeps its event whatever follows, and an
      empty slot ends up holding the first event sent, all later ones being dropped. */
  lemma {:induction false} NotifyAllKeepsEarliest(slot: Option<ChangeType>, ts: seq<ChangeType>)
    ensures slot.Some? ==> NotifyAll(slot, ts) == slot
    ensures slot.None? && ts != [] ==> NotifyAll(slot, ts) == Some(ts[0])
    ensures slot.None? && ts == [] ==> NotifyAll(slot, ts) == None
    decreases |ts|
  {
    if ts != [] {
      NotifyAllKeepsEarliest(Notified(slot, ts[0]), ts[1..]);
    }
  }
}
