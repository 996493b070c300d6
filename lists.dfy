/**
 * The three array primitives the route handlers apply to a user's `pendingTasks`:
 * `indexOf`, an append guarded by `indexOf` finding nothing, and a one-element
 * `splice` at the first occurrence.
 */
module Lists {

  /** No element occurs twice. */
  predicate NoDup<T(==,!new)>(s: seq<T>) {
    forall i, j :: 0 <= i < j < |s| ==> s[i] != s[j]
  }

  /** `Array.prototype.indexOf`: the first position of `x` in `s`, or -1 when it is absent. */
  function IndexOf<T(==,!new)>(s: seq<T>, x: T): (i: int)
    ensures -1 <= i < |s|
    ensures i == -1 <==> x !in s
    ensures 0 <= i ==> s[i] == x && x !in s[..i]
  {
    if |s| == 0 then -1
    else if s[0] == x then 0
    else
      var j := IndexOf(s[1..], x);
      if j == -1 then -1
      else
        assert s[..j + 1] == [s[0]] + s[1..][..j];
        j + 1
  }

  /** The guarded `push`: append `x` unless `indexOf` already finds it. */
  function AddIfAbsent<T(==,!new)>(s: seq<T>, x: T): (r: seq<T>)
    ensures |r| == if x in s then |s| else |s| + 1
    ensures r[..|s|] == s
    ensures x in r
    ensures forall y :: y in r <==> y in s || y == x
    ensures multiset(r)[x] == if x in s then multiset(s)[x] else 1
  {
    if IndexOf(s, x) == -1 then s + [x] else s
  }

  /** The one-element `splice` at the position `indexOf` finds: drop the first occurrence of `x`. */
  function RemoveFirst<T(==,!new)>(s: seq<T>, x: T): (r: seq<T>)
    ensures x !in s ==> r == s
    ensures x in s ==> exists i :: 0 <= i < |s| && s[i] == x && x !in s[..i] && r == s[..i] + s[i + 1..]
    ensures x in s ==> |r| == |s| - 1
    ensures multiset(r) == multiset(s) - multiset{x}
    ensures forall y :: y != x ==> (y in r <==> y in s)
  {
    var i := IndexOf(s, x);
    if i > -1 then
      assert s == s[..i] + [s[i]] + s[i + 1..];
      assert multiset(s) == multiset(s[..i]) + multiset{x} + multiset(s[i + 1..]);
      s[..i] + s[i + 1..]
    else s
  }

  /** In a list without duplicates, a present element occurs exactly once. */
  lemma {:induction false} NoDupOccursOnce<T(!new)>(s: seq<T>, x: T)
    requires NoDup(s) && x in s
    ensures multiset(s)[x] == 1
  {
    assert s == [s[0]] + s[1..];
    assert NoDup(s[1..]) by {
      forall i, j | 0 <= i < j < |s[1..]| ensures s[1..][i] != s[1..][j] {
        assert s[1..][i] == s[i + 1] && s[1..][j] == s[j + 1];
      }
    }
    if s[0] == x {
      assert x !in s[1..] by {
        forall k | 0 <= k < |s[1..]| ensures s[1..][k] != x {
          assert s[1..][k] == s[k + 1];
        }
      }
    } else {
      NoDupOccursOnce(s[1..], x);
    }
  }

  /** Appending an absent element keeps a duplicate-free list duplicate-free. */
  lemma AddIfAbsentKeepsNoDup<T(!new)>(s: seq<T>, x: T)
    requires NoDup(s)
    ensures NoDup(AddIfAbsent(s, x))
    ensures multiset(AddIfAbsent(s, x))[x] == 1
  {
    if x in s {
      NoDupOccursOnce(s, x);
    } else {
      var r := s + [x];
      forall i, j | 0 <= i < j < |r| ensures r[i] != r[j] {
        if j == |s| {
          assert r[i] == s[i];
        }
      }
    }
  }

  /**
   * Splicing out the first occurrence keeps a duplicate-free list duplicate-free and
   * leaves no occurrence of the removed element behind.
   */
  lemma RemoveFirstKeepsNoDup<T(!new)>(s: seq<T>, x: T)
    requires NoDup(s)
    ensures NoDup(RemoveFirst(s, x))
    ensures x !in RemoveFirst(s, x)
  {
  }

  /**
   * On a duplicate-free list a second `RemoveFirst` of the same element is a no-op,
   * so one removal and two removals leave the same list.
   */
  lemma RemoveFirstTwice<T(!new)>(s: seq<T>, x: T)
    requires NoDup(s)
    ensures RemoveFirst(RemoveFirst(s, x), x) == RemoveFirst(s, x)
  {
    RemoveFirstKeepsNoDup(s, x);
  }

  /** Removing what was just appended restores the list. */
  lemma RemoveFirstUndoesAdd<T(!new)>(s: seq<T>, x: T)
    requires x !in s
    ensures RemoveFirst(AddIfAbsent(s, x), x) == s
  {
  }

  /** Adding an element that is already present changes nothing, so adding is idempotent. */
  lemma AddIfAbsentIdempotent<T(!new)>(s: seq<T>, x: T)
    ensures AddIfAbsent(AddIfAbsent(s, x), x) == AddIfAbsent(s, x)
  {
  }
}
