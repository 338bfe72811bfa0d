/** The two list operations the fixed-columns list of a spreadsheet view
    undergoes when a column is fixed or unfixed: removing every occurrence of
    a column, and the fix/unfix toggle of the header's context menu. */
module FixedColumns {

  /** The list without any occurrence of `x`, the others in their order
      (`List.removeAll` with a single element). */
  function RemoveAll<T(==)>(s: seq<T>, x: T): (r: seq<T>)
    ensures multiset(r) == multiset(s)[x := 0]
    ensures x !in r
  {
    if s == [] then []
    else
      assert s == [s[0]] + s[1..];
      if s[0] == x then RemoveAll(s[1..], x) else [s[0]] + RemoveAll(s[1..], x)
  }

  /** Removal works position by position: removing from a concatenation is
      concatenating the removals, so the entries kept stay in their order. */
  lemma {:induction false} RemoveAllConcat<T>(a: seq<T>, b: seq<T>, x: T)
    ensures RemoveAll(a + b, x) == RemoveAll(a, x) + RemoveAll(b, x)
    decreases |a|
  {
    if a == [] {
      assert a + b == b;
    } else {
      assert (a + b)[0] == a[0] && (a + b)[1..] == a[1..] + b;
      RemoveAllConcat(a[1..], b, x);
    }
  }

  /** A list that does not hold `x` is left exactly as it was. */
  lemma {:induction false} RemoveAllAbsent<T>(s: seq<T>, x: T)
    requires x !in s
    ensures RemoveAll(s, x) == s
    decreases |s|
  {
    if s != [] {
      assert s[0] != x && x !in s[1..];
      RemoveAllAbsent(s[1..], x);
    }
  }

  /** Removing twice is removing once. */
  lemma RemoveAllIdempotent<T>(s: seq<T>, x: T)
    ensures RemoveAll(RemoveAll(s, x), x) == RemoveAll(s, x)
  {
  }

  /** The context-menu toggle: unfix when the column is in the list, fix
      (append it) otherwise. */
  function Toggle<T(==)>(s: seq<T>, x: T): (r: seq<T>)
    ensures x in r <==> x !in s
    ensures multiset(r)[x := 0] == multiset(s)[x := 0]
  {
    if x in s then RemoveAll(s, x) else s + [x]
  }

  /** Toggling twice starting from "not fixed" gives back the very same list. */
  lemma ToggleTwiceUnfixed<T>(s: seq<T>, x: T)
    requires x !in s
    ensures Toggle(Toggle(s, x), x) == s
  {
    RemoveAllConcat(s, [x], x);
    RemoveAllAbsent(s, x);
    assert RemoveAll([x], x) == [];
  }

  /** Toggling twice starting from "fixed" gives back membership only: the
      column ends up once, at the end of the list, other entries in their
      order. */
  lemma ToggleTwiceFixed<T>(s: seq<T>, x: T)
    requires x in s
    ensures x in Toggle(Toggle(s, x), x)
    ensures Toggle(Toggle(s, x), x) == RemoveAll(s, x) + [x]
    ensures multiset(Toggle(Toggle(s, x), x))[x] == 1
  {
  }

  /** ... so the list itself need not come back: with columns 1 and 2 fixed
      in that order, toggling 1 twice leaves them in the order 2, 1. */
  lemma ToggleTwiceReorders()
    ensures Toggle(Toggle([1, 2], 1), 1) == [2, 1] != [1, 2]
  {
  }
}
