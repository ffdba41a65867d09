/** A stable insertion sort as a function: what `list.sort` promises, for any strict weak order. */
module StableSort {
  /** `before(a, b)`: `a` must come before `b`. */
  ghost predicate StrictWeakOrder<T(!new)>(before: (T, T) -> bool) {
    && (forall a, b :: before(a, b) ==> !before(b, a))
    && (forall a, b, c :: !before(a, b) && !before(b, c) ==> !before(a, c))
  }

  ghost predicate Sorted<T>(s: seq<T>, before: (T, T) -> bool) {
    forall i, j :: 0 <= i < j < |s| ==> !before(s[j], s[i])
  }

  function Insert<T>(x: T, s: seq<T>, before: (T, T) -> bool): (r: seq<T>)
    ensures |r| == |s| + 1 && multiset(r) == multiset(s) + multiset{x}
  {
    if s == [] then [x]
    else if before(x, s[0]) then [x] + s
    else
      assert s == [s[0]] + s[1..];
      [s[0]] + Insert(x, s[1..], before)
  }

  function Sort<T>(s: seq<T>, before: (T, T) -> bool): (r: seq<T>)
    ensures |r| == |s| && multiset(r) == multiset(s)
  {
    if s == [] then []
    else
      assert s == s[..|s| - 1] + [s[|s| - 1]];
      Insert(s[|s| - 1], Sort(s[..|s| - 1], before), before)
  }

  lemma {:induction false} InsertSorted<T(!new)>(x: T, s: seq<T>, before: (T, T) -> bool)
    requires StrictWeakOrder(before) && Sorted(s, before)
    ensures Sorted(Insert(x, s, before), before)
  {
    if s != [] {
      if before(x, s[0]) {
        assert forall j :: 0 <= j < |s| ==> !before(s[j], x);
      } else {
        InsertSorted(x, s[1..], before);
        var rest := Insert(x, s[1..], before);
        forall j | 0 <= j < |rest| ensures !before(rest[j], s[0]) {
          assert rest[j] in multiset(rest);
          assert rest[j] in multiset(s[1..]) + multiset{x};
        }
      }
    }
  }

  lemma {:induction false} SortSorted<T(!new)>(s: seq<T>, before: (T, T) -> bool)
    requires StrictWeakOrder(before)
    ensures Sorted(Sort(s, before), before)
  {
    if s != [] {
      SortSorted(s[..|s| - 1], before);
      InsertSorted(s[|s| - 1], Sort(s[..|s| - 1], before), before);
    }
  }
}
