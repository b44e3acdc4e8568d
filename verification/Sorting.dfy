/** Python's `sorted` on a set: the one ascending sequence with the given elements. */
module Sorting {
  ghost predicate StrictTotal<T(!new)>(less: (T, T) -> bool) {
    && (forall a :: !less(a, a))
    && (forall a, b :: a != b ==> less(a, b) || less(b, a))
    && (forall a, b, c :: less(a, b) && less(b, c) ==> less(a, c))
  }

  ghost predicate Ascending<T>(less: (T, T) -> bool, s: seq<T>) {
    forall i, j :: 0 <= i < j < |s| ==> less(s[i], s[j])
  }

  ghost function Elements<T>(s: seq<T>): set<T> {
    set x | x in s
  }

  ghost predicate IsLeast<T>(less: (T, T) -> bool, x: T, xs: set<T>) {
    x in xs && forall y :: y in xs && y != x ==> less(x, y)
  }

  lemma LeastExists<T(!new)>(less: (T, T) -> bool, xs: set<T>)
    requires StrictTotal(less) && xs != {}
    ensures exists x :: IsLeast(less, x, xs)
  {
    var y :| y in xs;
    if xs == {y} {
      assert IsLeast(less, y, xs);
    } else {
      LeastExists(less, xs - {y});
      var x :| IsLeast(less, x, xs - {y});
      assert IsLeast(less, if less(x, y) then x else y, xs);
    }
  }

  lemma LeastFirst<T>(less: (T, T) -> bool, x: T, xs: set<T>, rest: seq<T>)
    requires IsLeast(less, x, xs) && Ascending(less, rest) && Elements(rest) == xs - {x}
    ensures Ascending(less, [x] + rest) && Elements([x] + rest) == xs
  {
    forall i | 0 <= i < |rest| ensures less(x, rest[i]) {
      assert rest[i] in Elements(rest);
    }
    assert Elements([x] + rest) == {x} + Elements(rest);
  }

  ghost function Sorted<T(!new)>(less: (T, T) -> bool, xs: set<T>): (s: seq<T>)
    requires StrictTotal(less)
    ensures Ascending(less, s)
    ensures Elements(s) == xs
    ensures |s| == |xs|
  {
    if xs == {} then
      []
    else
      LeastExists(less, xs);
      var x :| IsLeast(less, x, xs);
      var rest := Sorted(less, xs - {x});
      LeastFirst(less, x, xs, rest);
      [x] + rest
  }

  /** Two ascending sequences with the same elements are equal. */
  lemma {:induction false} AscendingUnique<T(!new)>(less: (T, T) -> bool, s: seq<T>, t: seq<T>)
    requires StrictTotal(less)
    requires Ascending(less, s) && Ascending(less, t)
    requires Elements(s) == Elements(t)
    ensures s == t
  {
    assert forall x :: x in s <==> x in Elements(s);
    assert forall x :: x in t <==> x in Elements(t);
    assert s != [] ==> s[0] in t;
    assert t != [] ==> t[0] in s;
    if s != [] {
      assert s[0] in Elements(t) && t[0] in Elements(s);
      assert s[0] == t[0];
      TailElements(less, s);
      TailElements(less, t);
      AscendingUnique(less, s[1..], t[1..]);
    }
  }

  lemma TailElements<T(!new)>(less: (T, T) -> bool, s: seq<T>)
    requires StrictTotal(less) && Ascending(less, s) && s != []
    ensures Ascending(less, s[1..])
    ensures Elements(s[1..]) == Elements(s) - {s[0]}
  {
    forall x | x in Elements(s) - {s[0]} ensures x in s[1..] {
      var i :| 0 <= i < |s| && s[i] == x;
      assert s[1..][i - 1] == x;
    }
  }

  lemma SortedIs<T(!new)>(less: (T, T) -> bool, s: seq<T>)
    requires StrictTotal(less) && Ascending(less, s)
    ensures Sorted(less, Elements(s)) == s
  {
    AscendingUnique(less, Sorted(less, Elements(s)), s);
  }

  /** `list.sort` on distinct items, by insertion. */
  method Sort<T(!new)>(less: (T, T) -> bool, items: seq<T>) returns (s: seq<T>)
    requires StrictTotal(less)
    requires forall i, j :: 0 <= i < j < |items| ==> items[i] != items[j]
    ensures s == Sorted(less, Elements(items))
  {
    s := [];
    for n := 0 to |items|
      invariant Ascending(less, s)
      invariant Elements(s) == Elements(items[..n])
    {
      var x := items[n];
      assert x !in s by {
        assert forall y :: y in s ==> y in Elements(s);
        assert x !in items[..n];
      }
      var k := 0;
      while k < |s| && less(s[k], x)
        invariant 0 <= k <= |s|
        invariant forall i :: 0 <= i < k ==> less(s[i], x)
      {
        k := k + 1;
      }
      InsertAscending(less, s, x, k);
      assert Elements(items[..n + 1]) == Elements(items[..n]) + {x} by {
        assert items[..n + 1] == items[..n] + [x];
      }
      s := s[..k] + [x] + s[k..];
    }
    assert items[..|items|] == items;
    SortedIs(less, s);
  }

  lemma InsertAscending<T(!new)>(less: (T, T) -> bool, s: seq<T>, x: T, k: nat)
    requires StrictTotal(less) && Ascending(less, s) && x !in s && k <= |s|
    requires forall i :: 0 <= i < k ==> less(s[i], x)
    requires k < |s| ==> !less(s[k], x)
    ensures Ascending(less, s[..k] + [x] + s[k..])
    ensures Elements(s[..k] + [x] + s[k..]) == Elements(s) + {x}
  {
    forall i | k <= i < |s| ensures less(x, s[i]) {
      assert s[k] != x && less(x, s[k]);
    }
    assert s == s[..k] + s[k..];
  }

  /** The elements of a set as a list, in whatever order Python's hash table gives. */
  method ToList<T(!new,==)>(xs: set<T>) returns (items: seq<T>)
    ensures Elements(items) == xs
    ensures forall i, j :: 0 <= i < j < |items| ==> items[i] != items[j]
  {
    items := [];
    var left := xs;
    while left != {}
      invariant Elements(items) + left == xs && Elements(items) !! left
      invariant forall i, j :: 0 <= i < j < |items| ==> items[i] != items[j]
      decreases left
    {
      var x :| x in left;
      assert forall i :: 0 <= i < |items| ==> items[i] in Elements(items);
      assert Elements(items + [x]) == Elements(items) + {x};
      items := items + [x];
      left := left - {x};
    }
  }
}
