/** Sorting by a total order, and the lexicographic order on texts. */
module Sorting {
  ghost predicate TotalPreorder<T(!new)>(le: (T, T) -> bool) {
    && (forall x, y :: le(x, y) || le(y, x))
    && (forall x, y, z :: le(x, y) && le(y, z) ==> le(x, z))
  }

  ghost predicate TotalOrder<T(!new)>(le: (T, T) -> bool) {
    TotalPreorder(le) && forall x, y :: le(x, y) && le(y, x) ==> x == y
  }

  ghost predicate Sorted<T>(s: seq<T>, le: (T, T) -> bool) {
    forall i, j :: 0 <= i < j < |s| ==> le(s[i], s[j])
  }

  function Insert<T>(x: T, s: seq<T>, le: (T, T) -> bool): seq<T> {
    if s == [] || le(x, s[0]) then [x] + s else [s[0]] + Insert(x, s[1..], le)
  }

  function Sort<T>(s: seq<T>, le: (T, T) -> bool): seq<T> {
    if s == [] then [] else Insert(s[0], Sort(s[1..], le), le)
  }

  ghost predicate Below<T>(x: T, s: seq<T>, le: (T, T) -> bool) {
    forall y :: y in s ==> le(x, y)
  }

  lemma SortedCons<T(!new)>(x: T, s: seq<T>, le: (T, T) -> bool)
    ensures Sorted([x] + s, le) <==> Below(x, s, le) && Sorted(s, le)
  {
    var t := [x] + s;
    if Sorted(t, le) {
      forall y | y in s ensures le(x, y) {
        var i :| 0 <= i < |s| && s[i] == y;
        assert le(t[0], t[i + 1]);
      }
      forall i, j | 0 <= i < j < |s| ensures le(s[i], s[j]) {
        assert le(t[i + 1], t[j + 1]);
      }
    }
  }

  lemma {:induction false} InsertIsSorted<T(!new)>(x: T, s: seq<T>, le: (T, T) -> bool)
    requires TotalPreorder(le) && Sorted(s, le)
    ensures Sorted(Insert(x, s, le), le) && multiset(Insert(x, s, le)) == multiset(s) + multiset{x}
  {
    if s == [] {
    } else if le(x, s[0]) {
      SortedCons(x, s, le);
    } else {
      assert s == [s[0]] + s[1..];
      InsertIsSorted(x, s[1..], le);
      SortedCons(s[0], s[1..], le);
      forall y | y in Insert(x, s[1..], le) ensures le(s[0], y) {
        assert y in multiset(Insert(x, s[1..], le));
      }
      SortedCons(s[0], Insert(x, s[1..], le), le);
    }
  }

  lemma {:induction false} SortIsSorted<T(!new)>(s: seq<T>, le: (T, T) -> bool)
    requires TotalPreorder(le)
    ensures Sorted(Sort(s, le), le) && multiset(Sort(s, le)) == multiset(s)
  {
    if s != [] {
      assert s == [s[0]] + s[1..];
      SortIsSorted(s[1..], le);
      InsertIsSorted(s[0], Sort(s[1..], le), le);
    }
  }

  lemma {:induction false} SortedIsUnique<T(!new)>(a: seq<T>, b: seq<T>, le: (T, T) -> bool)
    requires TotalOrder(le) && Sorted(a, le) && Sorted(b, le) && multiset(a) == multiset(b)
    ensures a == b
  {
    if a == [] {
      assert |multiset(b)| == 0;
    } else {
      assert |multiset(a)| == |multiset(b)|;
      SameHead(a, b, le);
      assert a == [a[0]] + a[1..] && b == [b[0]] + b[1..];
      assert multiset(a[1..]) == multiset(a) - multiset{a[0]} == multiset(b) - multiset{b[0]} == multiset(b[1..]);
      SortedIsUnique(a[1..], b[1..], le);
    }
  }

  lemma SameHead<T(!new)>(a: seq<T>, b: seq<T>, le: (T, T) -> bool)
    requires TotalOrder(le) && Sorted(a, le) && Sorted(b, le) && multiset(a) == multiset(b) && a != [] && b != []
    ensures a[0] == b[0]
  {
    assert a[0] in multiset(b) && b[0] in multiset(a);
    var i :| 0 <= i < |b| && b[i] == a[0];
    var j :| 0 <= j < |a| && a[j] == b[0];
    assert le(b[0], b[i]) && le(a[0], a[j]);
  }

  /** Sorting forgets the order its input came in. */
  lemma SortForgetsOrder<T(!new)>(a: seq<T>, b: seq<T>, le: (T, T) -> bool)
    requires TotalOrder(le) && multiset(a) == multiset(b)
    ensures Sort(a, le) == Sort(b, le)
  {
    SortIsSorted(a, le);
    SortIsSorted(b, le);
    SortedIsUnique(Sort(a, le), Sort(b, le), le);
  }

  // A sequence without its j-th element.
  function Without<T>(s: seq<T>, j: nat): (rest: seq<T>)
    requires j < |s|
    ensures |rest| == |s| - 1
  {
    s[..j] + s[j + 1..]
  }

  lemma WithoutOne<T>(s: seq<T>, j: nat)
    requires j < |s|
    ensures multiset(s) == multiset(Without(s, j)) + multiset{s[j]}
    ensures multiset(Without(s, j)) == multiset(s) - multiset{s[j]}
  {
    assert s == s[..j] + [s[j]] + s[j + 1..];
  }

  // ----- Texts -----

  // A string is compared by its UTF-16 code units.
  type CodeUnit = x: int | 0 <= x < 0x1_0000

  type Text = seq<CodeUnit>

  predicate TextLe(a: Text, b: Text) {
    a == [] || (b != [] && (a[0] < b[0] || (a[0] == b[0] && TextLe(a[1..], b[1..]))))
  }

  lemma {:induction false} TextLeIsTotal(a: Text, b: Text)
    ensures TextLe(a, b) || TextLe(b, a)
    ensures TextLe(a, b) && TextLe(b, a) ==> a == b
  {
    if a != [] && b != [] {
      TextLeIsTotal(a[1..], b[1..]);
      assert a == [a[0]] + a[1..] && b == [b[0]] + b[1..];
    }
  }

  lemma {:induction false} TextLeIsTransitive(a: Text, b: Text, c: Text)
    requires TextLe(a, b) && TextLe(b, c)
    ensures TextLe(a, c)
  {
    if a != [] && b != [] && c != [] && a[0] == b[0] == c[0] {
      TextLeIsTransitive(a[1..], b[1..], c[1..]);
    }
  }

  /** Code-unit order is a total order: it depends on no locale. */
  lemma TextOrderIsTotal()
    ensures TotalOrder(TextLe)
  {
    forall a, b ensures (TextLe(a, b) || TextLe(b, a)) && (TextLe(a, b) && TextLe(b, a) ==> a == b) {
      TextLeIsTotal(a, b);
    }
    forall a, b, c | TextLe(a, b) && TextLe(b, c) ensures TextLe(a, c) {
      TextLeIsTransitive(a, b, c);
    }
  }
}
