// Sorting by a comparison, and the order of text the runtime compares by.
module Ordering {

  ghost predicate Total<T(!new)>(le: (T, T) -> bool) {
    && (forall a, b :: le(a, b) || le(b, a))
    && (forall a, b, c :: le(a, b) && le(b, c) ==> le(a, c))
  }

  predicate Sorted<T>(le: (T, T) -> bool, s: seq<T>) {
    forall i, j | 0 <= i < j < |s| :: le(s[i], s[j])
  }

  function Insert<T>(le: (T, T) -> bool, x: T, s: seq<T>): seq<T> {
    if s == [] || le(x, s[0]) then [x] + s else [s[0]] + Insert(le, x, s[1..])
  }

  // A stable sort.
  function Sort<T>(le: (T, T) -> bool, s: seq<T>): seq<T> {
    if s == [] then [] else Insert(le, s[0], Sort(le, s[1..]))
  }

  lemma {:induction false} InsertPermutes<T(!new)>(le: (T, T) -> bool, x: T, s: seq<T>)
    ensures multiset(Insert(le, x, s)) == multiset(s) + multiset{x}
  {
    if s != [] && !le(x, s[0]) {
      InsertPermutes(le, x, s[1..]);
      assert s == [s[0]] + s[1..];
    }
  }

  lemma {:induction false} InsertSorts<T(!new)>(le: (T, T) -> bool, x: T, s: seq<T>)
    requires Total(le) && Sorted(le, s)
    ensures Sorted(le, Insert(le, x, s))
  {
    if s != [] && !le(x, s[0]) {
      var rest := Insert(le, x, s[1..]);
      InsertSorts(le, x, s[1..]);
      InsertPermutes(le, x, s[1..]);
      forall y | y in rest
        ensures le(s[0], y)
      {
        assert y in multiset(s[1..]) + multiset{x};
        assert y == x || y in s[1..];
      }
    }
  }

  lemma {:induction false} SortSorts<T(!new)>(le: (T, T) -> bool, s: seq<T>)
    ensures multiset(Sort(le, s)) == multiset(s)
    ensures Total(le) ==> Sorted(le, Sort(le, s))
  {
    if s != [] {
      SortSorts(le, s[1..]);
      InsertPermutes(le, s[0], Sort(le, s[1..]));
      if Total(le) { InsertSorts(le, s[0], Sort(le, s[1..])); }
      assert s == [s[0]] + s[1..];
    }
  }

  // Only equal elements of `s` tie.
  predicate NoTies<T(==)>(le: (T, T) -> bool, s: seq<T>) {
    forall x, y | x in s && y in s && le(x, y) && le(y, x) :: x == y
  }

  lemma SameHead<T(!new)>(le: (T, T) -> bool, a: seq<T>, b: seq<T>)
    requires a != [] && b != [] && Sorted(le, a) && Sorted(le, b) && multiset(a) == multiset(b) && NoTies(le, a)
    ensures a[0] == b[0]
  {
    assert a[0] in multiset(b) && b[0] in multiset(a);
    var i :| 0 <= i < |b| && b[i] == a[0];
    var j :| 0 <= j < |a| && a[j] == b[0];
    if i > 0 && j > 0 {
      assert le(b[0], b[i]) && le(a[0], a[j]);
    }
  }

  lemma WithoutHead<T>(a: seq<T>)
    requires a != []
    ensures multiset(a[1..]) == multiset(a) - multiset{a[0]}
  {
    assert a == [a[0]] + a[1..];
  }

  // A sequence without its element at `i`.
  function Without<T>(s: seq<T>, i: nat): seq<T>
    requires i < |s|
  {
    s[..i] + s[i + 1..]
  }

  lemma WithoutOne<T>(s: seq<T>, i: nat)
    requires i < |s|
    ensures multiset(Without(s, i)) == multiset(s) - multiset{s[i]} && |Without(s, i)| == |s| - 1
  {
    assert s == s[..i] + [s[i]] + s[i + 1..];
  }

  lemma TakenApart<T>(s: seq<T>, i: nat)
    requires i < |s|
    ensures s == s[..i] + [s[i]] + s[i + 1..]
  {
  }

  lemma MiddleOut<T>(front: seq<T>, middle: seq<T>, back: seq<T>)
    ensures multiset(front + middle + back) == multiset(front + back) + multiset(middle)
  {
  }

  lemma Tails<T(!new)>(le: (T, T) -> bool, a: seq<T>, b: seq<T>)
    requires a != [] && b != [] && a[0] == b[0]
    requires Sorted(le, a) && Sorted(le, b) && multiset(a) == multiset(b) && NoTies(le, a)
    ensures Sorted(le, a[1..]) && Sorted(le, b[1..]) && multiset(a[1..]) == multiset(b[1..]) && NoTies(le, a[1..])
  {
    WithoutHead(a);
    WithoutHead(b);
    assert forall x | x in a[1..] :: x in a;
  }

  lemma {:induction false} SortedUnique<T(!new)>(le: (T, T) -> bool, a: seq<T>, b: seq<T>)
    requires Sorted(le, a) && Sorted(le, b) && multiset(a) == multiset(b) && NoTies(le, a)
    ensures a == b
  {
    assert |multiset(a)| == |a| && |multiset(b)| == |b|;
    if a != [] {
      SameHead(le, a, b);
      Tails(le, a, b);
      SortedUnique(le, a[1..], b[1..]);
      assert a == [a[0]] + a[1..] && b == [b[0]] + b[1..];
    }
  }

  // Without ties, the sorted order does not depend on the order of arrival.
  lemma SortOrderIndependent<T(!new)>(le: (T, T) -> bool, a: seq<T>, b: seq<T>)
    requires Total(le) && multiset(a) == multiset(b) && NoTies(le, a)
    ensures Sort(le, a) == Sort(le, b)
  {
    SortSorts(le, a);
    SortSorts(le, b);
    forall x | x in Sort(le, a)
      ensures x in a
    {
      assert x in multiset(a);
    }
    SortedUnique(le, Sort(le, a), Sort(le, b));
  }

  /* -------------------------------- text -------------------------------- */

  predicate TextLess(a: string, b: string) {
    if b == [] then false
    else if a == [] then true
    else a[0] < b[0] || (a[0] == b[0] && TextLess(a[1..], b[1..]))
  }

  lemma {:induction false} TextTrichotomy(a: string, b: string)
    ensures TextLess(a, b) || TextLess(b, a) || a == b
    ensures !(TextLess(a, b) && TextLess(b, a)) && !TextLess(a, a)
  {
    if a != [] && b != [] {
      assert a == [a[0]] + a[1..] && b == [b[0]] + b[1..];
      TextTrichotomy(a[1..], b[1..]);
    }
    if a != [] { TextTrichotomy(a[1..], a[1..]); }
  }

  predicate DiffersAt(a: string, b: string, k: nat) {
    k < |a| && k < |b| && a[..k] == b[..k] && a[k] < b[k]
  }

  // Where two texts first differ decides, and a proper prefix comes first.
  predicate PrefixOrDiffers(a: string, b: string) {
    (|a| < |b| && b[..|a|] == a) || exists k: nat | k < |a| :: DiffersAt(a, b, k)
  }

  lemma {:induction false} TextLessIff(a: string, b: string)
    ensures TextLess(a, b) <==> PrefixOrDiffers(a, b)
  {
    if a != [] && b != [] && a[0] == b[0] {
      TextLessIff(a[1..], b[1..]);
      SameStart(a, b);
    } else if a != [] && b != [] && a[0] < b[0] {
      assert DiffersAt(a, b, 0);
    } else if a != [] && b != [] {
      assert forall k: nat | 0 < k < |a| && k < |b| :: a[..k][0] == a[0] && b[..k][0] == b[0];
    } else if a == [] {
      assert b[..0] == a;
    }
  }

  lemma SameStart(a: string, b: string)
    requires a != [] && b != [] && a[0] == b[0]
    ensures PrefixOrDiffers(a, b) <==> PrefixOrDiffers(a[1..], b[1..])
  {
    assert a == [a[0]] + a[1..] && b == [b[0]] + b[1..];
    assert |a| <= |b| ==> b[..|a|] == [b[0]] + b[1..][..|a| - 1];
    forall k: nat | 0 < k < |a| && k < |b|
      ensures DiffersAt(a, b, k) <==> DiffersAt(a[1..], b[1..], k - 1)
    {
      assert a[..k] == [a[0]] + a[1..][..k - 1] && b[..k] == [b[0]] + b[1..][..k - 1];
    }
    if k: nat :| k < |a[1..]| && DiffersAt(a[1..], b[1..], k) { assert DiffersAt(a, b, k + 1); }
    if k: nat :| k < |a| && DiffersAt(a, b, k) { assert k > 0 && DiffersAt(a[1..], b[1..], k - 1); }
  }

  lemma {:induction false} TextTransitive(a: string, b: string, c: string)
    requires TextLess(a, b) && TextLess(b, c)
    ensures TextLess(a, c)
  {
    if a != [] && a[0] == b[0] && b[0] == c[0] { TextTransitive(a[1..], b[1..], c[1..]); }
  }
}
