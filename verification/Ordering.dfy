/** The order of sort.Strings, and that sorting forgets the order it was given. */
module Ordering {
  import opened GoBytes

  /** Byte-wise lexicographic order. */
  predicate Less(a: Bytes, b: Bytes) {
    b != [] && (a == [] || a[0] < b[0] || (a[0] == b[0] && Less(a[1..], b[1..])))
  }

  /** The names agree up to n, and there the first ends or has the smaller byte. */
  predicate SmallerAt(a: Bytes, b: Bytes, n: nat) {
    && n <= |a| && n < |b| && a[..n] == b[..n]
    && (n < |a| ==> a[n] as int < b[n] as int)
  }

  lemma {:induction false} LessIs(a: Bytes, b: Bytes)
    ensures Less(a, b) <==> exists n: nat :: SmallerAt(a, b, n)
  {
    if b != [] && a == [] {
      assert SmallerAt(a, b, 0);
    } else if b != [] {
      LessIs(a[1..], b[1..]);
      if a[0] < b[0] {
        assert SmallerAt(a, b, 0);
      }
      if n: nat :| SmallerAt(a[1..], b[1..], n) && a[0] == b[0] {
        assert a[..n + 1] == [a[0]] + a[1..][..n] && b[..n + 1] == [b[0]] + b[1..][..n];
        assert SmallerAt(a, b, n + 1);
      }
      if n: nat :| SmallerAt(a, b, n) && n > 0 {
        assert a[..n] == [a[0]] + a[1..][..n - 1] && b[..n] == [b[0]] + b[1..][..n - 1];
        assert SmallerAt(a[1..], b[1..], n - 1);
      }
    }
  }

  lemma {:induction false} LessTotal(a: Bytes, b: Bytes)
    ensures Less(a, b) || Less(b, a) || a == b
    ensures !(Less(a, b) && Less(b, a)) && !Less(a, a)
  {
    if a != [] {
      LessTotal(a[1..], a[1..]);
      if b != [] {
        LessTotal(a[1..], b[1..]);
        assert a == [a[0]] + a[1..] && b == [b[0]] + b[1..];
      }
    }
  }

  lemma {:induction false} LessTransitive(a: Bytes, b: Bytes, c: Bytes)
    requires Less(a, b) && Less(b, c)
    ensures Less(a, c)
  {
    if a != [] && a[0] == b[0] && b[0] == c[0] {
      LessTransitive(a[1..], b[1..], c[1..]);
    }
  }

  predicate Ascending(names: seq<Bytes>) {
    forall i, j :: 0 <= i < j < |names| ==> Less(names[i], names[j])
  }

  predicate Distinct(names: seq<Bytes>) {
    forall i, j :: 0 <= i < j < |names| ==> names[i] != names[j]
  }

  function Insert(name: Bytes, sorted: seq<Bytes>): seq<Bytes> {
    if sorted == [] || Less(name, sorted[0]) then [name] + sorted else [sorted[0]] + Insert(name, sorted[1..])
  }

  /** sort.Strings */
  function SortStrings(names: seq<Bytes>): seq<Bytes> {
    if names == [] then [] else Insert(names[0], SortStrings(names[1..]))
  }

  function SetOf(names: seq<Bytes>): set<Bytes> {
    set n | n in names
  }

  lemma {:induction false} InsertAscends(name: Bytes, sorted: seq<Bytes>)
    requires Ascending(sorted) && name !in sorted
    ensures Ascending(Insert(name, sorted)) && SetOf(Insert(name, sorted)) == SetOf(sorted) + {name}
  {
    if sorted == [] {
    } else if Less(name, sorted[0]) {
      forall j | 0 < j < |sorted|
        ensures Less(name, sorted[j])
      {
        LessTransitive(name, sorted[0], sorted[j]);
      }
    } else {
      LessTotal(name, sorted[0]);
      var rest := Insert(name, sorted[1..]);
      InsertAscends(name, sorted[1..]);
      forall j | 0 <= j < |rest|
        ensures Less(sorted[0], rest[j])
      {
        assert rest[j] in SetOf(rest);
        assert rest[j] == name || rest[j] in sorted[1..];
      }
      assert SetOf(sorted) == {sorted[0]} + SetOf(sorted[1..]);
    }
  }

  lemma {:induction false} SortStringsSorts(names: seq<Bytes>)
    requires Distinct(names)
    ensures Ascending(SortStrings(names)) && SetOf(SortStrings(names)) == SetOf(names)
  {
    if names != [] {
      SortStringsSorts(names[1..]);
      assert names[0] in SortStrings(names[1..]) <==> names[0] in SetOf(names[1..]);
      InsertAscends(names[0], SortStrings(names[1..]));
    }
  }

  /** There is one ascending list of a set of names. */
  lemma {:induction false} AscendingUnique(a: seq<Bytes>, b: seq<Bytes>)
    requires Ascending(a) && Ascending(b) && SetOf(a) == SetOf(b)
    ensures a == b
  {
    assert a != [] ==> a[0] in SetOf(b);
    assert b != [] ==> b[0] in SetOf(a);
    if a != [] {
      LessTotal(a[0], b[0]);
      assert a[0] == b[0];
      TailSet(a);
      TailSet(b);
      AscendingUnique(a[1..], b[1..]);
      assert a == [a[0]] + a[1..] && b == [b[0]] + b[1..];
    }
  }

  lemma TailSet(a: seq<Bytes>)
    requires a != [] && Ascending(a)
    ensures SetOf(a[1..]) == SetOf(a) - {a[0]}
  {
    forall j | 0 < j < |a|
      ensures a[j] != a[0]
    {
      LessTotal(a[0], a[j]);
    }
  }

  /** Any two enumerations of the same names sort to the same list. */
  lemma SortForgetsOrder(a: seq<Bytes>, b: seq<Bytes>)
    requires Distinct(a) && Distinct(b) && SetOf(a) == SetOf(b)
    ensures SortStrings(a) == SortStrings(b)
  {
    SortStringsSorts(a);
    SortStringsSorts(b);
    AscendingUnique(SortStrings(a), SortStrings(b));
  }

  lemma {:induction false} EnumerationExists(names: set<Bytes>)
    ensures exists s: seq<Bytes> :: Distinct(s) && SetOf(s) == names
    decreases names
  {
    if names == {} {
      assert Distinct([]) && SetOf([]) == names;
    } else {
      var n :| n in names;
      EnumerationExists(names - {n});
      var rest: seq<Bytes> :| Distinct(rest) && SetOf(rest) == names - {n};
      assert n !in SetOf(rest);
      var s := [n] + rest;
      assert forall i :: 0 <= i < |rest| ==> rest[i] in SetOf(rest);
      assert forall m :: m in s ==> m == n || m in SetOf(rest);
      assert forall m :: m in SetOf(rest) ==> m in s;
      assert s[0] == n;
      assert SetOf(s) == names;
    }
  }

  /** The ascending list of a set of names. */
  ghost function Sorted(names: set<Bytes>): (s: seq<Bytes>)
    ensures Ascending(s) && SetOf(s) == names
  {
    EnumerationExists(names);
    var e: seq<Bytes> :| Distinct(e) && SetOf(e) == names;
    SortStringsSorts(e);
    SortStrings(e)
  }

  lemma SortedIs(names: seq<Bytes>)
    requires Distinct(names)
    ensures SortStrings(names) == Sorted(SetOf(names))
  {
    SortStringsSorts(names);
    AscendingUnique(SortStrings(names), Sorted(SetOf(names)));
  }
}
