/** Strings in code point order, and sorting by it. */
module Ordering {

  /** `a <= b` for strings. */
  predicate Before(a: string, b: string) {
    a == "" || (b != "" && (a[0] < b[0] || (a[0] == b[0] && Before(a[1..], b[1..]))))
  }

  /** The first `i` characters are the same and the next one is smaller. */
  ghost predicate SmallerAt(a: string, b: string, i: nat) {
    i < |a| && i < |b| && a[i] < b[i] && forall k | 0 <= k < i :: a[k] == b[k]
  }

  /** A text comes before those it begins, and before those that have a greater character at the first difference. */
  lemma {:induction false} BeforeIs(a: string, b: string)
    ensures Before(a, b) <==> a <= b || exists i: nat :: SmallerAt(a, b, i)
  {
    if a != "" && b != "" {
      BeforeIs(a[1..], b[1..]);
      if a[0] == b[0] {
        assert a <= b <==> a[1..] <= b[1..];
        if i: nat :| SmallerAt(a[1..], b[1..], i) { assert SmallerAt(a, b, i + 1); }
        if i: nat :| SmallerAt(a, b, i) { assert SmallerAt(a[1..], b[1..], i - 1); }
      } else if a[0] < b[0] {
        assert SmallerAt(a, b, 0);
      }
    }
  }

  lemma {:induction false} Total(a: string, b: string)
    ensures Before(a, b) || Before(b, a)
  {
    if a != "" && b != "" && a[0] == b[0] { Total(a[1..], b[1..]); }
  }

  lemma {:induction false} Antisymmetric(a: string, b: string)
    requires Before(a, b) && Before(b, a)
    ensures a == b
  {
    if a != "" && b != "" {
      Antisymmetric(a[1..], b[1..]);
      assert a == [a[0]] + a[1..] && b == [b[0]] + b[1..];
    }
  }

  lemma {:induction false} Transitive(a: string, b: string, c: string)
    requires Before(a, b) && Before(b, c)
    ensures Before(a, c)
  {
    if a != "" && b != "" && c != "" && a[0] == b[0] == c[0] { Transitive(a[1..], b[1..], c[1..]); }
  }

  ghost predicate Ascending(names: seq<string>) {
    forall i, j | 0 <= i < j < |names| :: Before(names[i], names[j])
  }

  function Insert(names: seq<string>, name: string): seq<string> {
    if names == [] then [name]
    else if Before(name, names[0]) then [name] + names
    else [names[0]] + Insert(names[1..], name)
  }

  /** `sorted(names)` */
  function Sorted(names: seq<string>): seq<string> {
    if names == [] then [] else Insert(Sorted(names[..|names| - 1]), names[|names| - 1])
  }

  lemma {:induction false} InsertKeeps(names: seq<string>, name: string)
    requires Ascending(names)
    ensures Ascending(Insert(names, name))
    ensures multiset(Insert(names, name)) == multiset(names) + multiset{name}
  {
    hide Before;
    if names == [] {
    } else if Before(name, names[0]) {
      forall j | 0 < j < |names| ensures Before(name, names[j]) {
        Transitive(name, names[0], names[j]);
      }
    } else {
      var rest := names[1..];
      assert names == [names[0]] + rest;
      InsertKeeps(rest, name);
      Total(name, names[0]);
      var tail := Insert(rest, name);
      forall j | 0 <= j < |tail| ensures Before(names[0], tail[j]) {
        assert tail[j] in multiset(tail);
        assert tail[j] == name || tail[j] in rest;
      }
    }
  }

  lemma {:induction false} SortedSorts(names: seq<string>)
    ensures Ascending(Sorted(names)) && multiset(Sorted(names)) == multiset(names)
  {
    hide Before, Insert;
    if names != [] {
      var front, last := names[..|names| - 1], names[|names| - 1];
      SortedSorts(front);
      InsertKeeps(Sorted(front), last);
      assert names == front + [last];
    }
  }

  /** There is only one way to sort. */
  lemma {:induction false} SortedUnique(a: seq<string>, b: seq<string>)
    requires Ascending(a) && Ascending(b) && multiset(a) == multiset(b)
    ensures a == b
  {
    SameLength(a, b);
    if a != [] {
      SameFirst(a, b);
      Rest(a);
      Rest(b);
      hide Ascending;
      SortedUnique(a[1..], b[1..]);
    }
  }

  lemma Rest(a: seq<string>)
    requires a != [] && Ascending(a)
    ensures Ascending(a[1..]) && multiset(a[1..]) == multiset(a) - multiset{a[0]} && a == [a[0]] + a[1..]
  {
    hide Before;
    assert a == [a[0]] + a[1..];
  }

  lemma SameLength(a: seq<string>, b: seq<string>)
    requires multiset(a) == multiset(b)
    ensures |a| == |b|
  {
    assert |multiset(a)| == |a| && |multiset(b)| == |b|;
  }

  lemma SameFirst(a: seq<string>, b: seq<string>)
    requires Ascending(a) && Ascending(b) && multiset(a) == multiset(b) && a != [] && b != []
    ensures a[0] == b[0]
  {
    hide Before;
    assert a[0] in multiset(b) && b[0] in multiset(a);
    var i :| 0 <= i < |b| && b[i] == a[0];
    var j :| 0 <= j < |a| && a[j] == b[0];
    if i > 0 && j > 0 { Antisymmetric(a[0], b[0]); }
  }

  lemma OrderIrrelevant(a: seq<string>, b: seq<string>)
    requires multiset(a) == multiset(b)
    ensures Sorted(a) == Sorted(b)
  {
    SortedSorts(a);
    SortedSorts(b);
    SortedUnique(Sorted(a), Sorted(b));
  }
}
