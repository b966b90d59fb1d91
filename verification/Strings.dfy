/** The order of strings, sorting, and mapping a list as a bag. */
module Strings {

  /** Lexicographic order. */
  predicate Leq(a: string, b: string) {
    a == [] || (b != [] && (a[0] < b[0] || (a[0] == b[0] && Leq(a[1..], b[1..]))))
  }

  lemma {:induction false} LeqTotal(a: string, b: string)
    ensures Leq(a, b) || Leq(b, a)
  {
    if a != [] && b != [] && a[0] == b[0] {
      LeqTotal(a[1..], b[1..]);
    }
  }

  lemma {:induction false} LeqAntisymmetric(a: string, b: string)
    requires Leq(a, b) && Leq(b, a)
    ensures a == b
  {
    if a != [] && b != [] {
      LeqAntisymmetric(a[1..], b[1..]);
      assert a == [a[0]] + a[1..] && b == [b[0]] + b[1..];
    }
  }

  lemma {:induction false} LeqTransitive(a: string, b: string, c: string)
    requires Leq(a, b) && Leq(b, c)
    ensures Leq(a, c)
  {
    if a != [] && a[0] == b[0] == c[0] {
      LeqTransitive(a[1..], b[1..], c[1..]);
    }
  }

  predicate AtLeast(x: string, s: seq<string>) {
    forall y :: y in s ==> Leq(x, y)
  }

  predicate Ascending(s: seq<string>) {
    s == [] || (AtLeast(s[0], s[1..]) && Ascending(s[1..]))
  }

  function Insert(x: string, s: seq<string>): (t: seq<string>) {
    if s == [] || Leq(x, s[0]) then [x] + s else [s[0]] + Insert(x, s[1..])
  }

  /** The list in ascending order. */
  function Sort(s: seq<string>): (t: seq<string>) {
    if s == [] then [] else Insert(s[0], Sort(s[1..]))
  }

  /** The strings run together. */
  function Concat(s: seq<string>): (t: string) {
    if s == [] then "" else s[0] + Concat(s[1..])
  }

  lemma BagCons<T>(s: seq<T>)
    requires s != []
    ensures multiset(s) == multiset{s[0]} + multiset(s[1..])
  {
    assert s == [s[0]] + s[1..];
  }

  lemma {:induction false} InsertBag(x: string, s: seq<string>)
    ensures multiset(Insert(x, s)) == multiset{x} + multiset(s)
  {
    if s != [] && !Leq(x, s[0]) {
      InsertBag(x, s[1..]);
      BagCons(s);
    }
  }

  lemma BagMember<T>(s: seq<T>, y: T)
    ensures y in s <==> y in multiset(s)
  {
  }

  lemma {:induction false} InsertAscending(x: string, s: seq<string>)
    requires Ascending(s)
    ensures Ascending(Insert(x, s))
  {
    hide Leq;
    if s == [] {
    } else if Leq(x, s[0]) {
      forall y | y in s
        ensures Leq(x, y)
      {
        if y != s[0] {
          assert y in s[1..];
          LeqTransitive(x, s[0], y);
        }
      }
      assert ([x] + s)[1..] == s;
    } else {
      LeqTotal(x, s[0]);
      var t := Insert(x, s[1..]);
      InsertAscending(x, s[1..]);
      InsertBag(x, s[1..]);
      forall y | y in t
        ensures Leq(s[0], y)
      {
        BagMember(t, y);
        BagMember(s[1..], y);
      }
      assert ([s[0]] + t)[1..] == t;
    }
  }

  lemma {:induction false} SortSorts(s: seq<string>)
    ensures Ascending(Sort(s)) && multiset(Sort(s)) == multiset(s)
  {
    if s != [] {
      SortSorts(s[1..]);
      InsertAscending(s[0], Sort(s[1..]));
      InsertBag(s[0], Sort(s[1..]));
      BagCons(s);
    }
  }

  /** A bag of strings has one ascending list. */
  lemma {:induction false} SortedUnique(s: seq<string>, t: seq<string>)
    requires Ascending(s) && Ascending(t) && multiset(s) == multiset(t)
    ensures s == t
  {
    hide Leq;
    assert |s| == |multiset(s)| == |multiset(t)| == |t|;
    if s != [] {
      FirstIsLeast(s, t);
      FirstIsLeast(t, s);
      LeqAntisymmetric(s[0], t[0]);
      BagCons(s);
      BagCons(t);
      assert multiset(s[1..]) == multiset(s) - multiset{s[0]};
      assert multiset(t[1..]) == multiset(t) - multiset{t[0]};
      SortedUnique(s[1..], t[1..]);
      assert s == [s[0]] + s[1..] && t == [t[0]] + t[1..];
    }
  }

  lemma FirstIsLeast(s: seq<string>, t: seq<string>)
    requires Ascending(s) && multiset(s) == multiset(t) && s != [] && t != []
    ensures Leq(s[0], t[0])
  {
    hide Leq;
    BagMember(t, t[0]);
    BagMember(s, t[0]);
    if t[0] != s[0] {
      assert t[0] in s[1..];
    } else {
      LeqTotal(s[0], s[0]);
    }
  }

  /** Sorting forgets the order of its input. */
  lemma SortBag(s: seq<string>, t: seq<string>)
    requires multiset(s) == multiset(t)
    ensures Sort(s) == Sort(t)
  {
    SortSorts(s);
    SortSorts(t);
    SortedUnique(Sort(s), Sort(t));
  }

  ghost function Map<T, R>(f: T -> R, s: seq<T>): (t: seq<R>)
    ensures |t| == |s| && forall i :: 0 <= i < |s| ==> t[i] == f(s[i])
  {
    seq(|s|, i requires 0 <= i < |s| => f(s[i]))
  }

  lemma MapCons<T, R>(f: T -> R, s: seq<T>)
    requires s != []
    ensures multiset(Map(f, s)) == multiset{f(s[0])} + multiset(Map(f, s[1..]))
  {
    assert Map(f, s) == [f(s[0])] + Map(f, s[1..]);
  }

  lemma MapAppend<T, R>(f: T -> R, a: seq<T>, b: seq<T>)
    ensures Map(f, a + b) == Map(f, a) + Map(f, b)
  {
  }

  lemma MapMiddle<T, R>(f: T -> R, t: seq<T>, i: nat)
    requires i < |t|
    ensures multiset(Map(f, t)) == multiset{f(t[i])} + multiset(Map(f, t[..i] + t[i + 1..]))
    ensures multiset(t) == multiset{t[i]} + multiset(t[..i] + t[i + 1..])
  {
    hide Map;
    var a, b := t[..i], t[i..];
    assert t == a + b && b[1..] == t[i + 1..];
    BagCons(b);
    MapCons(f, b);
    MapAppend(f, a, b);
    MapAppend(f, a, b[1..]);
  }

  /** Mapping bags. */
  lemma {:induction false} MapBag<T, R>(f: T -> R, s: seq<T>, t: seq<T>)
    requires multiset(s) == multiset(t)
    ensures multiset(Map(f, s)) == multiset(Map(f, t))
    decreases |s|
  {
    assert |s| == |multiset(s)| == |multiset(t)| == |t|;
    if s != [] {
      BagMember(s, s[0]);
      BagMember(t, s[0]);
      var i :| 0 <= i < |t| && t[i] == s[0];
      var u := t[..i] + t[i + 1..];
      BagCons(s);
      MapMiddle(f, t, i);
      assert multiset(s[1..]) == multiset(s) - multiset{s[0]};
      assert multiset(u) == multiset(t) - multiset{t[i]};
      MapBag(f, s[1..], u);
      MapCons(f, s);
    }
  }
}
