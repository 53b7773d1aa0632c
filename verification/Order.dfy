/** Common ground: options, distinct lists, the byte-wise order of Go strings, and `sort.Strings` by its contract. */
module Order {

  datatype Option<T> = None | Some(value: T)

  predicate Leq(a: string, b: string) {
    a == [] || (b != [] && (a[0] < b[0] || (a[0] == b[0] && Leq(a[1..], b[1..]))))
  }

  lemma {:induction false} LeqReflexive(a: string)
    ensures Leq(a, a)
  {
    if a != [] {
      LeqReflexive(a[1..]);
    }
  }

  lemma {:induction false} LeqTotal(a: string, b: string)
    ensures Leq(a, b) || Leq(b, a)
  {
    if a != [] && b != [] {
      LeqTotal(a[1..], b[1..]);
    }
  }

  lemma {:induction false} LeqAntisymmetric(a: string, b: string)
    requires Leq(a, b) && Leq(b, a)
    ensures a == b
  {
    if a != [] && b != [] {
      LeqAntisymmetric(a[1..], b[1..]);
    }
  }

  lemma {:induction false} LeqTransitive(a: string, b: string, c: string)
    requires Leq(a, b) && Leq(b, c)
    ensures Leq(a, c)
  {
    if a != [] && b != [] && c != [] && a[0] == b[0] == c[0] {
      LeqTransitive(a[1..], b[1..], c[1..]);
    }
  }

  /** White space as `unicode.IsSpace` has it. */
  predicate IsSpace(c: char) {
    || c in {' ', '\t', '\n', '\r', '\U{B}', '\U{C}', '\U{85}', '\U{A0}', '\U{1680}', '\U{2028}', '\U{2029}',
             '\U{202F}', '\U{205F}', '\U{3000}'}
    || '\U{2000}' <= c <= '\U{200A}'
  }

  function Min(a: nat, b: nat): nat {
    if a <= b then a else b
  }

  predicate Sorted(xs: seq<string>) {
    forall i, j :: 0 <= i < j < |xs| ==> Leq(xs[i], xs[j])
  }

  predicate Distinct<T(==)>(xs: seq<T>) {
    forall i, j :: 0 <= i < j < |xs| ==> xs[i] != xs[j]
  }

  function Elements<T>(xs: seq<T>): set<T> {
    set x | x in xs
  }

  function Insert(x: string, xs: seq<string>): (r: seq<string>)
    requires Sorted(xs)
    ensures Sorted(r) && multiset(r) == multiset{x} + multiset(xs)
  {
    if xs == [] then [x]
    else if Leq(x, xs[0]) then
      assert forall j :: 0 <= j < |xs| ==> Leq(x, xs[j]) by {
        forall j | 0 <= j < |xs| ensures Leq(x, xs[j]) {
          if j > 0 {
            LeqTransitive(x, xs[0], xs[j]);
          }
        }
      }
      [x] + xs
    else
      LeqTotal(x, xs[0]);
      var rest := Insert(x, xs[1..]);
      assert xs == [xs[0]] + xs[1..];
      assert forall y :: y in rest ==> y in multiset(rest) && Leq(xs[0], y);
      [xs[0]] + rest
  }

  /** `sort.Strings`: the same strings, in order. */
  function Sort(xs: seq<string>): (r: seq<string>)
    ensures Sorted(r) && multiset(r) == multiset(xs)
    ensures |r| == |xs| && forall x :: x in r <==> x in xs
  {
    if xs == [] then []
    else
      assert xs == [xs[0]] + xs[1..];
      var r := Insert(xs[0], Sort(xs[1..]));
      SameMultiset(r, xs);
      r
  }

  lemma SameMultiset<T>(a: seq<T>, b: seq<T>)
    requires multiset(a) == multiset(b)
    ensures |a| == |b| && forall x :: x in a <==> x in b
  {
    assert |multiset(a)| == |a| && |multiset(b)| == |b|;
    forall x ensures x in a <==> x in b {
      assert x in a <==> x in multiset(a);
      assert x in b <==> x in multiset(b);
    }
  }

  lemma {:induction false} DistinctFromMultiset<T>(a: seq<T>, b: seq<T>)
    requires multiset(a) == multiset(b) && Distinct(a)
    ensures Distinct(b)
  {
    DistinctCounts(a);
    forall i, j | 0 <= i < j < |b| ensures b[i] != b[j] {
      RepeatCounts(b, i, j);
    }
  }

  lemma RepeatCounts<T>(a: seq<T>, i: nat, j: nat)
    requires i < j < |a|
    ensures a[i] == a[j] ==> multiset(a)[a[i]] >= 2
  {
    assert a == a[..i] + [a[i]] + a[i + 1..j] + [a[j]] + a[j + 1..];
  }

  lemma {:induction false} DistinctCounts<T>(a: seq<T>)
    requires Distinct(a)
    ensures forall x :: multiset(a)[x] <= 1
  {
    if a != [] {
      assert a == [a[0]] + a[1..];
      DistinctCounts(a[1..]);
      assert a[0] !in a[1..];
      assert multiset(a) == multiset{a[0]} + multiset(a[1..]);
      assert a[0] !in multiset(a[1..]);
    }
  }

  /** Collects the keys of a map in any order, then sorts them. */
  method SortedKeys(s: set<string>) returns (r: seq<string>)
    ensures Sorted(r) && Distinct(r) && Elements(r) == s
  {
    var todo := s;
    r := [];
    while todo != {}
      invariant Elements(r) + todo == s && Elements(r) !! todo
      invariant Distinct(r)
      decreases |todo|
    {
      var x :| x in todo;
      assert x in r ==> x in Elements(r);
      r := r + [x];
      todo := todo - {x};
    }
    DistinctFromMultiset(r, Sort(r));
    r := Sort(r);
  }

  /** A sorted list without repeats is determined by its members. */
  lemma {:induction false} SortedUnique(a: seq<string>, b: seq<string>)
    requires Sorted(a) && Sorted(b) && Distinct(a) && Distinct(b)
    requires forall x :: x in a <==> x in b
    ensures a == b
  {
    assert a != [] ==> a[0] in a && a[0] in b;
    assert b != [] ==> b[0] in b && b[0] in a;
    if a != [] && b != [] {
      LeqReflexive(a[0]);
      assert Leq(a[0], b[0]) && Leq(b[0], a[0]);
      LeqAntisymmetric(a[0], b[0]);
      var a', b' := a[1..], b[1..];
      forall x ensures x in a' <==> x in b' {
        assert x in a' <==> x in a && x != a[0];
        assert x in b' <==> x in b && x != b[0];
      }
      SortedUnique(a', b');
      assert a == [a[0]] + a' && b == [b[0]] + b';
    }
  }

  lemma {:induction false} DistinctSize<T>(xs: seq<T>)
    requires Distinct(xs)
    ensures |Elements(xs)| == |xs|
  {
    if xs != [] {
      assert xs == [xs[0]] + xs[1..];
      DistinctSize(xs[1..]);
      assert xs[0] !in Elements(xs[1..]) && Elements(xs) == Elements(xs[1..]) + {xs[0]};
    }
  }

  ghost predicate IsListing(r: seq<string>, s: set<string>) {
    Sorted(r) && Distinct(r) && Elements(r) == s
  }

  lemma {:induction false} ListingExists(s: set<string>)
    ensures exists r :: IsListing(r, s)
    decreases |s|
  {
    if s == {} {
      assert IsListing([], s);
    } else {
      var x :| x in s;
      ListingExists(s - {x});
      var r :| IsListing(r, s - {x});
      var q := Insert(x, r);
      assert x !in Elements(r) && x !in r;
      assert Distinct([x] + r);
      assert multiset([x] + r) == multiset(q);
      DistinctFromMultiset([x] + r, q);
      SameMultiset([x] + r, q);
      forall y ensures y in Elements(q) <==> y in s {
        assert y in q <==> y in [x] + r;
        assert y in r <==> y in Elements(r);
      }
      assert IsListing(q, s);
    }
  }

  /** The members of a set in order. */
  ghost function Listing(s: set<string>): (r: seq<string>)
    ensures IsListing(r, s)
  {
    ListingExists(s);
    var r :| IsListing(r, s);
    r
  }

  lemma ListingUnique(r: seq<string>, s: set<string>)
    requires IsListing(r, s)
    ensures r == Listing(s)
  {
    forall x ensures x in r <==> x in Listing(s) {
      assert x in r <==> x in Elements(r);
      assert x in Listing(s) <==> x in Elements(Listing(s));
    }
    SortedUnique(r, Listing(s));
  }

  lemma ListingEmpty(s: set<string>)
    requires s == {}
    ensures Listing(s) == []
  {
    assert IsListing([], s);
    ListingUnique([], s);
  }
}
