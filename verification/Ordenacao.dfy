/**
 * Python's `sorted`: a stable sort by a total preorder, so that the result is in order, has the
 * same elements, and keeps equal ones as they were; and Python's order on strings, which
 * compares them where they first differ.
 */
module Ordenacao {
  import opened Basics

  ghost predicate TotalPreorder<T(!new)>(leq: (T, T) -> bool) {
    && (forall a, b :: leq(a, b) || leq(b, a))
    && (forall a, b, c :: leq(a, b) && leq(b, c) ==> leq(a, c))
  }

  ghost predicate SortedBy<T>(leq: (T, T) -> bool, xs: seq<T>) {
    forall i, j :: 0 <= i < j < |xs| ==> leq(xs[i], xs[j])
  }

  function Insert<T>(leq: (T, T) -> bool, x: T, xs: seq<T>): seq<T> {
    if xs == [] then [x]
    else if leq(x, xs[0]) then [x] + xs
    else [xs[0]] + Insert(leq, x, xs[1..])
  }

  function Sort<T>(leq: (T, T) -> bool, xs: seq<T>): seq<T> {
    if xs == [] then [] else Insert(leq, xs[0], Sort(leq, xs[1..]))
  }

  lemma {:induction false} InsertPermutes<T>(leq: (T, T) -> bool, x: T, xs: seq<T>)
    ensures multiset(Insert(leq, x, xs)) == multiset(xs) + multiset{x}
  {
    if xs != [] {
      assert xs == [xs[0]] + xs[1..];
      InsertPermutes(leq, x, xs[1..]);
    }
  }

  lemma {:induction false} InsertSorted<T(!new)>(leq: (T, T) -> bool, x: T, xs: seq<T>)
    requires TotalPreorder(leq) && SortedBy(leq, xs)
    ensures SortedBy(leq, Insert(leq, x, xs))
  {
    if xs != [] && !leq(x, xs[0]) {
      InsertSorted(leq, x, xs[1..]);
      InsertPermutes(leq, x, xs[1..]);
      var rest := Insert(leq, x, xs[1..]);
      forall i | 0 <= i < |rest| ensures leq(xs[0], rest[i]) {
        assert rest[i] in multiset(rest);
        if rest[i] != x {
          assert rest[i] in xs[1..];
          var k :| 0 <= k < |xs[1..]| && xs[1..][k] == rest[i];
          assert xs[1..][k] == xs[k + 1];
        }
      }
    }
  }

  /** `sorted` returns the same elements in order. */
  lemma {:induction false} SortCorrect<T(!new)>(leq: (T, T) -> bool, xs: seq<T>)
    ensures multiset(Sort(leq, xs)) == multiset(xs) && |Sort(leq, xs)| == |xs|
    ensures forall x :: x in Sort(leq, xs) <==> x in xs
    ensures TotalPreorder(leq) ==> SortedBy(leq, Sort(leq, xs))
  {
    if xs != [] {
      assert xs == [xs[0]] + xs[1..];
      SortCorrect(leq, xs[1..]);
      InsertPermutes(leq, xs[0], Sort(leq, xs[1..]));
      if TotalPreorder(leq) { InsertSorted(leq, xs[0], Sort(leq, xs[1..])); }
    }
    assert |multiset(Sort(leq, xs))| == |multiset(xs)|;
    forall x ensures x in Sort(leq, xs) <==> x in xs {
      assert x in Sort(leq, xs) <==> x in multiset(Sort(leq, xs));
      assert x in xs <==> x in multiset(xs);
    }
  }

  predicate Equivale<T(!new)>(leq: (T, T) -> bool, a: T, b: T) {
    leq(a, b) && leq(b, a)
  }

  /** The members equivalent to `x`, in order. */
  function Iguais<T(!new)>(leq: (T, T) -> bool, x: T, xs: seq<T>): seq<T> {
    if xs == [] then [] else (if Equivale(leq, x, xs[0]) then [xs[0]] else []) + Iguais(leq, x, xs[1..])
  }

  lemma IguaisCons<T(!new)>(leq: (T, T) -> bool, x: T, y: T, ys: seq<T>)
    ensures Iguais(leq, x, [y] + ys) == (if Equivale(leq, x, y) then [y] else []) + Iguais(leq, x, ys)
  {
    assert ([y] + ys)[1..] == ys;
  }

  lemma OnlyOneEqual<T(!new)>(leq: (T, T) -> bool, x: T, y: T, z: T)
    requires TotalPreorder(leq) && !leq(y, z)
    ensures !(Equivale(leq, x, y) && Equivale(leq, x, z))
  {
  }

  lemma {:induction false} InsertStable<T(!new)>(leq: (T, T) -> bool, x: T, y: T, ys: seq<T>)
    requires TotalPreorder(leq)
    ensures Iguais(leq, x, Insert(leq, y, ys)) == (if Equivale(leq, x, y) then [y] else []) + Iguais(leq, x, ys)
  {
    IguaisCons(leq, x, y, ys);
    if ys == [] {
      assert [y] + ys == [y];
    } else if !leq(y, ys[0]) {
      InsertStable(leq, x, y, ys[1..]);
      IguaisCons(leq, x, ys[0], Insert(leq, y, ys[1..]));
      OnlyOneEqual(leq, x, y, ys[0]);
      var a, b, r := if Equivale(leq, x, y) then [y] else [], if Equivale(leq, x, ys[0]) then [ys[0]] else [], Iguais(leq, x, ys[1..]);
      assert a == [] || b == [];
      assert b + (a + r) == a + (b + r);
    }
  }

  /** `sorted` is stable: equivalent elements keep their order. */
  lemma {:induction false} SortStable<T(!new)>(leq: (T, T) -> bool, x: T, xs: seq<T>)
    requires TotalPreorder(leq)
    ensures Iguais(leq, x, Sort(leq, xs)) == Iguais(leq, x, xs)
  {
    if xs != [] {
      SortStable(leq, x, xs[1..]);
      InsertStable(leq, x, xs[0], Sort(leq, xs[1..]));
    }
  }

  /** The last of the members equivalent to `x` has none after it. */
  lemma {:induction false} LastOfEqual<T(!new)>(leq: (T, T) -> bool, x: T, xs: seq<T>) returns (i: nat)
    requires Iguais(leq, x, xs) != []
    ensures i < |xs| && Equivale(leq, x, xs[i]) && xs[i] == Iguais(leq, x, xs)[|Iguais(leq, x, xs)| - 1]
    ensures forall j :: i < j < |xs| ==> !Equivale(leq, x, xs[j])
  {
    if Iguais(leq, x, xs[1..]) != [] {
      var k := LastOfEqual(leq, x, xs[1..]);
      i := k + 1;
      forall j | i < j < |xs| ensures !Equivale(leq, x, xs[j]) { assert xs[j] == xs[1..][j - 1]; }
    } else {
      i := 0;
      forall j | 0 < j < |xs| ensures !Equivale(leq, x, xs[j]) { NoneEqual(leq, x, xs[1..], j - 1); }
    }
  }

  lemma {:induction false} NoneEqual<T(!new)>(leq: (T, T) -> bool, x: T, xs: seq<T>, j: nat)
    requires j < |xs| && Iguais(leq, x, xs) == []
    ensures !Equivale(leq, x, xs[j])
  {
    if j > 0 { NoneEqual(leq, x, xs[1..], j - 1); }
  }

  /** Sorting keeps a duplicate-free list duplicate-free. */
  lemma {:induction false} SortNoDup<T(!new)>(leq: (T, T) -> bool, xs: seq<T>)
    requires NoDup(xs)
    ensures NoDup(Sort(leq, xs))
  {
    if xs != [] {
      assert xs == [xs[0]] + xs[1..];
      NoDupConcat([xs[0]], xs[1..]);
      SortNoDup(leq, xs[1..]);
      SortCorrect(leq, xs[1..]);
      InsertNoDup(leq, xs[0], Sort(leq, xs[1..]));
    }
  }

  lemma {:induction false} InsertNoDup<T(!new)>(leq: (T, T) -> bool, x: T, xs: seq<T>)
    requires NoDup(xs) && x !in xs
    ensures NoDup(Insert(leq, x, xs))
    ensures forall y :: y in Insert(leq, x, xs) <==> y == x || y in xs
  {
    if xs != [] {
      assert xs == [xs[0]] + xs[1..];
      NoDupConcat([xs[0]], xs[1..]);
      NoDupConcat([x], xs);
      InsertNoDup(leq, x, xs[1..]);
      NoDupConcat([xs[0]], Insert(leq, x, xs[1..]));
    }
  }

  lemma {:induction false} LastIsAmongEquals<T(!new)>(leq: (T, T) -> bool, x: T, xs: seq<T>)
    requires xs != [] && xs[|xs| - 1] == x && leq(x, x)
    ensures var e := Iguais(leq, x, xs); e != [] && e[|e| - 1] == x
  {
    if |xs| > 1 { LastIsAmongEquals(leq, x, xs[1..]); }
  }

  /** The last element after sorting is a greatest one, and of those the last before sorting. */
  lemma LastOfSorted<T(!new)>(leq: (T, T) -> bool, xs: seq<T>) returns (i: nat)
    requires TotalPreorder(leq) && xs != []
    ensures i < |xs| && Sort(leq, xs) != [] && xs[i] == Sort(leq, xs)[|Sort(leq, xs)| - 1]
    ensures forall s :: s in xs ==> leq(s, xs[i])
    ensures forall j :: i < j < |xs| ==> !Equivale(leq, xs[i], xs[j])
  {
    var r := Sort(leq, xs);
    SortCorrect(leq, xs);
    var x := r[|r| - 1];
    assert leq(x, x);
    SortStable(leq, x, xs);
    LastIsAmongEquals(leq, x, r);
    i := LastOfEqual(leq, x, xs);
    forall s | s in xs ensures leq(s, x) {
      assert s in r;
      var k :| 0 <= k < |r| && r[k] == s;
      assert k == |r| - 1 || leq(r[k], r[|r| - 1]);
    }
  }

  /** Python's order on strings. */
  predicate LexLeq(a: string, b: string) {
    a == "" || (b != "" && (a[0] < b[0] || (a[0] == b[0] && LexLeq(a[1..], b[1..]))))
  }

  /** They first differ at `i`, where `a` is smaller. */
  predicate MenorEm(a: string, b: string, i: nat) {
    i < |a| && i < |b| && a[..i] == b[..i] && a[i] < b[i]
  }

  lemma SmallerCons(c: char, a: string, b: string, i: nat)
    ensures MenorEm([c] + a, [c] + b, i + 1) <==> MenorEm(a, b, i)
  {
    if i < |a| && i < |b| {
      assert ([c] + a)[..i + 1] == [c] + a[..i] && ([c] + b)[..i + 1] == [c] + b[..i];
      if MenorEm([c] + a, [c] + b, i + 1) { assert a[..i] == ([c] + a)[..i + 1][1..] == ([c] + b)[..i + 1][1..] == b[..i]; }
    }
  }

  lemma {:induction false} PrefixOrSmaller(a: string, b: string)
    requires LexLeq(a, b) && !(a <= b)
    ensures exists i: nat :: MenorEm(a, b, i)
  {
    if a[0] < b[0] {
      assert MenorEm(a, b, 0);
    } else {
      assert a == [a[0]] + a[1..] && b == [b[0]] + b[1..];
      PrefixOrSmaller(a[1..], b[1..]);
      var i: nat :| MenorEm(a[1..], b[1..], i);
      SmallerCons(a[0], a[1..], b[1..], i);
    }
  }

  lemma {:induction false} SmallerIsBefore(a: string, b: string, i: nat)
    requires MenorEm(a, b, i)
    ensures LexLeq(a, b)
  {
    if i > 0 {
      assert a[..i][0] == b[..i][0];
      assert a == [a[0]] + a[1..] && b == [b[0]] + b[1..];
      SmallerCons(a[0], a[1..], b[1..], i - 1);
      SmallerIsBefore(a[1..], b[1..], i - 1);
    }
  }

  lemma {:induction false} PrefixIsBefore(a: string, b: string)
    requires a <= b
    ensures LexLeq(a, b)
  {
    if a != "" { PrefixIsBefore(a[1..], b[1..]); }
  }

  /** One string comes before another when it is a prefix of it, or is smaller where they first differ. */
  lemma LexIff(a: string, b: string)
    ensures LexLeq(a, b) <==> a <= b || exists i: nat :: MenorEm(a, b, i)
  {
    if LexLeq(a, b) && !(a <= b) { PrefixOrSmaller(a, b); }
    if a <= b { PrefixIsBefore(a, b); }
    if i: nat :| MenorEm(a, b, i) { SmallerIsBefore(a, b, i); }
  }

  lemma {:induction false} LexTotal(a: string, b: string)
    ensures LexLeq(a, b) || LexLeq(b, a)
  {
    if a != "" && b != "" { LexTotal(a[1..], b[1..]); }
  }

  lemma {:induction false} LexTransitive(a: string, b: string, c: string)
    requires LexLeq(a, b) && LexLeq(b, c)
    ensures LexLeq(a, c)
  {
    if a != "" && b != "" && c != "" && a[0] == b[0] == c[0] { LexTransitive(a[1..], b[1..], c[1..]); }
  }

  lemma {:induction false} LexAntisymmetric(a: string, b: string)
    requires LexLeq(a, b) && LexLeq(b, a)
    ensures a == b
  {
    if a != "" && b != "" {
      LexAntisymmetric(a[1..], b[1..]);
      assert a == [a[0]] + a[1..] && b == [b[0]] + b[1..];
    }
  }
}
