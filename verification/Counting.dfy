/** How often things occur in sequences. */
module Counting {
  function Count<T(==)>(s: seq<T>, x: T): nat
  {
    if s == [] then 0 else Count(s[..|s| - 1], x) + if s[|s| - 1] == x then 1 else 0
  }

  lemma CountSnoc<T>(s: seq<T>, y: T, x: T)
    ensures Count(s + [y], x) == Count(s, x) + if y == x then 1 else 0
  {
    assert (s + [y])[..|s|] == s;
  }

  lemma {:induction false} CountConcat<T>(a: seq<T>, b: seq<T>, x: T)
    ensures Count(a + b, x) == Count(a, x) + Count(b, x)
  {
    if b == [] {
      assert a + b == a;
    } else {
      var front, last := b[..|b| - 1], b[|b| - 1];
      CountConcat(a, front, x);
      CountSnoc(a + front, last, x);
      assert a + b == a + front + [last];
    }
  }

  lemma CountCons<T>(y: T, s: seq<T>, x: T)
    ensures Count([y] + s, x) == Count(s, x) + if y == x then 1 else 0
  {
    CountConcat([y], s, x);
    assert [y][..0] == [];
  }

  lemma {:induction false} CountIsMultiset<T>(s: seq<T>, x: T)
    ensures multiset(s)[x] == Count(s, x)
  {
    if s != [] {
      CountIsMultiset(s[..|s| - 1], x);
      assert s == s[..|s| - 1] + [s[|s| - 1]];
    }
  }

  lemma CountMember<T>(s: seq<T>, x: T)
    ensures x in s <==> Count(s, x) > 0
  {
    CountIsMultiset(s, x);
    assert x in s <==> x in multiset(s);
  }

  lemma PermutationCounts<T>(a: seq<T>, b: seq<T>, x: T)
    requires multiset(a) == multiset(b)
    ensures Count(a, x) == Count(b, x)
  {
    CountIsMultiset(a, x);
    CountIsMultiset(b, x);
  }

  /** Sequences in which everything occurs equally often are permutations of each other. */
  lemma SameCounts<T>(a: seq<T>, b: seq<T>)
    requires forall x :: Count(a, x) == Count(b, x)
    ensures multiset(a) == multiset(b)
  {
    forall x
      ensures multiset(a)[x] == multiset(b)[x]
    {
      CountIsMultiset(a, x);
      CountIsMultiset(b, x);
    }
  }

  /** `n` times `c`. */
  function Times(n: nat, c: nat): nat
  {
    if n == 0 then 0 else c + Times(n - 1, c)
  }

  lemma {:induction false} TimesAtLeast(n: nat, c: nat)
    ensures n > 0 ==> Times(n, c) >= c
    ensures n > 1 && c > 0 ==> Times(n, c) > c
    ensures c == 0 ==> Times(n, c) == 0
  {
    if n > 0 {
      TimesAtLeast(n - 1, c);
    }
  }

  lemma TimesIsOne(m: nat, n: nat, c: nat)
    requires c > 0
    ensures Times(m, Times(n, c)) == c <==> m == 1 && n == 1
  {
    TimesAtLeast(n, c);
    TimesAtLeast(m, Times(n, c));
  }

  /** A list whose counts are those of `s`, multiplied row by row, is a permutation of `s` when every factor is 1. */
  lemma ScaledIff<T>(flat: seq<T>, s: seq<T>, f: T -> nat, g: T -> nat)
    requires forall row :: Count(flat, row) == Times(f(row), Times(g(row), Count(s, row)))
    ensures multiset(flat) == multiset(s) <==> forall row :: row in s ==> f(row) == 1 && g(row) == 1
  {
    if forall row :: row in s ==> f(row) == 1 && g(row) == 1 {
      forall row
        ensures Count(flat, row) == Count(s, row)
      {
        ScaledRow(flat, s, f(row), g(row), row);
      }
      SameCounts(flat, s);
    } else {
      var row :| row in s && !(f(row) == 1 && g(row) == 1);
      ScaledRow(flat, s, f(row), g(row), row);
      if multiset(flat) == multiset(s) {
        PermutationCounts(flat, s, row);
      }
    }
  }

  lemma ScaledRow<T>(flat: seq<T>, s: seq<T>, m: nat, n: nat, row: T)
    requires Count(flat, row) == Times(m, Times(n, Count(s, row)))
    ensures Count(flat, row) == Count(s, row) <==> (row in s ==> m == 1 && n == 1)
  {
    CountMember(s, row);
    if row in s {
      TimesIsOne(m, n, Count(s, row));
    } else {
      TimesAtLeast(n, 0);
      TimesAtLeast(m, 0);
    }
  }

  /** The same with one factor. */
  lemma ScaledOnceIff<T>(flat: seq<T>, s: seq<T>, f: T -> nat)
    requires forall row :: Count(flat, row) == Times(f(row), Count(s, row))
    ensures multiset(flat) == multiset(s) <==> forall row :: row in s ==> f(row) == 1
  {
    forall row
      ensures Count(flat, row) == Times(f(row), Times(1, Count(s, row)))
    {
      assert Times(1, Count(s, row)) == Count(s, row);
    }
    ScaledIff(flat, s, f, _ => 1);
  }
}
