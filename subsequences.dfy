/** Order-preserving sub-sequences and the facts the catalog filter needs about them. */
module Subsequences {

  /** `r` can be obtained from `s` by deleting elements, keeping the order of the rest. */
  predicate SubsequenceOf<T(==)>(r: seq<T>, s: seq<T>)
    decreases |s|
  {
    r == [] || (s != [] && ((r[0] == s[0] && SubsequenceOf(r[1..], s[1..])) || SubsequenceOf(r, s[1..])))
  }

  /** Every value that occurs in `r` occurs there as often as in `s`: `r` keeps all copies or none. */
  ghost predicate WholeCopies<T>(r: seq<T>, s: seq<T>) {
    forall x :: x in r ==> multiset(r)[x] == multiset(s)[x]
  }

  lemma {:induction false} SubsequenceRefl<T>(s: seq<T>)
    ensures SubsequenceOf(s, s)
    decreases |s|
  {
    if s != [] {
      SubsequenceRefl(s[1..]);
    }
  }

  lemma {:induction false} SubsequenceTrans<T>(a: seq<T>, b: seq<T>, c: seq<T>)
    requires SubsequenceOf(a, b) && SubsequenceOf(b, c)
    ensures SubsequenceOf(a, c)
    decreases |c|
  {
    if a != [] {
      if b[0] == c[0] && SubsequenceOf(b[1..], c[1..]) {
        if a[0] == b[0] && SubsequenceOf(a[1..], b[1..]) {
          SubsequenceTrans(a[1..], b[1..], c[1..]);
        } else {
          SubsequenceTrans(a, b[1..], c[1..]);
        }
      } else {
        SubsequenceTrans(a, b, c[1..]);
      }
    }
  }

  /** A sub-sequence holds no value more often than the sequence it comes from. */
  lemma {:induction false} SubsequenceMultiset<T>(r: seq<T>, s: seq<T>)
    requires SubsequenceOf(r, s)
    ensures multiset(r) <= multiset(s)
    decreases |s|
  {
    if r != [] {
      assert s == [s[0]] + s[1..];
      if r[0] == s[0] && SubsequenceOf(r[1..], s[1..]) {
        SubsequenceMultiset(r[1..], s[1..]);
        assert r == [r[0]] + r[1..];
      } else {
        SubsequenceMultiset(r, s[1..]);
      }
    }
  }

  /** A sub-sequence that keeps every copy of the head of `s` must start with it. */
  lemma HeadTaken<T>(r: seq<T>, s: seq<T>)
    requires SubsequenceOf(r, s) && s != []
    requires 0 < multiset(r)[s[0]] == multiset(s)[s[0]]
    ensures r != [] && r[0] == s[0] && SubsequenceOf(r[1..], s[1..])
  {
    assert s == [s[0]] + s[1..];
    if !(r[0] == s[0] && SubsequenceOf(r[1..], s[1..])) {
      SubsequenceMultiset(r, s[1..]);
      assert false;
    }
  }

  /** A sub-sequence that does not contain the head of `s` is a sub-sequence of its tail. */
  lemma HeadSkipped<T>(r: seq<T>, s: seq<T>)
    requires SubsequenceOf(r, s) && s != [] && s[0] !in r
    ensures SubsequenceOf(r, s[1..])
  {
  }

  lemma TailWholeCopies<T>(r: seq<T>, s: seq<T>)
    requires r != [] && s != [] && r[0] == s[0]
    requires WholeCopies(r, s)
    ensures WholeCopies(r[1..], s[1..])
  {
    assert r == [r[0]] + r[1..];
    assert s == [s[0]] + s[1..];
    forall y | y in r[1..]
      ensures multiset(r[1..])[y] == multiset(s[1..])[y]
    {
      assert y in r;
    }
  }

  lemma SkipWholeCopies<T>(r: seq<T>, s: seq<T>)
    requires s != [] && s[0] !in r
    requires WholeCopies(r, s)
    ensures WholeCopies(r, s[1..])
  {
    assert s == [s[0]] + s[1..];
    forall y | y in r
      ensures multiset(r)[y] == multiset(s[1..])[y]
    {
      assert y != s[0];
    }
  }

  lemma SameTailMultiset<T>(r1: seq<T>, r2: seq<T>)
    requires r1 != [] && r2 != [] && r1[0] == r2[0]
    requires multiset(r1) == multiset(r2)
    ensures multiset(r1[1..]) == multiset(r2[1..])
  {
    assert r1 == [r1[0]] + r1[1..];
    assert r2 == [r2[0]] + r2[1..];
    calc {
      multiset(r1[1..]);
      multiset(r1) - multiset{r1[0]};
      multiset(r2) - multiset{r2[0]};
      multiset(r2[1..]);
    }
  }

  /**
   * Two sub-sequences of `s` with the same elements, each of which keeps every copy of
   * the values it keeps, are the same sequence: "which values are kept" fixes the result.
   */
  lemma {:induction false} SelectionUnique<T>(r1: seq<T>, r2: seq<T>, s: seq<T>)
    requires SubsequenceOf(r1, s) && SubsequenceOf(r2, s)
    requires multiset(r1) == multiset(r2)
    requires WholeCopies(r1, s)
    ensures r1 == r2
    decreases |s|
  {
    if s != [] {
      var x := s[0];
      if x in r1 {
        assert multiset(r1)[x] == multiset(s)[x] == multiset(r2)[x];
        HeadTaken(r1, s);
        HeadTaken(r2, s);
        SameTailMultiset(r1, r2);
        TailWholeCopies(r1, s);
        SelectionUnique(r1[1..], r2[1..], s[1..]);
        assert r1 == [x] + r1[1..] && r2 == [x] + r2[1..];
      } else {
        assert x !in multiset(r2);
        HeadSkipped(r1, s);
        HeadSkipped(r2, s);
        SkipWholeCopies(r1, s);
        SelectionUnique(r1, r2, s[1..]);
      }
    }
  }
}
