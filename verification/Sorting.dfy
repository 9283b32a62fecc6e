/** Stable sorting and filtering of sequences, as Rust's `sort_by` and `filter` do them. */
module Sorting {
  /** Any two elements are ordered, and the order is transitive; ties are allowed. */
  ghost predicate Ordering<T(!new)>(le: (T, T) -> bool) {
    && (forall a, b :: le(a, b) || le(b, a))
    && (forall a, b, c :: le(a, b) && le(b, c) ==> le(a, c))
  }

  ghost predicate Sorted<T>(s: seq<T>, le: (T, T) -> bool) {
    forall i, j :: 0 <= i < j < |s| ==> le(s[i], s[j])
  }

  /** `x` placed before the elements it does not come after, so before those equal to it. */
  function Insert<T>(x: T, s: seq<T>, le: (T, T) -> bool): seq<T> {
    if s == [] then [x]
    else if le(x, s[0]) then [x] + s
    else [s[0]] + Insert(x, s[1..], le)
  }

  function SortBy<T>(s: seq<T>, le: (T, T) -> bool): seq<T> {
    if s == [] then [] else Insert(s[0], SortBy(s[1..], le), le)
  }

  function Filter<T>(s: seq<T>, keep: T -> bool): seq<T> {
    if s == [] then []
    else if keep(s[0]) then [s[0]] + Filter(s[1..], keep)
    else Filter(s[1..], keep)
  }

  lemma {:induction false} InsertHolds<T>(x: T, s: seq<T>, le: (T, T) -> bool, y: T)
    ensures y in Insert(x, s, le) <==> y == x || y in s
  {
    if s != [] && !le(x, s[0]) {
      InsertHolds(x, s[1..], le, y);
    }
  }

  lemma {:induction false} InsertCounts<T>(x: T, s: seq<T>, le: (T, T) -> bool)
    ensures multiset(Insert(x, s, le)) == multiset(s) + multiset{x}
  {
    if s != [] && !le(x, s[0]) {
      InsertCounts(x, s[1..], le);
      assert s == [s[0]] + s[1..];
    }
  }

  lemma {:induction false} InsertSorts<T(!new)>(x: T, s: seq<T>, le: (T, T) -> bool)
    requires Ordering(le) && Sorted(s, le)
    ensures Sorted(Insert(x, s, le), le)
  {
    if s != [] && !le(x, s[0]) {
      var rest := s[1..];
      InsertSorts(x, rest, le);
      var inserted := Insert(x, rest, le);
      forall j | 0 <= j < |inserted| ensures le(s[0], inserted[j]) {
        InsertHolds(x, rest, le, inserted[j]);
        if inserted[j] != x {
          var k :| 0 <= k < |rest| && rest[k] == inserted[j];
          assert le(s[0], s[k + 1]);
        }
      }
    }
  }

  /** Sorting rearranges, and orders. */
  lemma {:induction false} SortBySorts<T(!new)>(s: seq<T>, le: (T, T) -> bool)
    ensures multiset(SortBy(s, le)) == multiset(s)
    ensures Ordering(le) ==> Sorted(SortBy(s, le), le)
  {
    if s != [] {
      SortBySorts(s[1..], le);
      InsertCounts(s[0], SortBy(s[1..], le), le);
      if Ordering(le) {
        InsertSorts(s[0], SortBy(s[1..], le), le);
      }
      assert s == [s[0]] + s[1..];
    }
  }

  lemma {:induction false} SortByLength<T(!new)>(s: seq<T>, le: (T, T) -> bool)
    ensures |SortBy(s, le)| == |s|
    ensures forall x :: x in SortBy(s, le) <==> x in s
  {
    SortBySorts(s, le);
    assert |multiset(SortBy(s, le))| == |multiset(s)|;
    forall x ensures x in SortBy(s, le) <==> x in s {
      assert x in SortBy(s, le) <==> x in multiset(SortBy(s, le));
      assert x in s <==> x in multiset(s);
    }
  }

  lemma {:induction false} InsertAgrees<T>(x: T, s: seq<T>, le: (T, T) -> bool, le': (T, T) -> bool)
    requires forall y :: y in s ==> le(x, y) == le'(x, y)
    ensures Insert(x, s, le) == Insert(x, s, le')
  {
    if s != [] {
      InsertAgrees(x, s[1..], le, le');
    }
  }

  /** Orders that agree on the elements sort them alike. */
  lemma {:induction false} SortByAgrees<T(!new)>(s: seq<T>, le: (T, T) -> bool, le': (T, T) -> bool)
    requires forall x, y :: x in s && y in s ==> le(x, y) == le'(x, y)
    ensures SortBy(s, le) == SortBy(s, le')
  {
    if s != [] {
      SortByAgrees(s[1..], le, le');
      SortByLength(s[1..], le);
      InsertAgrees(s[0], SortBy(s[1..], le), le, le');
    }
  }

  /** The first of the sorted elements is the first minimal one of the originals. */
  lemma {:induction false} SortByHead<T(!new)>(s: seq<T>, le: (T, T) -> bool) returns (i: nat)
    requires Ordering(le) && s != []
    ensures i < |s| && SortBy(s, le) != [] && SortBy(s, le)[0] == s[i]
    ensures forall j :: 0 <= j < |s| ==> le(s[i], s[j])
    ensures forall j :: 0 <= j < i ==> !le(s[j], s[i])
  {
    i := 0;
    if |s| > 1 {
      var k := SortByHead(s[1..], le);
      var sorted := SortBy(s[1..], le);
      if le(s[0], sorted[0]) {
        assert le(s[0], s[1..][k]);
        forall j | 0 <= j < |s| ensures le(s[0], s[j]) {
          assert j > 0 ==> s[j] == s[1..][j - 1];
        }
      } else {
        i := k + 1;
        forall j | 0 <= j < |s| ensures le(s[i], s[j]) && (j < i ==> !le(s[j], s[i])) {
          assert j > 0 ==> s[j] == s[1..][j - 1];
        }
      }
    }
  }

  lemma {:induction false} FilterHolds<T>(s: seq<T>, keep: T -> bool, x: T)
    ensures x in Filter(s, keep) <==> x in s && keep(x)
  {
    if s != [] {
      FilterHolds(s[1..], keep, x);
    }
  }

  /** Where a kept element stood: exactly those kept before it stood before it. */
  lemma {:induction false} FilterPlace<T>(s: seq<T>, keep: T -> bool, i: nat) returns (at: nat)
    requires i < |Filter(s, keep)|
    ensures at < |s| && s[at] == Filter(s, keep)[i] && Filter(s[..at], keep) == Filter(s, keep)[..i]
  {
    at := 0;
    if !keep(s[0]) || i > 0 {
      var rest := FilterPlace(s[1..], keep, if keep(s[0]) then i - 1 else i);
      at := rest + 1;
      assert s[..at][1..] == s[1..][..rest];
    }
  }

  lemma {:induction false} FilterSplits<T>(a: seq<T>, b: seq<T>, keep: T -> bool)
    ensures Filter(a + b, keep) == Filter(a, keep) + Filter(b, keep)
  {
    if a == [] {
      assert a + b == b;
    } else {
      FilterSplits(a[1..], b, keep);
      assert (a + b)[1..] == a[1..] + b;
      var head, tail, rest := [a[0]], Filter(a[1..], keep), Filter(b, keep);
      assert head + (tail + rest) == (head + tail) + rest;
    }
  }

  ghost predicate NoRepeats<T>(s: seq<T>) {
    forall i, j :: 0 <= i < j < |s| ==> s[i] != s[j]
  }

  lemma {:induction false} CountOfDistinct<T>(s: seq<T>, x: T)
    requires NoRepeats(s)
    ensures multiset(s)[x] <= 1
  {
    if s != [] {
      assert s == [s[0]] + s[1..];
      CountOfDistinct(s[1..], x);
      if x == s[0] {
        assert x !in s[1..];
        assert x in multiset(s[1..]) <==> x in s[1..];
      }
    }
  }

  lemma RepeatCountsTwice<T>(s: seq<T>, i: nat, j: nat)
    requires i < j < |s| && s[i] == s[j]
    ensures multiset(s)[s[i]] >= 2
  {
    assert s == s[..j] + s[j..];
    assert s[..j][i] in s[..j] && s[j..][0] in s[j..];
    assert s[i] in multiset(s[..j]) && s[i] in multiset(s[j..]);
  }

  /** Whatever has no more of anything than a sequence without repeats has no repeats. */
  lemma FewerHaveNoRepeats<T(!new)>(s: seq<T>, t: seq<T>)
    requires NoRepeats(t) && multiset(s) <= multiset(t)
    ensures NoRepeats(s)
  {
    forall i, j | 0 <= i < j < |s| ensures s[i] != s[j] {
      CountOfDistinct(t, s[i]);
      if s[i] == s[j] {
        RepeatCountsTwice(s, i, j);
      }
    }
  }

  lemma {:induction false} FilterIsFewer<T>(s: seq<T>, keep: T -> bool)
    ensures multiset(Filter(s, keep)) <= multiset(s)
  {
    if s != [] {
      FilterIsFewer(s[1..], keep);
      assert s == [s[0]] + s[1..];
    }
  }
}
