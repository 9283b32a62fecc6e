/** Trimming, ASCII lower case and the order of strings, as in Rust's standard library. */
module Texts {
  predicate Lacks(s: string, c: char) {
    forall i :: 0 <= i < |s| ==> s[i] != c
  }

  predicate IsWhite(c: char) {
    var n := c as int;
    9 <= n <= 13 || n == 32 || n == 0x85 || n == 0xA0 || n == 0x1680 || 0x2000 <= n <= 0x200A
    || n == 0x2028 || n == 0x2029 || n == 0x202F || n == 0x205F || n == 0x3000
  }

  lemma TailOfSum<T>(a: seq<T>, b: seq<T>)
    requires a != []
    ensures a + b != [] && (a + b)[0] == a[0] && (a + b)[1..] == a[1..] + b
  {
  }

  lemma SumIsAssociative<T>(a: seq<T>, b: seq<T>, c: seq<T>)
    ensures (a + b) + c == a + (b + c)
  {
  }

  function TrimStart(s: string): string {
    if s != "" && IsWhite(s[0]) then TrimStart(s[1..]) else s
  }

  function TrimEnd(s: string): string {
    if s != "" && IsWhite(s[|s| - 1]) then TrimEnd(s[..|s| - 1]) else s
  }

  function Trim(s: string): string {
    TrimEnd(TrimStart(s))
  }

  function LowerChar(c: char): char {
    if 'A' <= c <= 'Z' then (c as int + 32) as char else c
  }

  function Lower(s: string): string {
    seq(|s|, i requires 0 <= i < |s| => LowerChar(s[i]))
  }

  /** `s` is the word, each letter in one of its two spellings. */
  predicate SpellsWord(s: string, lower: string, upper: string) {
    |s| == |lower| == |upper| && forall i :: 0 <= i < |s| ==> s[i] == lower[i] || s[i] == upper[i]
  }

  /** The order of strings: character by character, a prefix first. */
  predicate StringLe(a: string, b: string) {
    a == "" || (b != "" && (a[0] < b[0] || (a[0] == b[0] && StringLe(a[1..], b[1..]))))
  }

  lemma {:induction false} StringLeIsTotal(a: string, b: string)
    ensures StringLe(a, b) || StringLe(b, a)
    ensures StringLe(a, b) && StringLe(b, a) ==> a == b
  {
    if a != "" && b != "" {
      StringLeIsTotal(a[1..], b[1..]);
      assert a == [a[0]] + a[1..] && b == [b[0]] + b[1..];
    }
  }

  lemma {:induction false} StringLeIsTransitive(a: string, b: string, c: string)
    requires StringLe(a, b) && StringLe(b, c)
    ensures StringLe(a, c)
  {
    if a != "" && b != "" && c != "" && a[0] == b[0] == c[0] {
      StringLeIsTransitive(a[1..], b[1..], c[1..]);
    }
  }

  lemma {:induction false} TrimStartIsSuffix(s: string) returns (n: nat)
    ensures n <= |s| && TrimStart(s) == s[n..] && TrimStart(TrimStart(s)) == TrimStart(s)
  {
    n := 0;
    if s != "" && IsWhite(s[0]) {
      var m := TrimStartIsSuffix(s[1..]);
      n := m + 1;
    }
  }

  lemma {:induction false} TrimEndIsPrefix(s: string) returns (n: nat)
    ensures n <= |s| && TrimEnd(s) == s[..n] && TrimEnd(TrimEnd(s)) == TrimEnd(s)
    ensures n > 0 ==> !IsWhite(s[n - 1])
  {
    n := |s|;
    if s != "" && IsWhite(s[|s| - 1]) {
      n := TrimEndIsPrefix(s[..|s| - 1]);
    }
  }

  /** Trimming at the end stops at a character that is not white. */
  lemma {:induction false} TrimEndKeepsInk(s: string, n: nat)
    requires 0 < n <= |s| && !IsWhite(s[n - 1])
    ensures n <= |TrimEnd(s)| && TrimEnd(s)[..n] == s[..n]
  {
    if IsWhite(s[|s| - 1]) {
      TrimEndKeepsInk(s[..|s| - 1], n);
    }
  }

  lemma NothingToTrim(s: string)
    requires s != "" && !IsWhite(s[0]) && !IsWhite(s[|s| - 1])
    ensures Trim(s) == s
  {
  }

  lemma TrimIsSlice(s: string, c: char)
    ensures Trim(Trim(s)) == Trim(s)
    ensures Lacks(s, c) ==> Lacks(Trim(s), c)
  {
    var n := TrimStartIsSuffix(s);
    var m := TrimEndIsPrefix(TrimStart(s));
    var t := Trim(s);
    assert t == s[n..][..m];
    if t != "" {
      TrimStartIsTrimmed(s);
      assert t[0] == TrimStart(s)[0];
    }
  }

  lemma {:induction false} TrimStartIsTrimmed(s: string)
    ensures TrimStart(s) != "" ==> !IsWhite(TrimStart(s)[0])
  {
    if s != "" && IsWhite(s[0]) {
      TrimStartIsTrimmed(s[1..]);
    }
  }

  ghost predicate DiffersAt(a: string, b: string, i: nat) {
    i < |a| && i < |b| && a[i] < b[i] && forall j :: 0 <= j < i ==> a[j] == b[j]
  }

  /** `b` begins with `a`, or `a` has the smaller character at the first place where they differ. */
  ghost predicate Lexicographic(a: string, b: string) {
    a <= b || exists i :: DiffersAt(a, b, i)
  }

  lemma SameFirst(a: string, b: string)
    requires a != "" && b != "" && a[0] == b[0]
    ensures Lexicographic(a, b) <==> Lexicographic(a[1..], b[1..])
  {
    assert a == [a[0]] + a[1..] && b == [b[0]] + b[1..];
    if i: nat :| DiffersAt(a, b, i) {
      assert DiffersAt(a[1..], b[1..], i - 1);
    }
    if i: nat :| DiffersAt(a[1..], b[1..], i) {
      assert forall j :: 1 <= j < i + 1 ==> a[j] == a[1..][j - 1] && b[j] == b[1..][j - 1];
      assert DiffersAt(a, b, i + 1);
    }
  }

  lemma {:induction false} StringLeIsLexicographic(a: string, b: string)
    ensures StringLe(a, b) <==> Lexicographic(a, b)
  {
    if a != "" && b != "" && a[0] == b[0] {
      SameFirst(a, b);
      StringLeIsLexicographic(a[1..], b[1..]);
    } else if a != "" && b != "" && a[0] < b[0] {
      assert DiffersAt(a, b, 0);
    }
  }

  /** Some character is not white. */
  ghost predicate HasInk(s: string) {
    exists i :: 0 <= i < |s| && !IsWhite(s[i])
  }

  /** Nothing is left of a text by trimming exactly when it is white throughout. */
  lemma {:induction false} TrimsAwayExactlyWhen(s: string)
    ensures Trim(s) == "" <==> !HasInk(s)
  {
    if s != "" {
      if IsWhite(s[0]) {
        TrimsAwayExactlyWhen(s[1..]);
        assert forall i :: 1 <= i < |s| ==> s[i] == s[1..][i - 1];
      } else {
        TrimEndKeepsInk(s, 1);
      }
    }
  }

  /** A text is a word when put in lower case, exactly when each letter is one of the word's, in either case. */
  lemma LowerSpells(s: string, lower: string, upper: string)
    requires |lower| == |upper|
    requires forall i :: 0 <= i < |lower| ==>
               if 'a' <= lower[i] <= 'z' then upper[i] as int == lower[i] as int - 32 else upper[i] == lower[i] < 'A'
    ensures Lower(s) == lower <==> SpellsWord(s, lower, upper)
  {
    if SpellsWord(s, lower, upper) {
      assert forall i :: 0 <= i < |s| ==> Lower(s)[i] == lower[i];
    }
    if Lower(s) == lower {
      forall i | 0 <= i < |s| ensures s[i] == lower[i] || s[i] == upper[i] {
        assert Lower(s)[i] == LowerChar(s[i]);
      }
    }
  }
}
