/** Strings as Go has them: sequences of bytes, one byte to a char. Byte-wise order, sorting, tokens and
    ASCII case. */
module Text {
  /** Byte-wise lexicographic order. */
  predicate LexLe(a: string, b: string) {
    a == [] || (b != [] && (a[0] < b[0] || (a[0] == b[0] && LexLe(a[1..], b[1..]))))
  }

  lemma LexTotal(a: string, b: string)
    ensures LexLe(a, b) || LexLe(b, a)
  {
  }

  lemma {:induction false} LexAntisymmetric(a: string, b: string)
    requires LexLe(a, b) && LexLe(b, a)
    ensures a == b
  {
    if a != [] && b != [] {
      LexAntisymmetric(a[1..], b[1..]);
      assert a == [a[0]] + a[1..] && b == [b[0]] + b[1..];
    }
  }

  lemma {:induction false} LexTransitive(a: string, b: string, c: string)
    requires LexLe(a, b) && LexLe(b, c)
    ensures LexLe(a, c)
  {
    if a != [] && b != [] && c != [] && a[0] == b[0] == c[0] { LexTransitive(a[1..], b[1..], c[1..]); }
  }

  /** The order of Go strings: `a` is a beginning of `b`, or the smaller one where they first differ. */
  lemma {:induction false} LexLeComparesBytes(a: string, b: string)
    ensures LexLe(a, b) <==> a <= b || exists k :: 0 <= k < |a| && k < |b| && a[..k] == b[..k] && a[k] < b[k]
  {
    if a != [] && b != [] {
      if a[0] == b[0] {
        LexLeComparesBytes(a[1..], b[1..]);
        assert a == [a[0]] + a[1..] && b == [b[0]] + b[1..];
        if LexLe(a[1..], b[1..]) && !(a[1..] <= b[1..]) {
          var k :| 0 <= k < |a| - 1 && k < |b| - 1 && a[1..][..k] == b[1..][..k] && a[1..][k] < b[1..][k];
          assert a[..k + 1] == [a[0]] + a[1..][..k] && b[..k + 1] == [b[0]] + b[1..][..k];
          assert a[k + 1] < b[k + 1];
        }
        forall k | 0 < k < |a| && k < |b| && a[..k] == b[..k] && a[k] < b[k]
          ensures LexLe(a[1..], b[1..])
        {
          assert a[1..][..k - 1] == a[..k][1..] && b[1..][..k - 1] == b[..k][1..];
          assert a[1..][k - 1] < b[1..][k - 1];
        }
      } else {
        assert a[0] < b[0] ==> a[..0] == b[..0];
        forall k | 0 < k < |a| && k < |b|
          ensures a[..k] != b[..k]
        {
          assert a[..k][0] != b[..k][0];
        }
      }
    }
  }

  predicate IsSorted(s: seq<string>) {
    forall i, j :: 0 <= i < j < |s| ==> LexLe(s[i], s[j])
  }

  /** slices.Sort: a sorted permutation. Which one is settled by SortedIsUnique. */
  function Sort(s: seq<string>): (r: seq<string>)
    ensures IsSorted(r) && multiset(r) == multiset(s) && |r| == |s|
  {
    if s == [] then []
    else
      assert s == [s[0]] + s[1..];
      Insert(s[0], Sort(s[1..]))
  }

  function Insert(x: string, s: seq<string>): (r: seq<string>)
    requires IsSorted(s)
    ensures IsSorted(r) && multiset(r) == multiset(s) + multiset{x} && |r| == |s| + 1
  {
    if s == [] then [x]
    else if LexLe(x, s[0]) then
      assert forall i :: 0 < i < |s| ==> LexLe(x, s[i]) by {
        forall i | 0 < i < |s| ensures LexLe(x, s[i]) { LexTransitive(x, s[0], s[i]); }
      }
      [x] + s
    else
      var rest := Insert(x, s[1..]);
      assert s == [s[0]] + s[1..];
      assert forall i :: 0 <= i < |rest| ==> LexLe(s[0], rest[i]) by {
        LexTotal(x, s[0]);
        forall i | 0 <= i < |rest| ensures LexLe(s[0], rest[i]) {
          assert rest[i] in multiset(rest);
          assert rest[i] == x || rest[i] in multiset(s[1..]);
          assert rest[i] == x || rest[i] in s[1..];
        }
      }
      [s[0]] + rest
  }

  lemma {:induction false} HeadIsLeast(s: seq<string>, x: string)
    requires IsSorted(s) && x in s
    ensures LexLe(s[0], x)
  {
    LexReflexive(s[0]);
  }

  lemma {:induction false} SameTail(a: seq<string>, b: seq<string>)
    requires a != [] && b != [] && a[0] == b[0] && multiset(a) == multiset(b)
    ensures multiset(a[1..]) == multiset(b[1..])
  {
    assert a == [a[0]] + a[1..] && b == [b[0]] + b[1..];
    assert multiset(a[1..]) == multiset(a) - multiset{a[0]};
    assert multiset(b[1..]) == multiset(b) - multiset{b[0]};
  }

  /** A sorted sequence is determined by its elements and how often they occur. */
  lemma {:induction false} SortedIsUnique(a: seq<string>, b: seq<string>)
    requires IsSorted(a) && IsSorted(b) && multiset(a) == multiset(b)
    ensures a == b
  {
    assert |a| == |multiset(a)| == |multiset(b)| == |b|;
    if a != [] {
      assert a[0] in multiset(b) && b[0] in multiset(a);
      HeadIsLeast(a, b[0]);
      HeadIsLeast(b, a[0]);
      LexAntisymmetric(a[0], b[0]);
      SameTail(a, b);
      SortedIsUnique(a[1..], b[1..]);
      assert a == [a[0]] + a[1..] && b == [b[0]] + b[1..];
    }
  }

  lemma {:induction false} SortForgetsOrder(a: seq<string>, b: seq<string>)
    requires multiset(a) == multiset(b)
    ensures Sort(a) == Sort(b)
  {
    SortedIsUnique(Sort(a), Sort(b));
  }

  // ----- duplicates -----

  predicate Distinct(s: seq<string>) {
    forall i, j :: 0 <= i < j < |s| ==> s[i] != s[j]
  }

  predicate NoAdjacentDuplicates(s: seq<string>) {
    forall i :: 0 < i < |s| ==> s[i] != s[i - 1]
  }

  predicate StrictlyIncreasing(s: seq<string>) {
    IsSorted(s) && Distinct(s)
  }

  lemma {:induction false} DistinctByCount(s: seq<string>)
    ensures Distinct(s) <==> forall x :: multiset(s)[x] <= 1
  {
    if s != [] {
      DistinctByCount(s[1..]);
      assert s == [s[0]] + s[1..];
      assert Distinct(s) <==> Distinct(s[1..]) && s[0] !in s[1..] by {
        assert forall i :: 1 <= i < |s| ==> s[i] == s[1..][i - 1];
        if s[0] in s[1..] {
          var k :| 0 <= k < |s| - 1 && s[1..][k] == s[0];
          assert s[k + 1] == s[0];
        }
      }
      assert s[0] in s[1..] ==> multiset(s)[s[0]] >= 2;
      assert forall x :: multiset(s)[x] == multiset(s[1..])[x] + (if x == s[0] then 1 else 0);
    }
  }

  lemma {:induction false} DistinctForgetsOrder(a: seq<string>, b: seq<string>)
    requires multiset(a) == multiset(b)
    ensures Distinct(a) <==> Distinct(b)
  {
    DistinctByCount(a);
    DistinctByCount(b);
  }

  /** On a sorted sequence, looking at neighbours finds every duplicate. */
  lemma {:induction false} NeighboursShowDuplicates(s: seq<string>)
    requires IsSorted(s)
    ensures NoAdjacentDuplicates(s) <==> Distinct(s)
  {
    if NoAdjacentDuplicates(s) {
      forall i, j | 0 <= i < j < |s|
        ensures s[i] != s[j]
      {
        if s[i] == s[j] {
          assert LexLe(s[i], s[i + 1]);
          if i + 1 < j { assert LexLe(s[i + 1], s[j]); }
          LexReflexive(s[i]);
          LexAntisymmetric(s[i], s[i + 1]);
        }
      }
    }
  }

  lemma LexReflexive(a: string)
    ensures LexLe(a, a)
  {
  }

  /** Sort-then-compare-neighbours and comparing all pairs are the same test. */
  lemma {:induction false} SortedNeighboursShowDuplicates(s: seq<string>)
    ensures NoAdjacentDuplicates(Sort(s)) <==> Distinct(s)
  {
    NeighboursShowDuplicates(Sort(s));
    DistinctForgetsOrder(s, Sort(s));
  }

  // ----- characters -----

  predicate Upper(c: char) { 'A' <= c <= 'Z' }
  predicate Lower(c: char) { 'a' <= c <= 'z' }

  function ToLower(c: char): char { if Upper(c) then c + 32 as char else c }
  function ToUpper(c: char): char { if Lower(c) then c - 32 as char else c }

  predicate TokenMark(c: char) {
    c == '!' || c == '#' || c == '$' || c == '%' || c == '&' || c == '\'' || c == '*' || c == '+' || c == '.' ||
    c == '^' || c == '_' || c == '`' || c == '|' || c == '~'
  }

  /** tchar of section 5.6.2 of RFC 9110. */
  predicate TokenChar(c: char) {
    Upper(c) || Lower(c) || '0' <= c <= '9' || c == '-' || TokenMark(c)
  }

  /** The same characters, listed. */
  predicate InTokenAlphabet(c: char) {
    c in "!#$%&'*+-.^_`|~" || c in "0123456789" || 'A' <= c <= 'Z' || 'a' <= c <= 'z'
  }

  lemma {:induction false} MarksAreListed(c: char)
    ensures c in "!#$%&'*+-.^_`|~" <==> c == '-' || TokenMark(c)
  {
    var marks := "!#$%&'*+-.^_`|~";
    assert marks[0] == '!' && marks[1] == '#' && marks[2] == '$' && marks[3] == '%' && marks[4] == '&';
    assert marks[5] == '\'' && marks[6] == '*' && marks[7] == '+' && marks[8] == '-' && marks[9] == '.';
    assert marks[10] == '^' && marks[11] == '_' && marks[12] == '`' && marks[13] == '|' && marks[14] == '~';
  }

  lemma {:induction false} DigitsAreListed(c: char)
    ensures c in "0123456789" <==> '0' <= c <= '9'
  {
    var digits := "0123456789";
    if '0' <= c <= '9' { assert digits[c as int - '0' as int] == c; }
  }

  lemma {:induction false} TokenCharsAreListed(c: char)
    ensures TokenChar(c) <==> InTokenAlphabet(c)
  {
    MarksAreListed(c);
    DigitsAreListed(c);
  }

  /** tokenPattern: one or more token characters. */
  predicate Token(s: string) {
    s != "" && forall i :: 0 <= i < |s| ==> TokenChar(s[i])
  }

  /** A token, letter by letter. */
  lemma {:induction false} TokensAreListed(s: string)
    ensures Token(s) <==> s != "" && forall i :: 0 <= i < |s| ==> InTokenAlphabet(s[i])
  {
    forall i | 0 <= i < |s|
      ensures TokenChar(s[i]) <==> InTokenAlphabet(s[i])
    {
      TokenCharsAreListed(s[i]);
    }
  }

  /** Equal, or the two cases of one ASCII letter. */
  predicate SameLetter(a: char, b: char) {
    a == b ||
    ('A' <= a <= 'Z' && b as int == a as int + 32) ||
    ('A' <= b <= 'Z' && a as int == b as int + 32)
  }

  /** Equal up to the case of ASCII letters. */
  predicate CaseVariant(a: string, b: string) {
    |a| == |b| && forall i :: 0 <= i < |a| ==> SameLetter(a[i], b[i])
  }

  lemma {:induction false} FoldsAreCaseVariants(a: string, b: string)
    ensures Fold(a) == Fold(b) <==> CaseVariant(a, b)
  {
    if |a| == |b| {
      forall i | 0 <= i < |a|
        ensures Fold(a)[i] == Fold(b)[i] <==> SameLetter(a[i], b[i])
      {
      }
      if Fold(a) == Fold(b) {
        assert forall i :: 0 <= i < |a| ==> Fold(a)[i] == Fold(b)[i];
      }
    } else {
      assert |Fold(a)| == |a| && |Fold(b)| == |b|;
    }
  }

  function Fold(s: string): string {
    seq(|s|, i requires 0 <= i < |s| => ToLower(s[i]))
  }

  /** The position of the first `c`, or the length. */
  function IndexOf(s: string, c: char): (n: nat)
    ensures n <= |s| && c !in s[..n] && (n < |s| ==> s[n] == c)
  {
    if s == "" || s[0] == c then 0
    else
      var n := 1 + IndexOf(s[1..], c);
      assert s[..n] == [s[0]] + s[1..][..n - 1];
      n
  }

  lemma {:induction false} IndexOfIsFirst(a: string, c: char, b: string)
    requires c !in a
    ensures IndexOf(a + [c] + b, c) == |a|
  {
    var s := a + [c] + b;
    if a != "" {
      assert s[1..] == a[1..] + [c] + b;
      IndexOfIsFirst(a[1..], c, b);
    }
  }

  lemma {:induction false} IndexOfAbsent(s: string, c: char)
    requires c !in s
    ensures IndexOf(s, c) == |s|
  {
    if s != "" { IndexOfAbsent(s[1..], c); }
  }
}
