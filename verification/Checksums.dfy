/** validateReleaseChecksums: the checksum file of a release is accepted exactly in its canonical form. */
module Checksums {
  import opened Basics
  import opened Text

  const DIGEST_BYTES := 32

  newtype Byte = x: int | 0 <= x < 256

  type Digest = d: seq<Byte> | |d| == DIGEST_BYTES witness seq(DIGEST_BYTES, _ => 0)

  /** Go's array lookup in a map: zero bytes for a name that is not there. */
  function DigestOf(digests: map<string, Digest>, name: string): Digest {
    if name in digests then digests[name] else seq(DIGEST_BYTES, _ => 0)
  }

  /** No newline inside. */
  predicate Unbroken(lines: seq<string>) {
    forall i :: 0 <= i < |lines| ==> '\n' !in lines[i]
  }

  // ----- the canonical form -----

  function HexDigit(n: int): char
    requires 0 <= n < 16
  {
    if n < 10 then '0' + n as char else 'a' + (n - 10) as char
  }

  /** fmt's %x: two lower-case digits a byte. */
  function Hex(d: seq<Byte>): string {
    if d == [] then "" else [HexDigit(d[0] as int / 16), HexDigit(d[0] as int % 16)] + Hex(d[1..])
  }

  function Line(digests: map<string, Digest>, name: string): string {
    Hex(DigestOf(digests, name)) + "  " + name
  }

  function Lines(digests: map<string, Digest>, names: seq<string>): seq<string> {
    seq(|names|, i requires 0 <= i < |names| => Line(digests, names[i]))
  }

  /** Every line followed by a newline. */
  function Unlines(lines: seq<string>): string {
    if lines == [] then "" else lines[0] + "\n" + Unlines(lines[1..])
  }

  /** The checksum file: sorted names, each with its digest. */
  function Render(digests: map<string, Digest>, names: seq<string>): string {
    Unlines(Lines(digests, Sort(names)))
  }

  /** What a line of the file shows, read character by character: the 64 hexadecimal digits of a digest,
      high half first, two spaces and the name. */
  ghost predicate Shows(line: string, digest: seq<int>, name: string) {
    |digest| == 32 && |line| == 66 + |name| &&
    (forall i :: 0 <= i < 32 ==>
       0 <= digest[i] < 256 &&
       line[2 * i] == "0123456789abcdef"[digest[i] / 16] && line[2 * i + 1] == "0123456789abcdef"[digest[i] % 16]) &&
    line[64] == ' ' && line[65] == ' ' && line[66..] == name
  }

  /** The bytes of the digest listed for a name; zeros if there is none. */
  ghost function ListedBytes(digests: map<string, Digest>, name: string): seq<int> {
    seq(32, i requires 0 <= i < 32 => if name in digests then digests[name][i] as int else 0)
  }

  /** The lines show the digests of the names, in order. */
  ghost predicate ShowsAll(lines: seq<string>, digests: map<string, Digest>, names: seq<string>) {
    |lines| == |names| && forall i :: 0 <= i < |names| ==> Shows(lines[i], ListedBytes(digests, names[i]), names[i])
  }

  lemma {:induction false} HexDigits(n: int)
    requires 0 <= n < 16
    ensures HexDigit(n) == "0123456789abcdef"[n]
  {
    var digits := "0123456789abcdef";
    assert n < 8 ==> digits[n] == '0' + n as char;
    assert 8 <= n < 10 ==> digits[n] == '0' + n as char;
    assert 10 <= n < 16 ==> digits[n] == 'a' + (n - 10) as char;
  }

  /** Every byte gives its two digits, the high one first. */
  lemma {:induction false} HexAt(d: seq<Byte>, i: nat)
    requires i < |d|
    ensures |Hex(d)| == 2 * |d|
    ensures Hex(d)[2 * i] == "0123456789abcdef"[d[i] as int / 16]
    ensures Hex(d)[2 * i + 1] == "0123456789abcdef"[d[i] as int % 16]
  {
    HexShape(d);
    HexShape(d[1..]);
    if i == 0 {
      HexDigits(d[0] as int / 16);
      HexDigits(d[0] as int % 16);
    } else {
      HexAt(d[1..], i - 1);
      assert Hex(d)[2 * i] == Hex(d[1..])[2 * (i - 1)];
      assert Hex(d)[2 * i + 1] == Hex(d[1..])[2 * (i - 1) + 1];
    }
  }

  lemma {:induction false} LineShows(digests: map<string, Digest>, name: string)
    ensures Shows(Line(digests, name), ListedBytes(digests, name), name)
  {
    var d := DigestOf(digests, name);
    HexShape(d);
    forall i | 0 <= i < 32
      ensures Line(digests, name)[2 * i] == "0123456789abcdef"[ListedBytes(digests, name)[i] / 16]
      ensures Line(digests, name)[2 * i + 1] == "0123456789abcdef"[ListedBytes(digests, name)[i] % 16]
    {
      HexAt(d, i);
    }
  }

  lemma {:induction false} ShownOnce(a: string, b: string, digest: seq<int>, name: string)
    requires Shows(a, digest, name) && Shows(b, digest, name)
    ensures a == b
  {
    forall k | 0 <= k < 64
      ensures a[k] == b[k]
    {
      var i := k / 2;
      assert 0 <= digest[i] < 256;
      assert k == 2 * i || k == 2 * i + 1;
    }
    assert a == a[..64] + [a[64]] + [a[65]] + a[66..];
    assert b == b[..64] + [b[64]] + [b[65]] + b[66..];
    assert a[..64] == b[..64];
  }

  /** A canonical line is exactly one that shows the digest and the name. */
  lemma {:induction false} CanonicalLinesShow(lines: seq<string>, digests: map<string, Digest>, names: seq<string>)
    ensures lines == Lines(digests, names) <==> ShowsAll(lines, digests, names)
  {
    forall i | 0 <= i < |names|
      ensures Shows(Lines(digests, names)[i], ListedBytes(digests, names[i]), names[i])
    {
      LineShows(digests, names[i]);
    }
    if ShowsAll(lines, digests, names) {
      forall i | 0 <= i < |names|
        ensures lines[i] == Lines(digests, names)[i]
      {
        ShownOnce(lines[i], Lines(digests, names)[i], ListedBytes(digests, names[i]), names[i]);
      }
    }
  }

  // ----- the code -----

  /** strings.Split at newlines: always at least one piece. */
  function Split(s: string): (pieces: seq<string>)
    ensures pieces != []
    decreases |s|
  {
    var n := IndexOf(s, '\n');
    if n == |s| then [s] else [s[..n]] + Split(s[n + 1..])
  }

  /** A text without its last byte. */
  function Chopped(s: string): string
    requires s != ""
  {
    s[..|s| - 1]
  }

  predicate EndsInNewline(s: string) {
    s != "" && s[|s| - 1] == '\n'
  }

  function Newlines(s: string): nat {
    multiset(s)['\n']
  }

  /** The lists agree before line n, counted from one, and differ there. */
  predicate FirstDifference(a: seq<string>, b: seq<string>, n: nat) {
    1 <= n <= |a| && n <= |b| && a[..n - 1] == b[..n - 1] && a[n - 1] != b[n - 1]
  }

  datatype ChecksumError = MissingNewline | WrongLineCount | WrongLine(line: nat)

  /** validateReleaseChecksums on the file's content. No name may contain a newline and there must be one,
      or nothing is accepted. The error says exactly what is wrong: no final newline, a wrong number of
      newlines, or else the first line that is not the canonical one. Read line by line, an accepted file
      shows the digest of each name, in hexadecimal, in the order of the names. */
  method ValidateReleaseChecksums(content: string, digests: map<string, Digest>, names: seq<string>)
    returns (problem: Option<ChecksumError>)
    ensures problem.None? <==> names != [] && Unbroken(names) &&
                               content == Render(digests, names)
    ensures problem.None? <==> EndsInNewline(content) && ShowsAll(Split(Chopped(content)), digests, Sort(names))
    ensures problem == Some(MissingNewline) <==> !EndsInNewline(content)
    ensures problem == Some(WrongLineCount) <==> EndsInNewline(content) && Newlines(content) != |names|
    ensures problem.Some? && problem.value.WrongLine? ==>
              EndsInNewline(content) &&
              FirstDifference(Split(Chopped(content)), Lines(digests, Sort(names)), problem.value.line)
  {
    var ordered := Sort(names);
    AcceptedContent(content, digests, names);
    if EndsInNewline(content) { CanonicalLinesShow(Split(Chopped(content)), digests, ordered); }
    if |content| == 0 || content[|content| - 1] != '\n' {
      return Some(MissingNewline);
    }
    var lines := Split(Chopped(content));
    LinesCountNewlines(content);
    if |lines| != |ordered| {
      return Some(WrongLineCount);
    }
    var wrong := CompareLines(lines, digests, ordered);
    return if wrong.Some? then Some(WrongLine(wrong.value)) else None;
  }

  /** The loop over the sorted names: the number of the first line that is not the wanted one. */
  method CompareLines(lines: seq<string>, digests: map<string, Digest>, ordered: seq<string>)
    returns (wrong: Option<nat>)
    requires |lines| == |ordered|
    ensures wrong.None? <==> lines == Lines(digests, ordered)
    ensures wrong.Some? ==> FirstDifference(lines, Lines(digests, ordered), wrong.value)
  {
    ghost var wanted := Lines(digests, ordered);
    for index := 0 to |ordered|
      invariant forall i :: 0 <= i < index ==> lines[i] == wanted[i]
    {
      if lines[index] != Line(digests, ordered[index]) {
        assert lines[..index] == wanted[..index];
        assert wanted[index] != lines[index];
        return Some(index + 1);
      }
    }
    assert lines == wanted;
    return None;
  }

  // ----- splitting and joining -----

  lemma {:induction false} UnlinesCons(first: string, rest: seq<string>)
    ensures Unlines([first] + rest) == first + "\n" + Unlines(rest)
    ensures '\n' !in first && Unbroken(rest) ==> Unbroken([first] + rest)
  {
    assert ([first] + rest)[1..] == rest;
  }

  lemma {:induction false} Cut(s: string, n: nat)
    requires n < |s| && s[n] == '\n'
    ensures s + "\n" == s[..n] + "\n" + (s[n + 1..] + "\n")
  {
  }

  lemma {:induction false} SplitJoins(s: string)
    ensures Unlines(Split(s)) == s + "\n"
    ensures Unbroken(Split(s))
    decreases |s|
  {
    var n := IndexOf(s, '\n');
    if n == |s| {
      UnlinesCons(s, []);
      assert [s] + [] == [s] && s[..n] == s;
    } else {
      SplitJoins(s[n + 1..]);
      UnlinesCons(s[..n], Split(s[n + 1..]));
      Cut(s, n);
    }
  }

  /** Splitting at the first newline. */
  lemma {:induction false} SplitCons(first: string, rest: string)
    requires '\n' !in first
    ensures Split(first + "\n" + rest) == [first] + Split(rest)
  {
    var body := first + "\n" + rest;
    IndexOfIsFirst(first, '\n', rest);
    assert body[..|first|] == first && body[|first| + 1..] == rest;
  }

  lemma {:induction false} NewlinesSum(a: string, b: string)
    ensures Newlines(a + b) == Newlines(a) + Newlines(b)
  {
    assert multiset(a + b) == multiset(a) + multiset(b);
  }

  lemma {:induction false} NoNewlines(s: string)
    requires '\n' !in s
    ensures Newlines(s) == 0
  {
    assert '\n' !in multiset(s);
  }

  lemma {:induction false} SplitCountsNewlines(s: string)
    ensures |Split(s)| == 1 + Newlines(s)
    decreases |s|
  {
    var n := IndexOf(s, '\n');
    if n == |s| {
      assert s[..n] == s;
    } else {
      SplitCountsNewlines(s[n + 1..]);
      assert s == s[..n] + ("\n" + s[n + 1..]);
      NewlinesSum(s[..n], "\n" + s[n + 1..]);
      NewlinesSum("\n", s[n + 1..]);
      NoNewlines(s[..n]);
    }
  }

  lemma {:induction false} LinesCountNewlines(content: string)
    requires EndsInNewline(content)
    ensures |Split(Chopped(content))| == Newlines(content)
  {
    SplitCountsNewlines(Chopped(content));
    assert content == Chopped(content) + "\n";
    NewlinesSum(Chopped(content), "\n");
  }

  lemma {:induction false} ChoppedTail(first: string, tail: string)
    requires tail != ""
    ensures Chopped(first + "\n" + tail) == first + "\n" + Chopped(tail)
    ensures (first + "\n" + tail)[|first + "\n" + tail| - 1] == tail[|tail| - 1]
  {
  }

  lemma {:induction false} JoinSplitsOne(line: string)
    requires '\n' !in line
    ensures Unlines([line]) == line + "\n" && Split(Chopped(Unlines([line]))) == [line]
  {
    UnlinesCons(line, []);
    assert [line] + [] == [line];
    assert Unlines([line]) == line + "\n";
    assert Chopped(line + "\n") == line;
    NoBreak(line);
  }

  lemma {:induction false} JoinSplits(lines: seq<string>)
    requires lines != [] && Unbroken(lines)
    ensures EndsInNewline(Unlines(lines))
    ensures Split(Chopped(Unlines(lines))) == lines
  {
    var first, rest := lines[0], lines[1..];
    assert lines == [first] + rest;
    if rest == [] {
      assert lines == [first];
      JoinSplitsOne(first);
    } else {
      UnlinesCons(first, rest);
      JoinSplits(rest);
      ChoppedTail(first, Unlines(rest));
      SplitCons(first, Chopped(Unlines(rest)));
    }
  }

  lemma {:induction false} NoBreak(s: string)
    requires '\n' !in s
    ensures Split(s) == [s]
  {
    IndexOfAbsent(s, '\n');
  }

  /** A text ends in a newline and splits into given lines exactly if it is those lines joined, there is
      one, and none is broken. */
  lemma {:induction false} SplitMeansJoined(content: string, lines: seq<string>)
    ensures (EndsInNewline(content) && Split(Chopped(content)) == lines) <==>
            (lines != [] && Unbroken(lines) && content == Unlines(lines))
  {
    if lines != [] && Unbroken(lines) && content == Unlines(lines) { JoinSplits(lines); }
    if EndsInNewline(content) {
      SplitJoins(Chopped(content));
      assert content == Chopped(content) + "\n";
    }
  }

  lemma {:induction false} UnlinesIsInjective(a: seq<string>, b: seq<string>)
    requires Unbroken(a) && Unbroken(b) && Unlines(a) == Unlines(b)
    ensures a == b
  {
    SplitMeansJoined(Unlines(a), a);
    SplitMeansJoined(Unlines(b), b);
  }

  /** Comparing the pieces of the file with the expected lines is comparing the file with its canonical
      form, unless a name hides a newline: then nothing is accepted. */
  lemma {:induction false} AcceptedContent(content: string, digests: map<string, Digest>, names: seq<string>)
    ensures (EndsInNewline(content) && Split(Chopped(content)) == Lines(digests, Sort(names))) <==>
            (names != [] && Unbroken(names) && content == Render(digests, names))
  {
    NewlineFree(digests, names);
    SplitMeansJoined(content, Lines(digests, Sort(names)));
  }

  lemma {:induction false} HexShape(d: seq<Byte>)
    ensures |Hex(d)| == 2 * |d|
    ensures '\n' !in Hex(d)
  {
    if d != [] { HexShape(d[1..]); }
  }

  lemma {:induction false} NewlineFree(digests: map<string, Digest>, names: seq<string>)
    ensures Unbroken(names) <==> Unbroken(Lines(digests, Sort(names)))
  {
    var ordered, lines := Sort(names), Lines(digests, Sort(names));
    forall i | 0 <= i < |ordered|
      ensures '\n' in lines[i] <==> '\n' in ordered[i]
    {
      HexShape(DigestOf(digests, ordered[i]));
    }
    assert Unbroken(lines) <==> Unbroken(ordered);
    UnbrokenForgetsOrder(names, ordered);
  }

  lemma {:induction false} UnbrokenForgetsOrder(a: seq<string>, b: seq<string>)
    requires multiset(a) == multiset(b)
    ensures Unbroken(a) <==> Unbroken(b)
  {
    UnbrokenBySet(a);
    UnbrokenBySet(b);
    forall x
      ensures x in a <==> x in b
    {
      assert x in a <==> x in multiset(a);
      assert x in b <==> x in multiset(b);
    }
  }

  lemma {:induction false} UnbrokenBySet(a: seq<string>)
    ensures Unbroken(a) <==> forall x :: x in a ==> '\n' !in x
  {
    if forall x :: x in a ==> '\n' !in x {
      assert forall i :: 0 <= i < |a| ==> a[i] in a;
    }
  }

  // ----- an accepted file determines its digests -----

  lemma {:induction false} HexIsInjective(a: seq<Byte>, b: seq<Byte>)
    requires |a| == |b| && Hex(a) == Hex(b)
    ensures a == b
  {
    if a != [] {
      assert Hex(a)[0] == Hex(b)[0] && Hex(a)[1] == Hex(b)[1];
      assert Hex(a)[2..] == Hex(a[1..]) && Hex(b)[2..] == Hex(b[1..]);
      DigitsAreInjective(a[0] as int, b[0] as int);
      HexIsInjective(a[1..], b[1..]);
      assert a == [a[0]] + a[1..] && b == [b[0]] + b[1..];
    }
  }

  lemma {:induction false} DigitsAreInjective(x: int, y: int)
    requires 0 <= x < 256 && 0 <= y < 256
    requires HexDigit(x / 16) == HexDigit(y / 16) && HexDigit(x % 16) == HexDigit(y % 16)
    ensures x == y
  {
    assert x / 16 == y / 16 && x % 16 == y % 16;
  }

  lemma {:induction false} LineIsInjective(a: map<string, Digest>, b: map<string, Digest>, m: string, n: string)
    requires Line(a, m) == Line(b, n)
    ensures m == n && DigestOf(a, m) == DigestOf(b, n)
  {
    HexShape(DigestOf(a, m));
    HexShape(DigestOf(b, n));
    assert Line(a, m)[..64] == Hex(DigestOf(a, m)) && Line(b, n)[..64] == Hex(DigestOf(b, n));
    assert Line(a, m)[66..] == m && Line(b, n)[66..] == n;
    HexIsInjective(DigestOf(a, m), DigestOf(b, n));
  }

  /** One file, one meaning: if two sets of names with digests have the same canonical form, the names are
      the same up to order and so is the digest of every name. */
  lemma {:induction false} FileDeterminesDigests(
    a: map<string, Digest>, b: map<string, Digest>, m: seq<string>, n: seq<string>)
    requires Unbroken(m)
    requires Unbroken(n)
    requires Render(a, m) == Render(b, n)
    ensures Sort(m) == Sort(n) && multiset(m) == multiset(n)
    ensures forall name :: name in m ==> DigestOf(a, name) == DigestOf(b, name)
  {
    NewlineFree(a, m);
    NewlineFree(b, n);
    UnlinesIsInjective(Lines(a, Sort(m)), Lines(b, Sort(n)));
    SameLines(a, b, Sort(m), Sort(n));
    assert multiset(m) == multiset(Sort(m));
    forall name | name in m
      ensures DigestOf(a, name) == DigestOf(b, name)
    {
      assert name in multiset(m);
      var i :| 0 <= i < |Sort(m)| && Sort(m)[i] == name;
    }
  }

  lemma {:induction false} SameLines(a: map<string, Digest>, b: map<string, Digest>, m: seq<string>, n: seq<string>)
    requires Lines(a, m) == Lines(b, n)
    ensures m == n && forall i :: 0 <= i < |m| ==> DigestOf(a, m[i]) == DigestOf(b, m[i])
  {
    assert |m| == |Lines(a, m)| == |n|;
    forall i | 0 <= i < |m|
      ensures m[i] == n[i] && DigestOf(a, m[i]) == DigestOf(b, m[i])
    {
      assert Lines(a, m)[i] == Lines(b, n)[i];
      LineIsInjective(a, b, m[i], n[i]);
    }
  }
}
