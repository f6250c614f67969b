/** The string operations the renaming code uses: `str.startswith`,
    `str.lower` (over ASCII) and counting a character. */
module Text {

  /** `s.startswith(prefix)`. */
  predicate StartsWith(s: string, prefix: string)
  {
    |prefix| <= |s| && s[..|prefix|] == prefix
  }

  /** A longer prefix implies the shorter one it extends. */
  lemma StartsWithShorter(s: string, prefix: string, n: nat)
    requires StartsWith(s, prefix) && n <= |prefix|
    ensures StartsWith(s, prefix[..n])
  {
    assert s[..n] == s[..|prefix|][..n];
  }

  /** Stripping a prefix and putting it back gives the string again. */
  lemma StripPrefix(s: string, prefix: string)
    requires StartsWith(s, prefix)
    ensures prefix + s[|prefix|..] == s
  {
    assert s == s[..|prefix|] + s[|prefix|..];
  }

  predicate IsUpper(c: char)
  {
    'A' <= c <= 'Z'
  }

  /** Lower-casing of one character; only ASCII letters change. */
  function LowerChar(c: char): (d: char)
    ensures IsUpper(c) ==> d as int == c as int + 32
    ensures !IsUpper(c) ==> d == c
    ensures !IsUpper(d)
  {
    if IsUpper(c) then (c as int + 32) as char else c
  }

  /** `s.lower()`, restricted to ASCII letters. */
  function Lower(s: string): string
  {
    if s == [] then [] else [LowerChar(s[0])] + Lower(s[1..])
  }

  /** Lower-casing keeps the length and maps each character on its own, so
      no upper-case letter is left and every other character stays put. */
  lemma {:induction false} LowerPointwise(s: string)
    ensures |Lower(s)| == |s|
    ensures forall i :: 0 <= i < |s| ==> Lower(s)[i] == LowerChar(s[i])
  {
    if s != [] {
      LowerPointwise(s[1..]);
      assert forall i :: 1 <= i < |s| ==> Lower(s)[i] == Lower(s[1..])[i - 1];
    }
  }

  /** Lower-casing twice is lower-casing once. */
  lemma LowerIdempotent(s: string)
    ensures Lower(Lower(s)) == Lower(s)
  {
    LowerPointwise(s);
    LowerPointwise(Lower(s));
  }

  /** Lower-casing introduces no character that is not already a lower-case
      letter or an unchanged character, so it adds no newline. */
  lemma LowerKeepsNewlines(s: string)
    ensures Count(Lower(s), '\n') == Count(s, '\n')
  {
    LowerPointwise(s);
    CountSame(s, Lower(s), '\n');
  }

  /** The number of occurrences of `c` in `s`. */
  function Count(s: string, c: char): nat
  {
    if s == [] then 0 else (if s[0] == c then 1 else 0) + Count(s[1..], c)
  }

  /** Counting distributes over concatenation. */
  lemma {:induction false} CountAppend(a: string, b: string, c: char)
    ensures Count(a + b, c) == Count(a, c) + Count(b, c)
  {
    if a != [] {
      assert (a + b)[1..] == a[1..] + b;
      CountAppend(a[1..], b, c);
    } else {
      assert a + b == b;
    }
  }

  /** A string without `c` holds none of it, and a string with `c` holds at
      least one. */
  lemma {:induction false} CountZero(s: string, c: char)
    ensures Count(s, c) == 0 <==> c !in s
  {
    if s != [] {
      CountZero(s[1..], c);
      assert c in s <==> s[0] == c || c in s[1..];
    }
  }

  /** Strings that agree on where `c` occurs count it alike. */
  lemma {:induction false} CountSame(s: string, t: string, c: char)
    requires |s| == |t|
    requires forall i :: 0 <= i < |s| ==> (s[i] == c <==> t[i] == c)
    ensures Count(s, c) == Count(t, c)
  {
    if s != [] {
      CountSame(s[1..], t[1..], c);
    }
  }
}
