/**
 * The Python `str` operations the analysis core relies on, written out on
 * Dafny strings: case conversion (ASCII only), `split` with a separator,
 * whitespace `split()`, `join`, `translate` with a deletion table, the `in`
 * substring test, `<` on strings and `str(int)`.
 */
module PyStr {

  // ---------------------------------------------------------------- case

  predicate IsUpperAscii(c: char) { 'A' <= c <= 'Z' }

  predicate IsLowerAscii(c: char) { 'a' <= c <= 'z' }

  /** `str.lower` on one character, restricted to ASCII. */
  function LowerChar(c: char): char {
    if IsUpperAscii(c) then (c as int + 32) as char else c
  }

  /** `str.upper` on one character, restricted to ASCII. */
  function UpperChar(c: char): char {
    if IsLowerAscii(c) then (c as int - 32) as char else c
  }

  /**
   * Lower-casing leaves no upper-case ASCII letter; each upper-case letter
   * becomes the lower-case letter that upper-cases back to it, and every
   * other character is kept.
   */
  function Lower(s: string): (r: string)
    ensures |r| == |s|
    ensures forall i :: 0 <= i < |r| ==> !IsUpperAscii(r[i])
    ensures forall i :: 0 <= i < |s| ==>
              (IsUpperAscii(s[i]) ==> IsLowerAscii(r[i]) && UpperChar(r[i]) == s[i]) &&
              (!IsUpperAscii(s[i]) ==> r[i] == s[i])
  {
    seq(|s|, i requires 0 <= i < |s| => LowerChar(s[i]))
  }

  /** The mirror image of `Lower`. */
  function Upper(s: string): (r: string)
    ensures |r| == |s|
    ensures forall i :: 0 <= i < |r| ==> !IsLowerAscii(r[i])
    ensures forall i :: 0 <= i < |s| ==>
              (IsLowerAscii(s[i]) ==> IsUpperAscii(r[i]) && LowerChar(r[i]) == s[i]) &&
              (!IsLowerAscii(s[i]) ==> r[i] == s[i])
  {
    seq(|s|, i requires 0 <= i < |s| => UpperChar(s[i]))
  }

  lemma UpperIdempotent(s: string)
    ensures Upper(Upper(s)) == Upper(s)
  {
  }

  /** Upper-casing forgets only case: lower-casing afterwards gives the lower-cased original. */
  lemma LowerUpper(s: string)
    ensures Lower(Upper(s)) == Lower(s)
  {
  }

  /** `UpperIdempotent` and `LowerUpper` for every string of a list. */
  lemma {:induction false} UpperAllFacts(t: seq<string>)
    ensures forall i :: 0 <= i < |t| ==> Upper(Upper(t[i])) == Upper(t[i]) && Lower(Upper(t[i])) == Lower(t[i])
  {
    forall i | 0 <= i < |t| ensures Upper(Upper(t[i])) == Upper(t[i]) && Lower(Upper(t[i])) == Lower(t[i]) {
      UpperIdempotent(t[i]);
      LowerUpper(t[i]);
    }
  }

  // ---------------------------------------------------------------- split / join

  /**
   * `s.split(sep)` for a non-empty separator (Python raises ValueError on an
   * empty one): cut at every left-to-right, non-overlapping occurrence.
   */
  function Split(s: string, sep: string): (parts: seq<string>)
    requires sep != []
    ensures parts != []
    decreases |s|
  {
    if |s| < |sep| then [s]
    else if s[..|sep|] == sep then [""] + Split(s[|sep|..], sep)
    else
      var rest := Split(s[1..], sep);
      [[s[0]] + rest[0]] + rest[1..]
  }

  /** `sep.join(parts)`. */
  function Join(sep: string, parts: seq<string>): string
  {
    if parts == [] then ""
    else if |parts| == 1 then parts[0]
    else parts[0] + sep + Join(sep, parts[1..])
  }

  lemma JoinCons(sep: string, x: string, rest: seq<string>)
    requires rest != []
    ensures Join(sep, [x] + rest) == x + sep + Join(sep, rest)
  {
    assert ([x] + rest)[1..] == rest;
  }

  /** Joining the pieces of a split with the same separator gives the string back. */
  lemma {:induction false} SplitJoin(s: string, sep: string)
    requires sep != []
    ensures Join(sep, Split(s, sep)) == s
    decreases |s|
  {
    if |s| < |sep| {
    } else if s[..|sep|] == sep {
      var tail := Split(s[|sep|..], sep);
      assert Split(s, sep) == [""] + tail;
      SplitJoin(s[|sep|..], sep);
      JoinCons(sep, "", tail);
      assert s == sep + s[|sep|..];
    } else {
      var rest := Split(s[1..], sep);
      assert Split(s, sep) == [[s[0]] + rest[0]] + rest[1..];
      SplitJoin(s[1..], sep);
      SplitJoinStep(s[0], rest, sep);
      assert s == [s[0]] + s[1..];
    }
  }

  lemma SplitJoinStep(c: char, rest: seq<string>, sep: string)
    requires rest != []
    ensures Join(sep, [[c] + rest[0]] + rest[1..]) == [c] + Join(sep, rest)
  {
    if |rest| > 1 {
      JoinCons(sep, [c] + rest[0], rest[1..]);
      JoinCons(sep, rest[0], rest[1..]);
      assert rest == [rest[0]] + rest[1..];
    }
  }

  /** Splitting on one character gives one more piece than there are occurrences of it. */
  lemma {:induction false} SplitCharCount(s: string, c: char)
    ensures |Split(s, [c])| == multiset(s)[c] + 1
    decreases |s|
  {
    if |s| >= 1 {
      SplitCharCount(s[1..], c);
      assert s == [s[0]] + s[1..];
      assert s[..1] == [s[0]];
    }
  }

  /** Every character of every piece of a split occurs in the split string. */
  lemma {:induction false} SplitPiecesWithin(s: string, sep: string)
    requires sep != []
    ensures forall p, x :: p in Split(s, sep) && x in p ==> x in s
    decreases |s|
  {
    if |s| < |sep| {
    } else if s[..|sep|] == sep {
      SplitPiecesWithin(s[|sep|..], sep);
      forall p, x | p in Split(s, sep) && x in p ensures x in s {
        assert p in Split(s[|sep|..], sep);
        assert x in s[|sep|..];
      }
    } else {
      var rest := Split(s[1..], sep);
      SplitPiecesWithin(s[1..], sep);
      forall p, x | p in Split(s, sep) && x in p ensures x in s {
        if p == [s[0]] + rest[0] {
          if x != s[0] {
            assert x in rest[0];
            assert x in s[1..];
          }
        } else {
          assert p in rest[1..];
          assert x in s[1..];
        }
      }
    }
  }

  /** No piece of a split on a character contains that character. */
  lemma {:induction false} SplitCharPiecesAvoid(s: string, c: char)
    ensures forall p :: p in Split(s, [c]) ==> c !in p
    decreases |s|
  {
    if |s| >= 1 {
      SplitCharPiecesAvoid(s[1..], c);
      assert s[..1] == [s[0]];
      if s[0] != c {
        var rest := Split(s[1..], [c]);
        assert rest[0] in rest;
        forall p | p in Split(s, [c]) ensures c !in p {
          if p != [s[0]] + rest[0] {
            assert p in rest;
          }
        }
      }
    }
  }

  /** Joining pieces free of a character with a separator free of it gives a string free of it. */
  lemma {:induction false} JoinAvoids(sep: string, parts: seq<string>, c: char)
    requires c !in sep
    requires forall p :: p in parts ==> c !in p
    ensures c !in Join(sep, parts)
    decreases |parts|
  {
    if |parts| > 1 {
      assert parts[0] in parts;
      forall p | p in parts[1..] ensures c !in p {
        assert p in parts;
      }
      JoinAvoids(sep, parts[1..], c);
    }
  }

  // ---------------------------------------------------------------- whitespace split

  /** Python's `str.isspace` for one character. */
  predicate IsSpace(c: char) {
    c == ' ' || ('\t' <= c <= '\r') || ('\U{1C}' <= c <= '\U{1F}') ||
    c == '\U{85}' || c == '\U{A0}' || c == '\U{1680}' || ('\U{2000}' <= c <= '\U{200A}') ||
    c == '\U{2028}' || c == '\U{2029}' || c == '\U{202F}' || c == '\U{205F}' || c == '\U{3000}'
  }

  /** Length of the run of non-space characters at the start of `s`. */
  function WordLength(s: string): (n: nat)
    ensures n <= |s|
    ensures forall i :: 0 <= i < n ==> !IsSpace(s[i])
  {
    if s == [] || IsSpace(s[0]) then 0 else 1 + WordLength(s[1..])
  }

  /** `s.split()`: the maximal runs of non-space characters, in order. */
  function SplitWhitespace(s: string): (words: seq<string>)
    decreases |s|
  {
    if s == [] then []
    else if IsSpace(s[0]) then SplitWhitespace(s[1..])
    else
      var n := WordLength(s);
      [s[..n]] + SplitWhitespace(s[n..])
  }

  /** The words of `s.split()` are non-empty, hold no whitespace and only characters of `s`. */
  lemma {:induction false} SplitWhitespaceWords(s: string)
    ensures forall w :: w in SplitWhitespace(s) ==> w != [] && forall i :: 0 <= i < |w| ==> !IsSpace(w[i])
    ensures forall w, x :: w in SplitWhitespace(s) && x in w ==> x in s
    decreases |s|
  {
    if s == [] {
    } else if IsSpace(s[0]) {
      SplitWhitespaceWords(s[1..]);
      forall w, x | w in SplitWhitespace(s) && x in w ensures x in s {
        assert x in s[1..];
      }
    } else {
      var n := WordLength(s);
      assert n >= 1;
      SplitWhitespaceWords(s[n..]);
      forall w, x | w in SplitWhitespace(s) && x in w ensures x in s {
        if w != s[..n] {
          assert w in SplitWhitespace(s[n..]);
          assert x in s[n..];
        }
      }
    }
  }

  // ---------------------------------------------------------------- translate

  /** `s.translate(str.maketrans('', '', chars))`: every character of `chars` deleted. */
  function Delete(s: string, chars: set<char>): (r: string)
    ensures forall x :: x in r <==> x in s && x !in chars
    ensures |r| <= |s|
  {
    if s == [] then []
    else (if s[0] in chars then [] else [s[0]]) + Delete(s[1..], chars)
  }

  // ---------------------------------------------------------------- substring test

  predicate StartsWith(s: string, prefix: string) {
    |prefix| <= |s| && s[..|prefix|] == prefix
  }

  /** Python's `sub in s`. */
  predicate Contains(s: string, sub: string)
    decreases |s|
  {
    StartsWith(s, sub) || (s != [] && Contains(s[1..], sub))
  }

  /** A string contains only substrings made of its own characters. */
  lemma {:induction false} ContainsChars(s: string, sub: string, x: char)
    requires Contains(s, sub) && x in sub
    ensures x in s
    decreases |s|
  {
    if StartsWith(s, sub) {
      assert x in s[..|sub|];
    } else {
      ContainsChars(s[1..], sub, x);
    }
  }

  // ---------------------------------------------------------------- ordering

  /** Python's `a < b` on strings: lexicographic by code point. */
  predicate Less(a: string, b: string) {
    if a == [] then b != []
    else if b == [] then false
    else if a[0] != b[0] then a[0] < b[0]
    else Less(a[1..], b[1..])
  }

  lemma {:induction false} LessIrreflexive(a: string)
    ensures !Less(a, a)
  {
    if a != [] { LessIrreflexive(a[1..]); }
  }

  lemma {:induction false} LessTransitive(a: string, b: string, c: string)
    requires Less(a, b) && Less(b, c)
    ensures Less(a, c)
  {
    if a != [] && b != [] && c != [] && a[0] == b[0] && b[0] == c[0] {
      LessTransitive(a[1..], b[1..], c[1..]);
    }
  }

  lemma {:induction false} LessTotal(a: string, b: string)
    ensures a == b || Less(a, b) || Less(b, a)
  {
    if a != [] && b != [] && a[0] == b[0] {
      LessTotal(a[1..], b[1..]);
      if a[1..] == b[1..] {
        assert a == [a[0]] + a[1..] && b == [b[0]] + b[1..];
      }
    }
  }

  // ---------------------------------------------------------------- str(int)

  function DigitChar(d: nat): char
    requires d < 10
  {
    ('0' as int + d) as char
  }

  function Digits(n: nat): (r: string)
    ensures r != []
    decreases n
  {
    if n < 10 then [DigitChar(n)] else Digits(n / 10) + [DigitChar(n % 10)]
  }

  /** `str(i)` for an integer. */
  function IntToString(i: int): string {
    if i < 0 then "-" + Digits(-i) else Digits(i)
  }
}
