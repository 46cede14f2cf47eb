/**
 * The slice of java.lang that the plugin relies on: 32-bit int arithmetic,
 * String.replaceAll and String.split with a literal pattern, and
 * String.equalsIgnoreCase against lower-case ASCII words.
 */
module JavaLang {

  // ---------------------------------------------------------------------------
  // 32-bit int arithmetic
  // ---------------------------------------------------------------------------

  const IntMin: int := -0x8000_0000
  const IntMax: int := 0x7fff_ffff

  predicate IsInt(x: int) {
    IntMin <= x <= IntMax
  }

  /** Two's complement wrap-around of a mathematical result into a Java int. */
  function Wrap(x: int): (r: int)
    ensures IsInt(r)
    ensures (r - x) % 0x1_0000_0000 == 0
    ensures IsInt(x) ==> r == x
  {
    (x - IntMin) % 0x1_0000_0000 + IntMin
  }

  /** Math.abs(int): the negation of Integer.MIN_VALUE wraps back to itself. */
  function Abs(x: int): (r: int)
    requires IsInt(x)
    ensures IsInt(r)
    ensures x != IntMin ==> r >= 0 && (r == x || r == -x)
    ensures x == IntMin ==> r == IntMin
  {
    if x < 0 then Wrap(-x) else x
  }

  lemma MulMono(a: int, b: int, n: int)
    requires n > 0 && a >= b
    ensures a * n >= b * n
  {
  }

  /** The quotient and remainder of a division by a positive number are unique. */
  lemma ModUnique(a: int, n: int, q: int, r: int)
    requires n > 0 && 0 <= r < n && a == q * n + r
    ensures a % n == r
  {
    var q' := a / n;
    assert a == q' * n + a % n;
    if q' > q {
      MulMono(q', q + 1, n);
      assert false;
    } else if q' < q {
      MulMono(q, q' + 1, n);
      assert false;
    }
  }

  /** Subtracting the Euclidean remainder leaves a multiple of the divisor's magnitude. */
  lemma ModMultiple(a: int, b: int)
    requires b != 0
    ensures (a - a % b) % (if b > 0 then b else -b) == 0
  {
    var m := if b > 0 then b else -b;
    var q := a / b;
    assert a - a % b == q * b;
    if b > 0 {
      ModUnique(q * b, m, q, 0);
    } else {
      assert q * b == (-q) * m;
      ModUnique(q * b, m, -q, 0);
    }
  }

  /** Java's `%`: the quotient truncates toward zero, so the remainder takes the sign of `a`. */
  function Rem(a: int, b: int): (r: int)
    requires b != 0
    ensures a >= 0 ==> 0 <= r <= a && r < if b > 0 then b else -b
    ensures a < 0 ==> a <= r <= 0 && -(if b > 0 then b else -b) < r
    ensures (a - r) % (if b > 0 then b else -b) == 0
  {
    var m := if b > 0 then b else -b;
    if a >= 0 then
      RemNonNegative(a, b, m);
      a % b
    else
      RemNonNegative(-a, b, m);
      ModNegate(a + (-a) % b, m);
      -((-a) % b)
  }

  lemma RemNonNegative(a: int, b: int, m: int)
    requires a >= 0 && b != 0 && m == if b > 0 then b else -b
    ensures 0 <= a % b <= a && a % b < m
    ensures (a - a % b) % m == 0
  {
    ModMultiple(a, b);
    if a < m {
      ModUnique(a, m, 0, a);
      assert a % b == a % m;
    }
  }

  /** The negation of a multiple is a multiple. */
  lemma ModNegate(x: int, m: int)
    requires m > 0 && (-x) % m == 0
    ensures x % m == 0
  {
    var q := (-x) / m;
    assert -x == q * m;
    assert x == (-q) * m;
    ModUnique(x, m, -q, 0);
  }

  // ---------------------------------------------------------------------------
  // Literal search over strings
  // ---------------------------------------------------------------------------

  predicate StartsWith(s: string, p: string) {
    |p| <= |s| && s[..|p|] == p
  }

  /** `s` holds no occurrence of `p` at any position. */
  predicate Free(s: string, p: string)
    decreases |s|
  {
    s == [] || (!StartsWith(s, p) && Free(s[1..], p))
  }

  lemma {:induction false} FreeSuffix(s: string, p: string, k: nat)
    requires Free(s, p) && k <= |s|
    ensures Free(s[k..], p)
    decreases k
  {
    if k > 0 {
      assert s[k..] == s[1..][k - 1..];
      FreeSuffix(s[1..], p, k - 1);
    }
  }

  /** A string with no copy of the first character of `p` cannot contain `p`. */
  lemma {:induction false} FreeWithoutHead(s: string, p: string)
    requires |p| > 0 && p[0] !in s
    ensures Free(s, p)
    decreases |s|
  {
    if s != [] {
      assert forall c :: c in s[1..] ==> c in s;
      FreeWithoutHead(s[1..], p);
    }
  }

  /** Prefixing a string without the first character of `p` creates no occurrence of `p`. */
  lemma {:induction false} FreeConcat(a: string, b: string, p: string)
    requires |p| > 0 && p[0] !in a && Free(b, p)
    ensures Free(a + b, p)
    decreases |a|
  {
    if a != [] {
      assert (a + b)[1..] == a[1..] + b;
      assert (a + b)[0] == a[0] && a[0] in a;
      assert forall c :: c in a[1..] ==> c in a;
      assert !StartsWith(a + b, p) by {
        if |p| <= |a + b| {
          assert (a + b)[..|p|][0] == a[0];
        }
      }
      FreeConcat(a[1..], b, p);
    } else {
      assert a + b == b;
    }
  }

  // ---------------------------------------------------------------------------
  // String.replaceAll with a pattern free of regular-expression operators
  // ---------------------------------------------------------------------------

  /**
   * Replaces, scanning left to right, every non-overlapping occurrence of
   * `target` by `replacement`. This is what String.replaceAll does when the
   * regular expression has no metacharacters and the replacement no `$` or `\`.
   */
  function ReplaceAll(s: string, target: string, replacement: string): string
    requires |target| > 0
    decreases |s|
  {
    if s == [] then []
    else if StartsWith(s, target) then replacement + ReplaceAll(s[|target|..], target, replacement)
    else [s[0]] + ReplaceAll(s[1..], target, replacement)
  }

  /** Text without an occurrence of the target comes back unchanged. */
  lemma {:induction false} ReplaceAllFree(s: string, target: string, replacement: string)
    requires |target| > 0 && Free(s, target)
    ensures ReplaceAll(s, target, replacement) == s
    decreases |s|
  {
    if s != [] {
      ReplaceAllFree(s[1..], target, replacement);
    }
  }

  /** A prefix without the target's first character is copied through untouched. */
  lemma {:induction false} ReplaceAllPrefix(a: string, s: string, target: string, replacement: string)
    requires |target| > 0 && target[0] !in a
    ensures ReplaceAll(a + s, target, replacement) == a + ReplaceAll(s, target, replacement)
    decreases |a|
  {
    if a != [] {
      assert (a + s)[0] == a[0] && a[0] in a;
      assert forall c :: c in a[1..] ==> c in a;
      assert !StartsWith(a + s, target) by {
        if |target| <= |a + s| {
          assert (a + s)[..|target|][0] == a[0];
        }
      }
      assert (a + s)[1..] == a[1..] + s;
      ReplaceAllPrefix(a[1..], s, target, replacement);
    } else {
      assert a + s == s;
    }
  }

  /** An occurrence of the target is replaced, and scanning resumes right after it. */
  lemma ReplaceAllAtTarget(s: string, target: string, replacement: string)
    requires |target| > 0
    ensures ReplaceAll(target + s, target, replacement) == replacement + ReplaceAll(s, target, replacement)
  {
    assert StartsWith(target + s, target);
    assert (target + s)[|target|..] == s;
  }

  // ---------------------------------------------------------------------------
  // String.split with a literal separator
  // ---------------------------------------------------------------------------

  /** The inverse of splitting: the pieces glued back together with the separator. */
  function Join(parts: seq<string>, sep: string): string
    requires |parts| > 0
  {
    if |parts| == 1 then parts[0] else parts[0] + sep + Join(parts[1..], sep)
  }

  /**
   * Every piece around the leftmost non-overlapping occurrences of `sep`,
   * empty pieces included: one more piece than there are occurrences.
   */
  function SplitAll(s: string, sep: string): (parts: seq<string>)
    requires |sep| > 0
    ensures |parts| > 0 && Join(parts, sep) == s
    decreases |s|
  {
    if s == [] then [""]
    else if StartsWith(s, sep) then
      assert s == sep + s[|sep|..];
      [""] + SplitAll(s[|sep|..], sep)
    else
      var rest := SplitAll(s[1..], sep);
      assert s == [s[0]] + s[1..];
      [[s[0]] + rest[0]] + rest[1..]
  }

  /** The longest prefix of `parts` that does not end with an empty string. */
  function DropTrailingEmpty(parts: seq<string>): (r: seq<string>)
    ensures r <= parts
    ensures r == [] || r[|r| - 1] != ""
    ensures forall k :: |r| <= k < |parts| ==> parts[k] == ""
  {
    if parts == [] then []
    else if parts[|parts| - 1] == "" then DropTrailingEmpty(parts[..|parts| - 1])
    else parts
  }

  /**
   * String.split(sep) with limit 0: when the separator occurs, the pieces
   * with every trailing empty piece removed; when it does not, the input
   * itself, even when that is the empty string.
   */
  function Split(s: string, sep: string): seq<string>
    requires |sep| > 0
  {
    var all := SplitAll(s, sep);
    if |all| == 1 then all else DropTrailingEmpty(all)
  }

  /**
   * What split(sep) keeps of all the pieces: a prefix of them, missing only
   * empty ones, not ending with an empty one when the separator occurs, and
   * the whole input when it does not.
   */
  lemma SplitLimitZero(s: string, sep: string)
    requires |sep| > 0
    ensures Split(s, sep) <= SplitAll(s, sep)
    ensures forall k :: |Split(s, sep)| <= k < |SplitAll(s, sep)| ==> SplitAll(s, sep)[k] == ""
    ensures |SplitAll(s, sep)| == 1 ==> Split(s, sep) == [s]
    ensures |SplitAll(s, sep)| > 1 ==> Split(s, sep) == [] || Split(s, sep)[|Split(s, sep)| - 1] != ""
  {
  }

  /** Without an occurrence of the separator there is exactly one piece: the input. */
  lemma {:induction false} SplitAllFree(s: string, sep: string)
    requires |sep| > 0 && Free(s, sep)
    ensures SplitAll(s, sep) == [s]
    decreases |s|
  {
    if s != [] {
      SplitAllFree(s[1..], sep);
    }
  }

  /** No piece produced by splitting still contains the separator. */
  lemma {:induction false} SplitAllPiecesFree(s: string, sep: string)
    requires |sep| > 0
    ensures forall k :: 0 <= k < |SplitAll(s, sep)| ==> Free(SplitAll(s, sep)[k], sep)
    decreases |s|
  {
    if s != [] {
      if StartsWith(s, sep) {
        SplitAllPiecesFree(s[|sep|..], sep);
      } else {
        var rest := SplitAll(s[1..], sep);
        SplitAllPiecesFree(s[1..], sep);
        var first := [s[0]] + rest[0];
        JoinStartsWithHead(rest, sep);
        assert first <= s;
        assert !StartsWith(first, sep);
        assert first[1..] == rest[0];
        assert Free(first, sep);
        forall k | 0 <= k < |SplitAll(s, sep)|
          ensures Free(SplitAll(s, sep)[k], sep)
        {
          if k > 0 {
            assert SplitAll(s, sep)[k] == rest[k];
          }
        }
      }
    }
  }

  /** SplitAll at a position where the separator does not start: the first character joins the first piece. */
  lemma SplitAllStep(s: string, sep: string)
    requires |sep| > 0 && s != [] && !StartsWith(s, sep)
    ensures var rest := SplitAll(s[1..], sep);
            SplitAll(s, sep) == [[s[0]] + rest[0]] + rest[1..]
  {
  }

  /**
   * With a one-character separator, a piece free of it followed by the
   * separator splits off as the first piece.
   */
  lemma {:induction false} SplitAllCons(a: string, c: char, rest: string)
    requires c !in a
    ensures SplitAll(a + [c] + rest, [c]) == [a] + SplitAll(rest, [c])
    decreases |a|
  {
    var s := a + [c] + rest;
    if a == [] {
      assert s == [c] + rest;
      assert StartsWith(s, [c]);
      assert s[1..] == rest;
    } else {
      assert s[0] == a[0] && a[0] in a;
      assert s[..1] == [a[0]];
      assert !StartsWith(s, [c]);
      assert c !in a[1..] by {
        assert forall x :: x in a[1..] ==> x in a;
      }
      assert s[1..] == a[1..] + [c] + rest;
      SplitAllCons(a[1..], c, rest);
      var tail := SplitAll(s[1..], [c]);
      assert tail[0] == a[1..] && tail[1..] == SplitAll(rest, [c]);
      SplitAllStep(s, [c]);
      assert [a[0]] + a[1..] == a;
    }
  }

  lemma JoinStartsWithHead(parts: seq<string>, sep: string)
    requires |parts| > 0
    ensures parts[0] <= Join(parts, sep)
  {
  }

  lemma SplitPiecesFree(s: string, sep: string)
    requires |sep| > 0
    ensures forall k :: 0 <= k < |Split(s, sep)| ==> Free(Split(s, sep)[k], sep)
  {
    SplitAllPiecesFree(s, sep);
    var all := SplitAll(s, sep);
    forall k | 0 <= k < |Split(s, sep)|
      ensures Free(Split(s, sep)[k], sep)
    {
      assert Split(s, sep)[k] == all[k];
    }
  }

  // ---------------------------------------------------------------------------
  // String.equalsIgnoreCase against a lower-case ASCII word
  // ---------------------------------------------------------------------------

  /**
   * Maps a character to the lower-case ASCII letter that equalsIgnoreCase
   * treats as equal to it, if any: A-Z, and the four non-ASCII characters
   * whose upper or lower case is ASCII (dotted capital I, dotless small i,
   * long s and the Kelvin sign). Every other character maps to itself.
   */
  function FoldCase(c: char): char {
    if 'A' <= c <= 'Z' then (c as int + 32) as char
    else if c == 'İ' || c == 'ı' then 'i'
    else if c == 'ſ' then 's'
    else if c == 'K' then 'k'
    else c
  }

  /** Every character of `s` folded. */
  function Lower(s: string): (r: string)
    ensures |r| == |s|
    ensures forall i :: 0 <= i < |s| ==> r[i] == FoldCase(s[i])
  {
    seq(|s|, i requires 0 <= i < |s| => FoldCase(s[i]))
  }

  /** `s.equalsIgnoreCase(word)` for a word written in lower-case ASCII letters. */
  predicate EqualsIgnoreCase(s: string, word: string) {
    Lower(s) == word
  }

  /**
   * The characters equalsIgnoreCase accepts for the lower-case ASCII letter
   * `l`: the letter, its capital, and for i, s and k the non-ASCII
   * characters whose case mapping reaches them.
   */
  predicate MatchesIgnoringCase(c: char, l: char) {
    c == l || c as int == l as int - 32
    || (l == 'i' && (c == 'İ' || c == 'ı')) || (l == 's' && c == 'ſ') || (l == 'k' && c == 'K')
  }

  lemma FoldCaseMatches(c: char, l: char)
    requires 'a' <= l <= 'z'
    ensures FoldCase(c) == l <==> MatchesIgnoringCase(c, l)
  {
  }

  /**
   * `s.equalsIgnoreCase(w)` for a lower-case ASCII word: the same length,
   * and every character accepted for the word's letter at its position.
   */
  lemma EqualsIgnoreCaseChars(s: string, w: string)
    requires LowerAscii(w)
    ensures EqualsIgnoreCase(s, w) <==> |s| == |w| && forall i :: 0 <= i < |s| ==> MatchesIgnoringCase(s[i], w[i])
  {
    if |s| == |w| {
      forall i | 0 <= i < |s|
        ensures Lower(s)[i] == w[i] <==> MatchesIgnoringCase(s[i], w[i])
      {
        FoldCaseMatches(s[i], w[i]);
      }
    }
  }

  /** Folding twice folds once: a folded string is its own folding. */
  lemma LowerIdempotent(s: string)
    ensures Lower(Lower(s)) == Lower(s)
  {
    assert forall i :: 0 <= i < |s| ==> FoldCase(FoldCase(s[i])) == FoldCase(s[i]);
  }

  predicate LowerAscii(w: string) {
    forall i :: 0 <= i < |w| ==> 'a' <= w[i] <= 'z'
  }

  /** A lower-case ASCII word folds to itself, so it equals another such word ignoring case only when equal. */
  lemma LowerAsciiFixed(w: string, v: string)
    requires LowerAscii(w)
    ensures Lower(w) == w
    ensures EqualsIgnoreCase(w, v) <==> w == v
  {
  }
}
