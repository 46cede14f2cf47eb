/**
 * ChatColorHelper.replaceColorCodes: every `&` followed by the lower-case
 * hexadecimal rendering of a palette entry's code is replaced by that
 * entry's marker, one palette entry at a time, in palette order.
 */
module ChatColors {
  import opened JavaLang

  /**
   * One constant of the ChatColor enumeration: its name (as used in the
   * configuration file), its numeric code and the marker string that
   * toString() yields.
   */
  datatype ChatColor = ChatColor(name: string, code: nat, marker: string)

  predicate IsHexDigit(c: char) {
    '0' <= c <= '9' || 'a' <= c <= 'f'
  }

  function HexDigit(d: nat): (c: char)
    requires d < 16
    ensures IsHexDigit(c)
  {
    if d < 10 then (48 + d) as char else (87 + d) as char
  }

  function DigitValue(c: char): nat {
    if '0' <= c <= '9' then c as nat - 48
    else if 'a' <= c <= 'f' then c as nat - 87
    else 0
  }

  /** String.format("%x", n): lower-case hexadecimal without leading zeros. */
  function Hex(n: nat): (r: string)
    ensures |r| > 0
    ensures forall i :: 0 <= i < |r| ==> IsHexDigit(r[i])
    decreases n
  {
    if n < 16 then [HexDigit(n)] else Hex(n / 16) + [HexDigit(n % 16)]
  }

  /** Reads a string of lower-case hexadecimal digits back as a number. */
  function HexValue(s: string): nat {
    if s == [] then 0 else HexValue(s[..|s| - 1]) * 16 + DigitValue(s[|s| - 1])
  }

  /** The rendering is faithful: reading it back gives the code. */
  lemma {:induction false} HexRoundTrip(n: nat)
    ensures HexValue(Hex(n)) == n
    decreases n
  {
    if n >= 16 {
      HexRoundTrip(n / 16);
      var h := Hex(n);
      assert h[..|h| - 1] == Hex(n / 16);
    }
  }

  /** The short code searched for: `&` and the code in hexadecimal. */
  function Pattern(c: ChatColor): (p: string)
    ensures |p| >= 2 && p[0] == '&'
    ensures forall i :: 1 <= i < |p| ==> IsHexDigit(p[i])
  {
    "&" + Hex(c.code)
  }

  /** One iteration of the loop: replace this entry's code everywhere. */
  function Pass(s: string, c: ChatColor): string {
    ReplaceAll(s, Pattern(c), c.marker)
  }

  /** The whole transformation: the passes of the palette entries, in order. */
  function Expand(palette: seq<ChatColor>, s: string): string {
    if palette == [] then s
    else Pass(Expand(palette[..|palette| - 1], s), palette[|palette| - 1])
  }

  /** ChatColorHelper.replaceColorCodes, with the palette given as ChatColor.values(). */
  method ReplaceColorCodes(palette: seq<ChatColor>, message: string) returns (r: string)
    ensures r == Expand(palette, message)
  {
    r := message;
    for i := 0 to |palette|
      invariant r == Expand(palette[..i], message)
    {
      assert palette[..i + 1][..i] == palette[..i];
      r := ReplaceAll(r, Pattern(palette[i]), palette[i].marker);
    }
    assert palette[..|palette|] == palette;
  }

  // ---------------------------------------------------------------------------
  // What is left alone
  // ---------------------------------------------------------------------------

  /** Text without `&` before the first code is copied through by every pass. */
  lemma {:induction false} ExpandPrefix(palette: seq<ChatColor>, a: string, s: string)
    requires '&' !in a
    ensures Expand(palette, a + s) == a + Expand(palette, s)
    decreases |palette|
  {
    if palette != [] {
      var last := palette[|palette| - 1];
      ExpandPrefix(palette[..|palette| - 1], a, s);
      ReplaceAllPrefix(a, Expand(palette[..|palette| - 1], s), Pattern(last), last.marker);
    }
  }

  /** A message containing no `&` is returned unchanged. */
  lemma NoAmpersandUnchanged(palette: seq<ChatColor>, s: string)
    requires '&' !in s
    ensures Expand(palette, s) == s
  {
    ExpandPrefix(palette, s, "");
    EmptyUnchanged(palette);
    assert s + "" == s;
  }

  lemma {:induction false} EmptyUnchanged(palette: seq<ChatColor>)
    ensures Expand(palette, "") == ""
    decreases |palette|
  {
    if palette != [] {
      EmptyUnchanged(palette[..|palette| - 1]);
    }
  }

  /** One pass keeps `&` followed by a character that cannot continue its code. */
  lemma PassKeeps(c: ChatColor, ch: char, t: string)
    requires ch != '&' && Pattern(c)[1] != ch
    ensures Pass(['&', ch] + t, c) == ['&', ch] + Pass(t, c)
  {
    var s := ['&', ch] + t;
    var p := Pattern(c);
    assert !StartsWith(s, p) by {
      if |p| <= |s| {
        assert s[..|p|][1] == ch;
      }
    }
    assert s[1..] == [ch] + t;
    ReplaceAllPrefix([ch], t, p, c.marker);
  }

  /** `&` followed by a character that begins none of the palette's codes stays literal. */
  lemma {:induction false} ExpandKeeps(palette: seq<ChatColor>, ch: char, t: string)
    requires ch != '&'
    requires forall k :: 0 <= k < |palette| ==> Pattern(palette[k])[1] != ch
    ensures Expand(palette, ['&', ch] + t) == ['&', ch] + Expand(palette, t)
    decreases |palette|
  {
    if palette != [] {
      var n := |palette| - 1;
      ExpandKeeps(palette[..n], ch, t);
      PassKeeps(palette[n], ch, Expand(palette[..n], t));
    }
  }

  /**
   * `&` followed by anything but a lower-case hexadecimal digit is never
   * rewritten: neither `&A` (codes are rendered in lower case) nor `&z` or `&n`.
   */
  lemma NonHexCodeStaysLiteral(palette: seq<ChatColor>, ch: char, t: string)
    requires ch != '&' && !IsHexDigit(ch)
    ensures Expand(palette, ['&', ch] + t) == ['&', ch] + Expand(palette, t)
  {
    ExpandKeeps(palette, ch, t);
  }

  // ---------------------------------------------------------------------------
  // What is replaced
  // ---------------------------------------------------------------------------

  /**
   * Within one pass every occurrence of the entry's code is replaced by its
   * marker, and text before it that holds no `&` is untouched.
   */
  lemma PassReplaces(c: ChatColor, a: string, b: string)
    requires '&' !in a
    ensures Pass(a + Pattern(c) + b, c) == a + c.marker + Pass(b, c)
  {
    assert a + Pattern(c) + b == a + (Pattern(c) + b);
    ReplaceAllPrefix(a, Pattern(c) + b, Pattern(c), c.marker);
    ReplaceAllAtTarget(b, Pattern(c), c.marker);
  }

  /** The sixteen-colour palette of the original enumeration: single-digit, distinct codes. */
  predicate SingleDigitCodes(palette: seq<ChatColor>) {
    && (forall k :: 0 <= k < |palette| ==> palette[k].code < 16)
    && (forall j, k :: 0 <= j < k < |palette| ==> palette[j].code != palette[k].code)
  }

  /** Real markers ("§" and a letter or digit) hold no `&` and do not begin with a hexadecimal digit. */
  predicate InertMarkers(palette: seq<ChatColor>) {
    forall k :: 0 <= k < |palette| ==>
      && |palette[k].marker| > 0
      && '&' !in palette[k].marker
      && !IsHexDigit(palette[k].marker[0])
  }

  lemma HexDigitInjective(x: nat, y: nat)
    requires x < 16 && y < 16 && x != y
    ensures HexDigit(x) != HexDigit(y)
  {
  }

  /**
   * With a palette of distinct single-digit codes, a message starting with
   * the code of entry `k` starts, after expansion, with entry `k`'s marker,
   * and the rest of the message is expanded on its own.
   */
  lemma {:induction false} ExpandReplacesCode(palette: seq<ChatColor>, k: nat, t: string)
    requires SingleDigitCodes(palette) && InertMarkers(palette) && k < |palette|
    ensures Expand(palette, Pattern(palette[k]) + t) == palette[k].marker + Expand(palette, t)
    decreases |palette|
  {
    var n := |palette| - 1;
    var c := palette[k];
    assert Pattern(c) == ['&', HexDigit(c.code)];
    if k == n {
      var before := palette[..n];
      assert forall j :: 0 <= j < |before| ==> Pattern(before[j])[1] != HexDigit(c.code) by {
        forall j | 0 <= j < |before|
          ensures Pattern(before[j])[1] != HexDigit(c.code)
        {
          assert before[j] == palette[j];
          assert Pattern(palette[j]) == ['&', HexDigit(palette[j].code)];
          HexDigitInjective(palette[j].code, c.code);
        }
      }
      ExpandKeeps(before, HexDigit(c.code), t);
      PassReplaces(c, "", Expand(before, t));
      assert "" + Pattern(c) + Expand(before, t) == Pattern(c) + Expand(before, t);
    } else {
      var before := palette[..n];
      var last := palette[n];
      assert SingleDigitCodes(before) && InertMarkers(before) by {
        assert forall j :: 0 <= j < |before| ==> before[j] == palette[j];
      }
      assert before[k] == c;
      ExpandReplacesCode(before, k, t);
      assert c.marker[0] in c.marker;
      ReplaceAllPrefix(c.marker, Expand(before, t), Pattern(last), last.marker);
    }
  }

  // ---------------------------------------------------------------------------
  // Order and idempotence
  // ---------------------------------------------------------------------------

  /** The passes run in palette order, each over the previous one's output. */
  lemma {:induction false} ExpandConcat(p1: seq<ChatColor>, p2: seq<ChatColor>, s: string)
    ensures Expand(p1 + p2, s) == Expand(p2, Expand(p1, s))
    decreases |p2|
  {
    if p2 == [] {
      assert p1 + p2 == p1;
    } else {
      var n := |p2| - 1;
      assert (p1 + p2)[..|p1 + p2| - 1] == p1 + p2[..n];
      ExpandConcat(p1, p2[..n], s);
    }
  }

  /** A code shape: `&` followed by one or more lower-case hexadecimal digits. */
  predicate IsCode(p: string) {
    |p| >= 2 && p[0] == '&' && forall i :: 1 <= i < |p| ==> IsHexDigit(p[i])
  }

  predicate AllHex(h: string) {
    forall i :: 0 <= i < |h| ==> IsHexDigit(h[i])
  }

  /**
   * A pass only removes whole codes and inserts markers that start with a
   * non-digit, so a run of hexadecimal digits at the front of its output was
   * already at the front of its input.
   */
  lemma {:induction false} PassKeepsDigitPrefix(s: string, c: ChatColor, h: string)
    requires |c.marker| > 0 && !IsHexDigit(c.marker[0]) && AllHex(h)
    requires StartsWith(Pass(s, c), h)
    ensures StartsWith(s, h)
    decreases |s|
  {
    var p := Pattern(c);
    if h != [] && s != [] {
      var r := Pass(s, c);
      PassHead(s, c);
      assert r[0] == h[0] by {
        assert r[..|h|][0] == r[0];
      }
      var r' := Pass(s[1..], c);
      assert r == [s[0]] + r';
      assert r[..|h|] == [s[0]] + r'[..|h| - 1];
      assert StartsWith(r', h[1..]);
      PassKeepsDigitPrefix(s[1..], c, h[1..]);
      assert s[..|h|] == [s[0]] + s[1..][..|h| - 1];
    }
  }

  /** The first character of a pass's output: the marker's, or the input's own. */
  lemma PassHead(s: string, c: ChatColor)
    requires s != [] && |c.marker| > 0
    ensures Pass(s, c) != []
    ensures StartsWith(s, Pattern(c)) ==> Pass(s, c)[0] == c.marker[0]
    ensures !StartsWith(s, Pattern(c)) ==> Pass(s, c) == [s[0]] + Pass(s[1..], c)
  {
  }

  /**
   * After a pass, no occurrence of its own code is left, and no occurrence
   * of another code appears that was not there before.
   */
  lemma {:induction false} PassFree(s: string, c: ChatColor, p: string)
    requires |c.marker| > 0 && '&' !in c.marker && !IsHexDigit(c.marker[0])
    requires IsCode(p) && (Free(s, p) || p == Pattern(c))
    ensures Free(Pass(s, c), p)
    decreases |s|
  {
    var q := Pattern(c);
    if s != [] {
      if StartsWith(s, q) {
        if Free(s, p) {
          FreeSuffix(s, p, |q|);
        }
        PassFree(s[|q|..], c, p);
        FreeConcat(c.marker, Pass(s[|q|..], c), p);
      } else {
        var r' := Pass(s[1..], c);
        assert Pass(s, c) == [s[0]] + r';
        PassFree(s[1..], c, p);
        CodeAfterPassWasThere(s, c, p);
        assert ([s[0]] + r')[1..] == r';
      }
    }
  }

  /** A code that starts at the first character kept by a pass started there before it. */
  lemma CodeAfterPassWasThere(s: string, c: ChatColor, p: string)
    requires |c.marker| > 0 && !IsHexDigit(c.marker[0]) && IsCode(p)
    requires s != [] && !StartsWith(s, Pattern(c))
    ensures StartsWith([s[0]] + Pass(s[1..], c), p) ==> StartsWith(s, p)
  {
    var r' := Pass(s[1..], c);
    var h := p[1..];
    assert AllHex(h);
    if StartsWith([s[0]] + r', p) {
      assert ([s[0]] + r')[..|p|] == [s[0]] + r'[..|p| - 1];
      assert StartsWith(r', h);
      PassKeepsDigitPrefix(s[1..], c, h);
      assert s[..|p|] == [s[0]] + s[1..][..|h|];
    }
  }

  lemma {:induction false} ExpandKeepsFree(palette: seq<ChatColor>, s: string, p: string)
    requires InertMarkers(palette) && IsCode(p) && Free(s, p)
    ensures Free(Expand(palette, s), p)
    decreases |palette|
  {
    if palette != [] {
      var n := |palette| - 1;
      ExpandKeepsFree(palette[..n], s, p);
      PassFree(Expand(palette[..n], s), palette[n], p);
    }
  }

  /** After expansion no palette code is left in the text. */
  lemma {:induction false} ExpandLeavesNoCode(palette: seq<ChatColor>, s: string)
    requires InertMarkers(palette)
    ensures forall k :: 0 <= k < |palette| ==> Free(Expand(palette, s), Pattern(palette[k]))
    decreases |palette|
  {
    if palette != [] {
      var n := |palette| - 1;
      var before := palette[..n];
      assert InertMarkers(before) by {
        assert forall j :: 0 <= j < |before| ==> before[j] == palette[j];
      }
      ExpandLeavesNoCode(before, s);
      forall k | 0 <= k < |palette|
        ensures Free(Expand(palette, s), Pattern(palette[k]))
      {
        if k == n {
          PassFree(Expand(before, s), palette[n], Pattern(palette[n]));
        } else {
          assert before[k] == palette[k];
          PassFree(Expand(before, s), palette[n], Pattern(palette[k]));
        }
      }
    }
  }

  lemma {:induction false} ExpandFixes(palette: seq<ChatColor>, t: string)
    requires forall k :: 0 <= k < |palette| ==> Free(t, Pattern(palette[k]))
    ensures Expand(palette, t) == t
    decreases |palette|
  {
    if palette != [] {
      var n := |palette| - 1;
      ExpandFixes(palette[..n], t);
      ReplaceAllFree(t, Pattern(palette[n]), palette[n].marker);
    }
  }

  /**
   * With markers that hold no `&` and do not begin with a hexadecimal digit,
   * expanding an already expanded message changes nothing.
   */
  lemma Idempotent(palette: seq<ChatColor>, s: string)
    requires InertMarkers(palette)
    ensures Expand(palette, Expand(palette, s)) == Expand(palette, s)
  {
    ExpandLeavesNoCode(palette, s);
    ExpandFixes(palette, Expand(palette, s));
  }

  /**
   * Markers free of `&` alone do not make the expansion idempotent: a marker
   * that begins with a hexadecimal digit can complete a code with an `&`
   * left in front of it.
   */
  lemma IdempotenceNeedsNonDigitMarkers()
    ensures var palette := [ChatColor("GREEN", 10, "a")];
            && '&' !in palette[0].marker
            && Expand(palette, "&&aa") == "&aa"
            && Expand(palette, Expand(palette, "&&aa")) == "aa"
  {
    var c := ChatColor("GREEN", 10, "a");
    assert Pattern(c) == "&a";
    assert Expand([c], "&&aa") == Pass("&&aa", c);
    assert "&&aa"[..2] == "&&" && "&&"[1] != "&a"[1];
    assert !StartsWith("&&aa", "&a");
    assert "&&aa"[1..] == "&aa";
    assert StartsWith("&aa", "&a");
    assert "&aa"[2..] == "a";
    assert !StartsWith("a", "&a");
    assert Pass("&aa", c) == "a" + Pass("a", c);
    assert Pass("a", c) == "a";
    assert Expand([c], "&aa") == Pass("&aa", c);
  }
}
