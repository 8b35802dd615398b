/**
 * The small part of the Java platform the inventory service leans on:
 * 32-bit `int` arithmetic, `String.trim`, `split("\\s+")`, `toUpperCase`,
 * `equalsIgnoreCase` and `Integer.parseInt`. Case mappings cover the
 * characters whose upper or lower case is ASCII, which is every character
 * that can match the server's ASCII command words and "yes".
 */
module Java {
  import opened Wrappers

  const MinInt: int := -0x8000_0000
  const MaxInt: int := 0x7fff_ffff
  const Modulus: int := 0x1_0000_0000

  /** A Java `int`. */
  type Int32 = x: int | -0x8000_0000 <= x <= 0x7fff_ffff

  /** The value Java's two's-complement `int` arithmetic produces for the exact result `x`. */
  function Wrap(x: int): (r: Int32)
    ensures MinInt <= x <= MaxInt ==> r == x
    ensures x > MaxInt && x - Modulus <= MaxInt ==> r == x - Modulus
    ensures x < MinInt && x + Modulus >= MinInt ==> r == x + Modulus
  {
    (x - MinInt) % Modulus + MinInt
  }

  lemma ModAddMultiple(q: int, y: int)
    ensures (Modulus * q + y) % Modulus == y % Modulus
  {
    var z := y % Modulus;
    assert y == Modulus * (y / Modulus) + z;
    assert Modulus * q + y == Modulus * (q + y / Modulus) + z;
  }

  /** Wrapping after every addition gives the same `int` as wrapping once at the end. */
  lemma WrapAdd(a: int, b: int)
    ensures Wrap(Wrap(a) + b) == Wrap(a + b)
  {
    var q := (a - MinInt) / Modulus;
    assert a - MinInt == Modulus * q + (a - MinInt) % Modulus;
    ModAddMultiple(q, (a - MinInt) % Modulus + b);
    assert a + b - MinInt == Modulus * q + ((a - MinInt) % Modulus + b);
  }

  // ---------------------------------------------------------------- characters

  /** The characters `\s` matches in a Java regular expression: space, \t, \n, \x0B, \f, \r. */
  predicate IsWhitespace(c: char) {
    c == ' ' || ('\t' <= c <= '\r')
  }

  /** The characters `String.trim` removes: code points up to and including the space. */
  predicate IsTrimmable(c: char) {
    c <= ' '
  }

  predicate IsDigit(c: char) {
    '0' <= c <= '9'
  }

  /**
   * `Character.toUpperCase` on the characters whose upper case is ASCII:
   * the letters a to z, dotless i (U+0131) and long s (U+017F). Any other
   * character is left as it is.
   */
  function UpperChar(c: char): char {
    if 'a' <= c <= 'z' then (c as int - 32) as char
    else if c == '\U{0131}' then 'I'
    else if c == '\U{017F}' then 'S'
    else c
  }

  /**
   * `Character.toLowerCase` on the characters whose lower case is ASCII:
   * the letters A to Z, capital I with dot (U+0130) and the Kelvin sign
   * (U+212A). Any other character is left as it is.
   */
  function LowerChar(c: char): char {
    if 'A' <= c <= 'Z' then (c as int + 32) as char
    else if c == '\U{0130}' then 'i'
    else if c == '\U{212A}' then 'k'
    else c
  }

  /**
   * The character test of `String.equalsIgnoreCase`: the two are equal, or
   * their upper cases are, or the lower cases of their upper cases are.
   */
  predicate CharEqualsIgnoreCase(c: char, d: char) {
    c == d || UpperChar(c) == UpperChar(d) || LowerChar(UpperChar(c)) == LowerChar(UpperChar(d))
  }

  /** The two characters that match an ASCII letter ignoring case only through their lower case. */
  predicate FoldsOnlyByLowerCase(c: char) {
    c == '\U{0130}' || c == '\U{212A}'
  }

  // ---------------------------------------------------------------- strings

  /** `String.toUpperCase`, one character at a time. */
  function Upper(s: string): (r: string)
    ensures |r| == |s|
    ensures forall i :: 0 <= i < |s| ==> r[i] == UpperChar(s[i])
  {
    seq(|s|, i requires 0 <= i < |s| => UpperChar(s[i]))
  }

  /** `String.equalsIgnoreCase`. */
  predicate EqualsIgnoreCase(a: string, b: string)
    ensures a == b ==> EqualsIgnoreCase(a, b)
    ensures EqualsIgnoreCase(a, b) ==> |a| == |b|
  {
    |a| == |b| && forall i :: 0 <= i < |a| ==> CharEqualsIgnoreCase(a[i], b[i])
  }

  predicate IsUpperCase(s: string) {
    forall i :: 0 <= i < |s| ==> UpperChar(s[i]) == s[i]
  }

  predicate IsAscii(s: string) {
    forall i :: 0 <= i < |s| ==> s[i] as int < 0x80
  }

  /**
   * Comparing the upper-cased form with an upper-case ASCII word is the same
   * as `equalsIgnoreCase` against it, except when the text holds one of the
   * two characters that match only through lower case: "BUY_STOC\u212A"
   * equals "BUY_STOCK" ignoring case, but upper-cases to itself.
   */
  lemma UpperMatchesIgnoringCase(t: string, w: string)
    requires IsAscii(w) && IsUpperCase(w)
    ensures Upper(t) == w <==>
      EqualsIgnoreCase(t, w) && forall i :: 0 <= i < |t| ==> !FoldsOnlyByLowerCase(t[i])
  {
    if Upper(t) == w {
      forall i | 0 <= i < |t| ensures CharEqualsIgnoreCase(t[i], w[i]) && !FoldsOnlyByLowerCase(t[i]) {
        assert UpperChar(t[i]) == w[i];
        assert w[i] as int < 0x80;
      }
    }
    if EqualsIgnoreCase(t, w) && forall i :: 0 <= i < |t| ==> !FoldsOnlyByLowerCase(t[i]) {
      forall i | 0 <= i < |t| ensures Upper(t)[i] == w[i] {
        assert CharEqualsIgnoreCase(t[i], w[i]);
        assert UpperChar(w[i]) == w[i] && w[i] as int < 0x80;
        assert !FoldsOnlyByLowerCase(t[i]);
      }
    }
  }

  /** Upper-casing text that is already upper case changes nothing. */
  lemma UpperOfUpperCase(s: string)
    requires IsUpperCase(s)
    ensures Upper(s) == s
  {
  }

  /** The leading part `String.trim` removes. */
  function TrimStart(s: string): (r: string)
    ensures |r| <= |s| && r == s[|s| - |r|..]
    ensures r == [] || !IsTrimmable(r[0])
    ensures forall i :: 0 <= i < |s| - |r| ==> IsTrimmable(s[i])
  {
    if s != [] && IsTrimmable(s[0]) then TrimStart(s[1..]) else s
  }

  /** The trailing part `String.trim` removes. */
  function TrimEnd(s: string): (r: string)
    ensures |r| <= |s| && r == s[..|r|]
    ensures r == [] || !IsTrimmable(r[|r| - 1])
    ensures forall i :: |r| <= i < |s| ==> IsTrimmable(s[i])
  {
    if s != [] && IsTrimmable(s[|s| - 1]) then TrimEnd(s[..|s| - 1]) else s
  }

  /** `String.trim`: `TrimEnd` after `TrimStart`. */
  function Trim(s: string): (r: string)
    ensures r == [] || (!IsTrimmable(r[0]) && !IsTrimmable(r[|r| - 1]))
    ensures r == [] <==> forall i :: 0 <= i < |s| ==> IsTrimmable(s[i])
  {
    TrimEnd(TrimStart(s))
  }

  /** The length of the leading run of non-whitespace characters. */
  function WordLength(s: string): (n: nat)
    ensures n <= |s|
    ensures forall i :: 0 <= i < n ==> !IsWhitespace(s[i])
    ensures n == |s| || IsWhitespace(s[n])
  {
    if s == [] || IsWhitespace(s[0]) then 0 else 1 + WordLength(s[1..])
  }

  /**
   * The maximal runs of non-whitespace characters, in order. On a string
   * that `String.trim` has already trimmed, this is what `split("\\s+")`
   * returns.
   */
  function Tokens(s: string): (r: seq<string>)
    ensures forall k :: 0 <= k < |r| ==> r[k] != []
    ensures forall k, i :: 0 <= k < |r| && 0 <= i < |r[k]| ==> !IsWhitespace(r[k][i])
    ensures s != [] && !IsWhitespace(s[0]) ==> |r| > 0 && r[0] == s[..WordLength(s)]
    decreases |s|
  {
    if s == [] then []
    else if IsWhitespace(s[0]) then Tokens(s[1..])
    else
      var n := WordLength(s);
      [s[..n]] + Tokens(s[n..])
  }

  /** A word made of non-whitespace characters, followed by whitespace and more text, splits off whole. */
  lemma {:induction false} TokensOfWords(w: string, rest: string)
    requires w != [] && forall i :: 0 <= i < |w| ==> !IsWhitespace(w[i])
    ensures Tokens(w + " " + rest) == [w] + Tokens(rest)
  {
    var s := w + " " + rest;
    WordLengthOfWord(w, " " + rest);
    assert s[..|w|] == w;
    assert s[|w|..] == " " + rest;
    assert (" " + rest)[1..] == rest;
  }

  /** A single word made of non-whitespace characters is one token. */
  lemma TokensOfWord(w: string)
    requires w != [] && forall i :: 0 <= i < |w| ==> !IsWhitespace(w[i])
    ensures Tokens(w) == [w]
  {
    WordLengthWhole(w);
    assert !IsWhitespace(w[0]);
    assert w[..|w|] == w && w[|w|..] == [];
    assert Tokens(w) == [w[..|w|]] + Tokens(w[|w|..]);
  }

  lemma {:induction false} WordLengthWhole(w: string)
    requires forall i :: 0 <= i < |w| ==> !IsWhitespace(w[i])
    ensures WordLength(w) == |w|
    decreases |w|
  {
    if w != [] {
      WordLengthWhole(w[1..]);
    }
  }

  lemma {:induction false} WordLengthOfWord(w: string, tail: string)
    requires forall i :: 0 <= i < |w| ==> !IsWhitespace(w[i])
    requires tail != [] && IsWhitespace(tail[0])
    ensures WordLength(w + tail) == |w|
    decreases |w|
  {
    if w != [] {
      assert (w + tail)[1..] == w[1..] + tail;
      WordLengthOfWord(w[1..], tail);
    } else {
      assert w + tail == tail;
    }
  }

  /** A word a client types: non-empty, with no character `String.trim` would remove. */
  predicate IsWord(w: string) {
    w != [] && forall i :: 0 <= i < |w| ==> !IsTrimmable(w[i])
  }

  /** `String.join(" ", ws)`. */
  function Join(ws: seq<string>): (r: string)
    requires |ws| >= 1
    decreases |ws|
  {
    if |ws| == 1 then ws[0] else ws[0] + " " + Join(ws[1..])
  }

  lemma {:induction false} JoinEnds(ws: seq<string>)
    requires |ws| >= 1 && forall k :: 0 <= k < |ws| ==> IsWord(ws[k])
    ensures var r := Join(ws); r != [] && !IsTrimmable(r[0]) && !IsTrimmable(r[|r| - 1])
    decreases |ws|
  {
    if |ws| > 1 {
      JoinEnds(ws[1..]);
      assert IsWord(ws[0]);
      var r := Join(ws);
      assert r[0] == ws[0][0];
      var t := Join(ws[1..]);
      assert r[|r| - 1] == t[|t| - 1];
    } else {
      assert IsWord(ws[0]);
    }
  }

  /** Splitting a joined line of words on whitespace gives the words back. */
  lemma {:induction false} TokensOfJoin(ws: seq<string>)
    requires |ws| >= 1 && forall k :: 0 <= k < |ws| ==> IsWord(ws[k])
    ensures Tokens(Join(ws)) == ws
    decreases |ws|
  {
    assert IsWord(ws[0]);
    if |ws| == 1 {
      TokensOfWord(ws[0]);
    } else {
      TokensOfWords(ws[0], Join(ws[1..]));
      TokensOfJoin(ws[1..]);
    }
  }

  /** A joined line of words is already trimmed. */
  lemma TrimOfJoin(ws: seq<string>)
    requires |ws| >= 1 && forall k :: 0 <= k < |ws| ==> IsWord(ws[k])
    ensures Trim(Join(ws)) == Join(ws)
  {
    JoinEnds(ws);
  }

  // ---------------------------------------------------------------- numbers

  /** The value of a string of decimal digits. */
  function DigitsValue(s: string): nat
    requires forall i :: 0 <= i < |s| ==> IsDigit(s[i])
  {
    if s == [] then 0
    else
      assert IsDigit(s[|s| - 1]);
      DigitsValue(s[..|s| - 1]) * 10 + (s[|s| - 1] as int - '0' as int)
  }

  predicate AllDigits(s: string) {
    forall i :: 0 <= i < |s| ==> IsDigit(s[i])
  }

  /**
   * `Integer.parseInt(s)`: an optional `-` or `+`, then one or more digits,
   * with a value that fits an `int`; anything else is a NumberFormatException (None).
   */
  function ParseInt(s: string): (r: Option<Int32>)
    ensures r.Some? ==> s != [] && (IsDigit(s[0]) || s[0] == '-' || s[0] == '+')
    ensures r.Some? ==> AllDigits(s[1..]) && (|s| > 1 || IsDigit(s[0]))
    ensures r.Some? && s[0] == '-' ==> r.value <= 0
    ensures r.Some? && s[0] != '-' ==> r.value >= 0
  {
    if s == [] then None
    else if s[0] == '-' || s[0] == '+' then
      if |s| == 1 || !AllDigits(s[1..]) then None
      else
        var v: int := if s[0] == '-' then 0 - DigitsValue(s[1..]) else DigitsValue(s[1..]);
        if MinInt <= v <= MaxInt then Some(v) else None
    else if !AllDigits(s) then None
    else
      var v := DigitsValue(s);
      if v <= MaxInt then Some(v) else None
  }

  function DigitChar(d: nat): (c: char)
    requires d < 10
    ensures IsDigit(c)
  {
    ('0' as int + d) as char
  }

  /** The decimal digits of a natural number, without leading zeros. */
  function NatDigits(n: nat): (s: string)
    ensures s != [] && AllDigits(s)
  {
    if n < 10 then [DigitChar(n)] else NatDigits(n / 10) + [DigitChar(n % 10)]
  }

  /** `Integer.toString(n)`: the text a client writes for a number. */
  function DecimalString(n: int): string {
    if n < 0 then "-" + NatDigits(-n) else NatDigits(n)
  }

  lemma {:induction false} NatDigitsValue(n: nat)
    ensures DigitsValue(NatDigits(n)) == n
  {
    if n >= 10 {
      var s := NatDigits(n / 10) + [DigitChar(n % 10)];
      assert s[..|s| - 1] == NatDigits(n / 10);
      NatDigitsValue(n / 10);
    }
  }

  /** Parsing the decimal text of any `int` gives that `int` back. */
  lemma ParseIntRoundTrip(n: Int32)
    ensures ParseInt(DecimalString(n)) == Some(n)
  {
    var m: nat := if n < 0 then 0 - n else n;
    var d := NatDigits(m);
    NatDigitsValue(m);
    if n < 0 {
      var s := "-" + d;
      assert s[0] == '-' && s[1..] == d;
      assert ParseInt(s) == Some(0 - DigitsValue(d));
    } else {
      assert IsDigit(d[0]);
      assert ParseInt(d) == Some(DigitsValue(d));
    }
  }
}
