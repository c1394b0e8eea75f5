/**
 * The two pieces of JavaScript string behaviour the tier list relies on:
 * `String.prototype.trim`, applied to the image URL typed into the modal,
 * and the decimal rendering of a number inside a template literal, used to
 * build the seed identifiers `item-1` .. `item-10`.
 */
module JsText {

  /** The characters `trim` removes: ECMAScript's WhiteSpace and LineTerminator productions. */
  predicate IsWhiteSpace(c: char) {
    || c == '\t' || c == '\U{B}' || c == '\U{C}' || c == ' '
    || c == '\U{A0}' || c == '\U{FEFF}'
    || c == '\n' || c == '\r' || c == '\U{2028}' || c == '\U{2029}'
    // the remaining members of Unicode category Zs
    || c == '\U{1680}' || ('\U{2000}' <= c <= '\U{200A}')
    || c == '\U{202F}' || c == '\U{205F}' || c == '\U{3000}'
  }

  predicate AllWhiteSpace(s: string) {
    forall k :: 0 <= k < |s| ==> IsWhiteSpace(s[k])
  }

  /** `trimStart`: drops the leading white space and nothing else. */
  function TrimStart(s: string): (r: string)
    ensures |r| <= |s| && r == s[|s| - |r|..]
    ensures AllWhiteSpace(s[..|s| - |r|])
    ensures r != [] ==> !IsWhiteSpace(r[0])
  {
    if s != [] && IsWhiteSpace(s[0]) then
      var r := TrimStart(s[1..]);
      assert s[..|s| - |r|] == [s[0]] + s[1..][..|s| - 1 - |r|];
      r
    else s
  }

  /** `trimEnd`: drops the trailing white space and nothing else. */
  function TrimEnd(s: string): (r: string)
    ensures |r| <= |s| && r == s[..|r|]
    ensures AllWhiteSpace(s[|r|..])
    ensures r != [] ==> !IsWhiteSpace(r[|r| - 1])
  {
    if s != [] && IsWhiteSpace(s[|s| - 1]) then
      var r := TrimEnd(s[..|s| - 1]);
      assert s[|r|..] == s[..|s| - 1][|r|..] + [s[|s| - 1]];
      r
    else s
  }

  /** `trim`: the input without its leading and trailing white space. */
  function Trim(s: string): (r: string)
    ensures |r| <= |s|
    ensures r != [] ==> !IsWhiteSpace(r[0]) && !IsWhiteSpace(r[|r| - 1])
    ensures r == [] <==> AllWhiteSpace(s)
  {
    var t := TrimStart(s);
    var r := TrimEnd(t);
    assert r == [] ==> AllWhiteSpace(s) by {
      if r == [] {
        assert s == s[..|s| - |t|] + t;
        assert t == t[|r|..];
      }
    }
    r
  }

  lemma {:induction false} TrimStartPadded(w: string, t: string)
    requires AllWhiteSpace(w)
    requires t == [] || !IsWhiteSpace(t[0])
    ensures TrimStart(w + t) == t
    decreases |w|
  {
    if w != [] {
      assert (w + t)[1..] == w[1..] + t;
      TrimStartPadded(w[1..], t);
    } else {
      assert w + t == t;
    }
  }

  lemma {:induction false} TrimEndPadded(t: string, w: string)
    requires AllWhiteSpace(w)
    requires t == [] || !IsWhiteSpace(t[|t| - 1])
    ensures TrimEnd(t + w) == t
    decreases |w|
  {
    if w != [] {
      assert (t + w)[..|t + w| - 1] == t + w[..|w| - 1];
      TrimEndPadded(t, w[..|w| - 1]);
    } else {
      assert t + w == t;
    }
  }

  /**
   * An independent characterisation of `trim`: a text that neither starts
   * nor ends with white space comes back unchanged from any padding.
   */
  lemma TrimOfPadded(w1: string, t: string, w2: string)
    requires AllWhiteSpace(w1) && AllWhiteSpace(w2)
    requires t != [] ==> !IsWhiteSpace(t[0]) && !IsWhiteSpace(t[|t| - 1])
    ensures Trim(w1 + t + w2) == t
  {
    if t == [] {
      assert AllWhiteSpace(w1 + t + w2) by {
        assert w1 + t + w2 == w1 + w2;
      }
    } else {
      assert w1 + t + w2 == w1 + (t + w2);
      TrimStartPadded(w1, t + w2);
      TrimEndPadded(t, w2);
    }
  }

  /** Trimming twice is trimming once. */
  lemma TrimIdempotent(s: string)
    ensures Trim(Trim(s)) == Trim(s)
  {
    var t := Trim(s);
    TrimOfPadded([], t, []);
    assert [] + t + [] == t;
  }

  /** The character of one decimal digit. */
  function DigitChar(d: nat): (c: char)
    requires d < 10
  {
    ('0' as int + d) as char
  }

  /** The decimal text of a number, as `${n}` produces it for a non-negative integer. */
  function NatToDecimal(n: nat): (r: string)
    ensures |r| >= 1 && (n >= 10 ==> |r| >= 2)
    ensures forall k :: 0 <= k < |r| ==> '0' <= r[k] <= '9'
    ensures r[0] == '0' ==> n == 0
    decreases n
  {
    if n < 10 then [DigitChar(n)] else NatToDecimal(n / 10) + [DigitChar(n % 10)]
  }

  /** Reads a string of decimal digits back as a number (its inverse). */
  function ParseDecimal(s: string): nat
    requires forall k :: 0 <= k < |s| ==> '0' <= s[k] <= '9'
  {
    if s == [] then 0
    else ParseDecimal(s[..|s| - 1]) * 10 + (s[|s| - 1] as int - '0' as int)
  }

  lemma {:induction false} DecimalRoundTrip(n: nat)
    ensures ParseDecimal(NatToDecimal(n)) == n
    decreases n
  {
    var r := NatToDecimal(n);
    if n < 10 {
      assert r[..|r| - 1] == [];
    } else {
      assert r[..|r| - 1] == NatToDecimal(n / 10);
      DecimalRoundTrip(n / 10);
    }
  }

  /** Different numbers render as different texts. */
  lemma DecimalInjective(a: nat, b: nat)
    requires NatToDecimal(a) == NatToDecimal(b)
    ensures a == b
  {
    DecimalRoundTrip(a);
    DecimalRoundTrip(b);
  }
}
