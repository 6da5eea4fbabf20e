/**
 * The handful of Python string built-ins that pyznap's decisions rest on:
 * `str.startswith`, `str.split(c)[1]`, `str.split(c)[-1]`, `str(int)`,
 * `str.strip` and `int(str)`, over strings of characters.
 */
module Text {
  import opened Wrappers

  /** Python truthiness of a text value that may be `None`. */
  predicate Truthy(p: Option<string>)
  {
    p.Some? && p.value != ""
  }

  /** `s.startswith(p)`. */
  predicate StartsWith(s: string, p: string)
  {
    |p| <= |s| && s[..|p|] == p
  }

  /** The text of `s` up to (not including) its first `c`, or all of `s`. */
  function UntilChar(s: string, c: char): (r: string)
    ensures c !in r
    ensures r <= s
    ensures |r| < |s| ==> s[|r|] == c
  {
    if s == [] || s[0] == c then "" else [s[0]] + UntilChar(s[1..], c)
  }

  /** The position of the first `c` in `s`. */
  function IndexOf(s: string, c: char): (i: nat)
    requires c in s
    ensures i < |s| && s[i] == c && c !in s[..i]
  {
    if s[0] == c then 0 else 1 + IndexOf(s[1..], c)
  }

  /** `s.split(c)[1]`: the field between the first and the second `c`. */
  function SecondField(s: string, c: char): string
    requires c in s
  {
    UntilChar(s[IndexOf(s, c) + 1..], c)
  }

  /** `s.split(c)[-1]`: the text after the last `c`, or all of `s`. */
  function LastField(s: string, c: char): (r: string)
    ensures |r| <= |s|
  {
    if s == [] || s[|s| - 1] == c then "" else LastField(s[..|s| - 1], c) + [s[|s| - 1]]
  }

  /** The last field is a suffix of `s`, and a `c` precedes it unless it is all of `s`. */
  lemma {:induction false} LastFieldIsSuffix(s: string, c: char)
    ensures var r := LastField(s, c);
            s[|s| - |r|..] == r && (|r| < |s| ==> s[|s| - |r| - 1] == c)
    decreases |s|
  {
    if s != [] && s[|s| - 1] != c {
      var init, last := s[..|s| - 1], s[|s| - 1];
      LastFieldIsSuffix(init, c);
      var r0 := LastField(init, c);
      assert LastField(s, c) == r0 + [last];
      assert s == init + [last];
      SnocSlice(init, last, |init| - |r0|);
      if |r0| < |init| {
        assert s[|s| - |r0| - 2] == init[|init| - |r0| - 1];
      }
    }
  }

  lemma SnocSlice(init: string, x: char, k: nat)
    requires k <= |init|
    ensures (init + [x])[k..] == init[k..] + [x]
  {
  }

  /** Splitting at the last separator gives back the text that follows it. */
  lemma {:induction false} LastFieldOfJoin(p: string, c: char, t: string)
    requires c !in t
    ensures LastField(p + [c] + t, c) == t
    decreases |t|
  {
    var s := p + [c] + t;
    if t == [] {
      assert s[|s| - 1] == c;
    } else {
      assert s[..|s| - 1] == p + [c] + t[..|t| - 1];
      assert t[..|t| - 1] <= t;
      LastFieldOfJoin(p, c, t[..|t| - 1]);
      assert s[|s| - 1] == t[|t| - 1];
      assert t[..|t| - 1] + [t[|t| - 1]] == t;
    }
  }

  /** The text before the first `c` of `p + [c] + t` is `p` when `p` holds no `c`. */
  lemma {:induction false} UntilCharOfJoin(p: string, c: char, t: string)
    requires c !in p
    ensures UntilChar(p + [c] + t, c) == p
    decreases |p|
  {
    if p != [] {
      assert (p + [c] + t)[1..] == p[1..] + [c] + t;
      UntilCharOfJoin(p[1..], c, t);
    }
  }

  // ---- decimal digits -----------------------------------------------------

  predicate IsDigit(ch: char)
  {
    '0' <= ch <= '9'
  }

  predicate AllDigits(s: string)
  {
    forall i :: 0 <= i < |s| ==> IsDigit(s[i])
  }

  function DigitChar(d: nat): (ch: char)
    requires d < 10
    ensures IsDigit(ch) && ch as int - '0' as int == d
  {
    ('0' as int + d) as char
  }

  /** The number a string of decimal digits denotes (most significant first). */
  function DigitsValue(s: string): nat
    requires AllDigits(s)
  {
    if s == [] then 0
    else DigitsValue(s[..|s| - 1]) * 10 + (s[|s| - 1] as int - '0' as int)
  }

  /** `str(n)` for a non-negative integer: decimal digits, no leading zero. */
  function NatToString(n: nat): (r: string)
    ensures |r| > 0 && AllDigits(r)
    ensures n < 10 ==> |r| == 1
    decreases n
  {
    if n < 10 then [DigitChar(n)] else NatToString(n / 10) + [DigitChar(n % 10)]
  }

  /** Reading back the digits `str(n)` writes gives `n`. */
  lemma {:induction false} NatToStringValue(n: nat)
    ensures DigitsValue(NatToString(n)) == n
    decreases n
  {
    if n >= 10 {
      var r := NatToString(n);
      assert r[..|r| - 1] == NatToString(n / 10);
      NatToStringValue(n / 10);
    }
  }

  /** `str(n)` has at most two digits below 100 and at most four below 10000. */
  lemma {:induction false} NatToStringLength(n: nat)
    ensures n < 100 ==> |NatToString(n)| <= 2
    ensures n < 10000 ==> |NatToString(n)| <= 4
    decreases n
  {
    if n >= 10 {
      NatToStringLength(n / 10);
    }
  }

  /** `str(i)` for any integer: a minus sign before the digits of a negative number. */
  function IntToString(i: int): (r: string)
    ensures |r| > 0
  {
    if i < 0 then "-" + NatToString(-i) else NatToString(i)
  }

  /** `s` padded on the left with `0` up to `width` characters (`%02d`, `%04d`). */
  function ZeroPad(s: string, width: nat): (r: string)
    ensures |s| <= width ==> |r| == width
    ensures |s| > width ==> r == s
    decreases width
  {
    if |s| >= width then s else "0" + ZeroPad(s, width - 1)
  }

  /** A leading zero does not change the value of a digit string. */
  lemma {:induction false} LeadingZeroValue(s: string)
    requires AllDigits(s)
    ensures AllDigits("0" + s) && DigitsValue("0" + s) == DigitsValue(s)
    decreases |s|
  {
    var z := "0" + s;
    assert AllDigits(z) by {
      forall i | 0 <= i < |z| ensures IsDigit(z[i]) { if i > 0 { assert z[i] == s[i - 1]; } }
    }
    if s != [] {
      var init := s[..|s| - 1];
      assert AllDigits(init) by {
        forall i | 0 <= i < |init| ensures IsDigit(init[i]) { assert init[i] == s[i]; }
      }
      assert z[..|z| - 1] == "0" + init;
      LeadingZeroValue(init);
    }
  }

  /** Zero padding keeps the value of a digit string. */
  lemma {:induction false} ZeroPadValue(s: string, width: nat)
    requires AllDigits(s)
    ensures AllDigits(ZeroPad(s, width)) && DigitsValue(ZeroPad(s, width)) == DigitsValue(s)
    decreases width
  {
    if |s| < width {
      ZeroPadValue(s, width - 1);
      LeadingZeroValue(ZeroPad(s, width - 1));
    }
  }

  // ---- Python's int() over text ------------------------------------------

  /** The ASCII characters for which Python's `str.isspace` holds. */
  predicate IsSpace(ch: char)
  {
    ch == ' ' || (9 <= ch as int <= 13) || (28 <= ch as int <= 31)
  }

  /** `s.rstrip()`. */
  function RStrip(s: string): (r: string)
    ensures r <= s
    ensures r == [] || !IsSpace(r[|r| - 1])
  {
    if s != [] && IsSpace(s[|s| - 1]) then RStrip(s[..|s| - 1]) else s
  }

  /** `s.lstrip()`. */
  function LStrip(s: string): (r: string)
    ensures |r| <= |s| && s[|s| - |r|..] == r
    ensures r == [] || !IsSpace(r[0])
  {
    if s != [] && IsSpace(s[0]) then LStrip(s[1..]) else s
  }

  /** `s.strip()`. */
  function Strip(s: string): string
  {
    LStrip(RStrip(s))
  }

  /**
   * Python's `int(s)` for a string: surrounding white space is ignored, an
   * optional sign precedes one or more decimal digits; anything else is the
   * `ValueError` that `int` raises, here `None`.
   */
  function PyInt(s: string): Option<int>
  {
    ParseSigned(Strip(s))
  }

  /** An optional sign followed by one or more decimal digits, with nothing around them. */
  function ParseSigned(t: string): Option<int>
  {
    if |t| > 0 && (t[0] == '-' || t[0] == '+') then
      if |t| > 1 && AllDigits(t[1..]) then
        Some(if t[0] == '-' then -(DigitsValue(t[1..]) as int) else DigitsValue(t[1..]))
      else None
    else if |t| > 0 && AllDigits(t) then Some(DigitsValue(t))
    else None
  }

  /** What `str(i)` writes, followed by any white space, `int` reads back as `i`. */
  lemma {:induction false} PyIntOfIntToString(i: int, pad: string)
    requires forall k :: 0 <= k < |pad| ==> IsSpace(pad[k])
    ensures PyInt(IntToString(i) + pad) == Some(i)
  {
    var w := IntToString(i);
    assert !IsSpace(w[0]) && !IsSpace(w[|w| - 1]) by {
      IntToStringEnds(i);
    }
    StripWord(w, pad);
    ParseIntToString(i);
  }

  /** `str(i)` starts with a digit or `-` and ends with a digit. */
  lemma IntToStringEnds(i: int)
    ensures var w := IntToString(i);
            (IsDigit(w[0]) || w[0] == '-') && IsDigit(w[|w| - 1])
  {
    var d := if i < 0 then NatToString(-i) else NatToString(i);
    assert d[0] == d[0] && IsDigit(d[|d| - 1]) && IsDigit(d[0]);
  }

  /** The text `str(i)` parses back as `i`. */
  lemma ParseIntToString(i: int)
    ensures ParseSigned(IntToString(i)) == Some(i)
  {
    var w := IntToString(i);
    if i < 0 {
      var d := NatToString(-i);
      assert w[0] == '-' && w[1..] == d;
      NatToStringValue(-i);
    } else {
      assert IsDigit(w[0]);
      NatToStringValue(i);
    }
  }

  /** Stripping a word that neither starts nor ends with white space, followed by white space. */
  lemma StripWord(w: string, pad: string)
    requires w != [] && !IsSpace(w[0]) && !IsSpace(w[|w| - 1])
    requires forall k :: 0 <= k < |pad| ==> IsSpace(pad[k])
    ensures Strip(w + pad) == w
  {
    RStripTrailing(w, pad);
  }

  /** Trailing white space after a word that does not end in white space is stripped. */
  lemma {:induction false} RStripTrailing(w: string, pad: string)
    requires w != [] && !IsSpace(w[|w| - 1])
    requires forall k :: 0 <= k < |pad| ==> IsSpace(pad[k])
    ensures RStrip(w + pad) == w
    decreases |pad|
  {
    if pad == [] {
      assert w + pad == w;
    } else {
      var s := w + pad;
      assert s[..|s| - 1] == w + pad[..|pad| - 1];
      RStripTrailing(w, pad[..|pad| - 1]);
    }
  }
}
