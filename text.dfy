/** The Python text primitives the bots rely on: `str.strip()`, `", ".join(...)`
    and `str(int)`, written out so that the rendered field text can be reasoned about. */
module Text {

  /** Python's `str.isspace()` on one character: exactly the characters that
      `str.strip()` with no argument removes. */
  predicate IsSpace(c: char)
  {
    || ('\U{9}' <= c <= '\U{D}')
    || ('\U{1C}' <= c <= '\U{20}')
    || c == '\U{85}' || c == '\U{A0}' || c == '\U{1680}'
    || ('\U{2000}' <= c <= '\U{200A}')
    || c == '\U{2028}' || c == '\U{2029}' || c == '\U{202F}' || c == '\U{205F}' || c == '\U{3000}'
  }

  predicate AllSpace(s: string)
  {
    forall k :: 0 <= k < |s| ==> IsSpace(s[k])
  }

  /** A string with no whitespace at either end: what `strip()` leaves. */
  predicate Trimmed(s: string)
  {
    s == [] || (!IsSpace(s[0]) && !IsSpace(s[|s| - 1]))
  }

  /** `s.lstrip()`: drops the leading whitespace and nothing else. */
  function LStrip(s: string): (r: string)
    ensures |r| <= |s| && r == s[|s| - |r|..]
    ensures AllSpace(s[..|s| - |r|])
    ensures r != [] ==> !IsSpace(r[0])
  {
    if s != [] && IsSpace(s[0]) then LStrip(s[1..]) else s
  }

  /** `s.rstrip()`: drops the trailing whitespace and nothing else. */
  function RStrip(s: string): (r: string)
    ensures |r| <= |s| && r == s[..|r|]
    ensures AllSpace(s[|r|..])
    ensures r != [] ==> !IsSpace(r[|r| - 1])
  {
    if s != [] && IsSpace(s[|s| - 1]) then RStrip(s[..|s| - 1]) else s
  }

  /** `s.strip()`. */
  function Strip(s: string): (r: string)
    ensures Trimmed(r)
    ensures |r| <= |s|
  {
    RStrip(LStrip(s))
  }

  lemma {:induction false} LStripPadding(p: string, s: string)
    requires AllSpace(p)
    ensures LStrip(p + s) == LStrip(s)
  {
    if p != [] {
      assert (p + s)[0] == p[0] && (p + s)[1..] == p[1..] + s;
      assert IsSpace((p + s)[0]);
      assert LStrip(p + s) == LStrip(p[1..] + s);
      LStripPadding(p[1..], s);
    } else {
      assert p + s == s;
    }
  }

  lemma {:induction false} RStripPadding(s: string, q: string)
    requires AllSpace(q)
    ensures RStrip(s + q) == RStrip(s)
  {
    if q != [] {
      assert (s + q)[|s + q| - 1] == q[|q| - 1] && (s + q)[..|s + q| - 1] == s + q[..|q| - 1];
      assert IsSpace((s + q)[|s + q| - 1]);
      assert RStrip(s + q) == RStrip(s + q[..|q| - 1]);
      RStripPadding(s, q[..|q| - 1]);
    } else {
      assert s + q == s;
    }
  }

  /** `strip()` is completely determined: whatever whitespace surrounds a trimmed
      core, the result is that core. */
  lemma StripRemovesPadding(p: string, core: string, q: string)
    requires AllSpace(p) && AllSpace(q) && Trimmed(core)
    ensures Strip(p + core + q) == core
  {
    assert p + core + q == p + (core + q);
    LStripPadding(p, core + q);
    if core == [] {
      assert core + q == [] + q;
      LStripPadding(q, []);
      assert q + [] == q;
    } else {
      assert LStrip(core + q) == core + q;
    }
    RStripPadding(core, q);
  }

  /** Stripping twice is stripping once. */
  lemma StripIdempotent(s: string)
    ensures Strip(Strip(s)) == Strip(s)
  {
    var r := Strip(s);
    StripRemovesPadding([], r, []);
    assert [] + r + [] == r;
  }

  predicate IsDigit(c: char)
  {
    '0' <= c <= '9'
  }

  predicate IsNumeral(s: string)
  {
    s != [] && forall k :: 0 <= k < |s| ==> IsDigit(s[k])
  }

  function DigitChar(d: int): (c: char)
    requires 0 <= d < 10
    ensures IsDigit(c)
  {
    (48 + d) as char
  }

  /** Python's `str(n)` for a non-negative integer: decimal digits, no leading zero. */
  function NatToString(n: nat): (s: string)
    ensures IsNumeral(s)
    ensures n > 0 ==> s[0] != '0'
  {
    if n < 10 then [DigitChar(n)] else NatToString(n / 10) + [DigitChar(n % 10)]
  }

  function DigitValue(c: char): nat
    requires IsDigit(c)
  {
    c as int - '0' as int
  }

  /** Reading a numeral back: the reference against which `NatToString` is checked. */
  function ParseNat(s: string): nat
    requires forall k :: 0 <= k < |s| ==> IsDigit(s[k])
  {
    if s == [] then 0 else 10 * ParseNat(s[..|s| - 1]) + DigitValue(s[|s| - 1])
  }

  lemma {:induction false} ParseNatToString(n: nat)
    ensures ParseNat(NatToString(n)) == n
  {
    if n >= 10 {
      var s := NatToString(n);
      assert s[..|s| - 1] == NatToString(n / 10);
      ParseNatToString(n / 10);
    }
  }

  /** Python's `str(i)` for any integer. */
  function IntToString(i: int): (s: string)
    ensures |s| > 0 && (s[0] == '-' <==> i < 0)
  {
    if i < 0 then "-" + NatToString(-i) else NatToString(i)
  }

  /** Reading back what `IntToString` writes, with or without a leading minus. */
  function ParseInt(s: string): int
    requires IsNumeral(s) || (|s| > 1 && s[0] == '-' && IsNumeral(s[1..]))
  {
    if s[0] == '-' then -(ParseNat(s[1..]) as int) else ParseNat(s)
  }

  lemma ParseIntToString(i: int)
    ensures var s := IntToString(i);
            (IsNumeral(s) || (|s| > 1 && s[0] == '-' && IsNumeral(s[1..]))) && ParseInt(s) == i
  {
    if i < 0 {
      assert IntToString(i)[1..] == NatToString(-i);
      ParseNatToString(-i);
    } else {
      ParseNatToString(i);
    }
  }

  /** Python's `", ".join(xs)`: one two-character separator between each pair of
      neighbours, so the text is at least that long. */
  function Join(xs: seq<string>): (text: string)
    ensures |xs| > 0 ==> |text| >= 2 * (|xs| - 1)
  {
    if xs == [] then ""
    else if |xs| == 1 then xs[0]
    else Join(xs[..|xs| - 1]) + ", " + xs[|xs| - 1]
  }

  /** Appending a name to the list adds exactly `", " + name` at the end of the text. */
  lemma JoinAppend(xs: seq<string>, x: string)
    ensures Join(xs + [x]) == if xs == [] then x else Join(xs) + ", " + x
  {
    assert (xs + [x])[..|xs + [x]| - 1] == xs;
  }

  /** The same text read from the front: the first name, then the rest. */
  lemma {:induction false} JoinCons(x: string, xs: seq<string>)
    ensures Join([x] + xs) == if xs == [] then x else x + ", " + Join(xs)
  {
    if |xs| > 1 {
      var init := xs[..|xs| - 1];
      assert ([x] + xs)[..|[x] + xs| - 1] == [x] + init;
      JoinCons(x, init);
    } else if |xs| == 1 {
      assert ([x] + xs)[..1] == [x];
    }
  }

  /** Two or more names always put a comma in the text. */
  lemma JoinSeveralHasComma(xs: seq<string>)
    requires |xs| >= 2
    ensures ',' in Join(xs)
  {
    var j := Join(xs[..|xs| - 1]);
    assert Join(xs)[|j|] == ',';
  }
}
