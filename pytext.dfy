/**
 * The Python string operations the roster parser relies on (str.strip,
 * str.startswith, str.replace of one character, str.split(..)[1], int() and
 * str() of an integer), written on Dafny strings.
 */
module PyText {
  import opened Wrappers

  /** The characters for which Python's str.isspace() holds; str.strip() removes them. */
  predicate IsSpace(c: char) {
    ('\t' <= c <= '\r') || ('\U{1C}' <= c <= '\U{1F}') || c == ' ' || c == '\U{85}' || c == '\U{A0}'
    || c == '\U{1680}' || ('\U{2000}' <= c <= '\U{200A}') || c == '\U{2028}' || c == '\U{2029}'
    || c == '\U{202F}' || c == '\U{205F}' || c == '\U{3000}'
  }

  /** str.lstrip(). */
  function LStrip(s: string): string {
    if s != [] && IsSpace(s[0]) then LStrip(s[1..]) else s
  }

  /** str.rstrip(). */
  function RStrip(s: string): string {
    if s != [] && IsSpace(s[|s| - 1]) then RStrip(s[..|s| - 1]) else s
  }

  /** str.strip(). */
  function Strip(s: string): string {
    RStrip(LStrip(s))
  }

  /** lstrip() gives the longest suffix of s that does not start with whitespace. */
  lemma {:induction false} LStripSpec(s: string)
    ensures var r := LStrip(s);
      |r| <= |s| && r == s[|s| - |r|..] &&
      (forall i :: 0 <= i < |s| - |r| ==> IsSpace(s[i])) &&
      (r == [] || !IsSpace(r[0]))
  {
    if s != [] && IsSpace(s[0]) {
      var t := s[1..];
      LStripSpec(t);
      var r := LStrip(t);
      assert LStrip(s) == r;
      assert t[|t| - |r|..] == s[|s| - |r|..];
      forall i | 0 <= i < |s| - |r|
        ensures IsSpace(s[i])
      {
        if i > 0 {
          assert s[i] == t[i - 1];
        }
      }
    }
  }

  /** rstrip() gives the longest prefix of s that does not end with whitespace. */
  lemma {:induction false} RStripSpec(s: string)
    ensures var r := RStrip(s);
      |r| <= |s| && r == s[..|r|] &&
      (forall i :: |r| <= i < |s| ==> IsSpace(s[i])) &&
      (r == [] || !IsSpace(r[|r| - 1]))
  {
    if s != [] && IsSpace(s[|s| - 1]) {
      var t := s[..|s| - 1];
      RStripSpec(t);
      var r := RStrip(t);
      assert RStrip(s) == r;
      assert t[..|r|] == s[..|r|];
      forall i | |r| <= i < |s|
        ensures IsSpace(s[i])
      {
        if i < |t| {
          assert s[i] == t[i];
        }
      }
    }
  }

  /** strip() leaves no whitespace at either end, and leaves a text without whitespace unchanged. */
  lemma StripSpec(s: string)
    ensures |Strip(s)| <= |s|
    ensures Strip(s) == [] || (!IsSpace(Strip(s)[0]) && !IsSpace(Strip(s)[|Strip(s)| - 1]))
    ensures (forall i :: 0 <= i < |s| ==> !IsSpace(s[i])) ==> Strip(s) == s
  {
    LStripSpec(s);
    RStripSpec(LStrip(s));
    if forall i :: 0 <= i < |s| ==> !IsSpace(s[i]) {
      if s != [] {
        assert !IsSpace(s[0]) && !IsSpace(s[|s| - 1]);
      }
    }
  }

  /** str.startswith(p). */
  predicate StartsWith(s: string, p: string) {
    |p| <= |s| && s[..|p|] == p
  }

  /** A prefix without whitespace that s starts with survives strip(). */
  lemma StripKeepsPrefix(s: string, p: string)
    requires StartsWith(s, p) && p != [] && forall i :: 0 <= i < |p| ==> !IsSpace(p[i])
    ensures StartsWith(Strip(s), p)
  {
    LStripSpec(s);
    RStripSpec(s);
    assert s[0] == p[0];
    var l := LStrip(s);
    assert l == s;
    var r := RStrip(l);
    assert s[|p| - 1] == p[|p| - 1];
    assert |r| >= |p|;
    assert r[..|p|] == s[..|p|];
  }

  /** lstrip() removes a leading whitespace run up to a character that is not whitespace. */
  lemma {:induction false} LStripSpaces(w: string, t: string)
    requires (forall i :: 0 <= i < |w| ==> IsSpace(w[i])) && t != [] && !IsSpace(t[0])
    ensures LStrip(w + t) == t
  {
    if w != [] {
      assert (w + t)[0] == w[0];
      assert (w + t)[1..] == w[1..] + t;
      LStripSpaces(w[1..], t);
    } else {
      assert w + t == t;
    }
  }

  /** rstrip() removes a trailing whitespace run back to a character that is not whitespace. */
  lemma {:induction false} RStripSpaces(t: string, w: string)
    requires (forall i :: 0 <= i < |w| ==> IsSpace(w[i])) && t != [] && !IsSpace(t[|t| - 1])
    ensures RStrip(t + w) == t
  {
    if w != [] {
      var w' := w[..|w| - 1];
      assert (t + w)[|t + w| - 1] == w[|w| - 1];
      assert (t + w)[..|t + w| - 1] == t + w';
      RStripSpaces(t, w');
    } else {
      assert t + w == t;
    }
  }

  /** strip() of a text padded with whitespace on both sides is the text. */
  lemma StripPadded(w: string, t: string, w': string)
    requires forall i :: 0 <= i < |w| ==> IsSpace(w[i])
    requires forall i :: 0 <= i < |w'| ==> IsSpace(w'[i])
    requires t != [] && !IsSpace(t[0]) && !IsSpace(t[|t| - 1])
    ensures Strip(w + t + w') == t
  {
    assert w + t + w' == w + (t + w');
    assert (t + w')[0] == t[0];
    LStripSpaces(w, t + w');
    RStripSpaces(t, w');
  }

  /** str.replace(c, ''). */
  function RemoveChar(s: string, c: char): string {
    if s == [] then [] else (if s[0] == c then [] else [s[0]]) + RemoveChar(s[1..], c)
  }

  /**
   * replace(c, '') removes every occurrence of c and nothing else, and leaves a
   * text without c unchanged.
   */
  lemma {:induction false} RemoveCharSpec(s: string, c: char)
    ensures var r := RemoveChar(s, c);
      c !in r && (forall x :: x in r <==> x in s && x != c) &&
      |r| == |s| - multiset(s)[c] && (c !in s ==> r == s)
  {
    if s != [] {
      RemoveCharSpec(s[1..], c);
      assert s == [s[0]] + s[1..];
    }
  }

  /** str.find(c) for one character: the index of its first occurrence. */
  function Find(s: string, c: char): (r: Option<nat>)
    ensures r.None? <==> c !in s
    ensures r.Some? ==> r.value < |s| && s[r.value] == c && c !in s[..r.value]
  {
    if s == [] then None
    else if s[0] == c then Some(0)
    else match Find(s[1..], c)
      case None => None
      case Some(k) => assert s[..k + 1] == [s[0]] + s[1..][..k]; Some(k + 1)
  }

  /** The text up to (not including) the first c, or all of t when c does not occur. */
  function CutAt(t: string, c: char): string {
    match Find(t, c)
    case None => t
    case Some(j) => t[..j]
  }

  /** CutAt gives the longest c-free prefix of t. */
  lemma CutAtSpec(t: string, c: char)
    ensures var r := CutAt(t, c);
      |r| <= |t| && r == t[..|r|] && c !in r && (|r| == |t| || t[|r|] == c)
  {
    if c in t {
      var j := Find(t, c).value;
      assert CutAt(t, c) == t[..j];
    } else {
      assert CutAt(t, c) == t;
    }
  }

  /**
   * s.split(c)[1]: the text between the first and the second c (or the end
   * of s); None where Python raises IndexError because c does not occur.
   */
  function SplitSecond(s: string, c: char): Option<string> {
    match Find(s, c)
    case None => None
    case Some(k) => Some(CutAt(s[k + 1..], c))
  }

  /**
   * split(c)[1] exists exactly when c occurs; it is the c-free stretch that
   * starts right after the first c and ends at the next c or at the end.
   */
  lemma SplitSecondSpec(s: string, c: char)
    ensures c !in s ==> SplitSecond(s, c) == None
    ensures c in s ==>
      var k := Find(s, c).value; var r := CutAt(s[k + 1..], c);
      SplitSecond(s, c) == Some(r) && c !in r && k + 1 + |r| <= |s| &&
      (forall i :: 0 <= i < |r| ==> r[i] == s[k + 1 + i]) &&
      (k + 1 + |r| == |s| || s[k + 1 + |r|] == c)
  {
    if c in s {
      var k := Find(s, c).value;
      var t := s[k + 1..];
      CutAtSpec(t, c);
      SuffixPrefix(s, k + 1, CutAt(t, c));
    }
  }

  /** A prefix of the suffix s[m..] lines up with s from index m on. */
  lemma SuffixPrefix(s: string, m: nat, r: string)
    requires m <= |s| && |r| <= |s| - m && r == s[m..][..|r|]
    ensures forall i :: 0 <= i < |r| ==> r[i] == s[m + i]
  {
  }

  /** The first c of p + [c] + rest is the one after p when p has none. */
  lemma {:induction false} FindAfter(p: string, c: char, rest: string)
    requires c !in p
    ensures Find(p + [c] + rest, c) == Some(|p|)
  {
    if p != [] {
      assert (p + [c] + rest)[1..] == p[1..] + [c] + rest;
      FindAfter(p[1..], c, rest);
    }
  }

  /** split(c)[1] of p + c + rest is rest when neither p nor rest holds a c. */
  lemma SplitSecondAfter(p: string, c: char, rest: string)
    requires c !in p && c !in rest
    ensures SplitSecond(p + [c] + rest, c) == Some(rest)
  {
    FindAfter(p, c, rest);
    assert (p + [c] + rest)[|p| + 1..] == rest;
  }

  predicate IsDigit(ch: char) {
    '0' <= ch <= '9'
  }

  predicate AllDigits(s: string) {
    forall i :: 0 <= i < |s| ==> IsDigit(s[i])
  }

  function DigitValue(ch: char): nat
    requires IsDigit(ch)
  {
    (ch as int) - ('0' as int)
  }

  function DigitChar(d: nat): char
    requires d < 10
  {
    (('0' as int) + d) as char
  }

  /** The value of a run of decimal digits, most significant first. */
  function DigitsValue(s: string): nat
    requires AllDigits(s)
  {
    if s == [] then 0 else DigitsValue(s[..|s| - 1]) * 10 + DigitValue(s[|s| - 1])
  }

  /** The digit part int() accepts: digits, with single underscores between two digits. */
  predicate IsDigitRun(s: string) {
    |s| > 0 && IsDigit(s[0]) && IsDigit(s[|s| - 1]) &&
    (forall i :: 0 <= i < |s| ==> IsDigit(s[i]) || s[i] == '_') &&
    (forall i :: 0 <= i < |s| - 1 ==> s[i] == '_' ==> s[i + 1] != '_')
  }

  predicate HasSign(s: string) {
    |s| > 0 && (s[0] == '-' || s[0] == '+')
  }

  /** What follows the optional sign. */
  function Unsigned(s: string): string {
    if HasSign(s) then s[1..] else s
  }

  /**
   * Python int(s) on a string without surrounding whitespace, restricted to
   * ASCII digits: an optional sign, then a digit run; None for every text
   * outside that form. Python also accepts other Unicode decimal digits and
   * refuses texts of more than 4300 digits; neither is modelled.
   */
  function ParseInt(s: string): Option<int> {
    var body := Unsigned(s);
    if IsDigitRun(body) then
      var digits := RemoveChar(body, '_');
      assert AllDigits(digits) by {
        RemoveCharSpec(body, '_');
        forall i | 0 <= i < |digits| ensures IsDigit(digits[i]) {
          assert digits[i] in body;
        }
      }
      var v: int := DigitsValue(digits);
      Some(if HasSign(s) && s[0] == '-' then -v else v)
    else None
  }

  /** str(n) of a natural number: its decimal digits, most significant first. */
  function NatToString(n: nat): (s: string)
    ensures |s| > 0 && AllDigits(s)
  {
    if n < 10 then [DigitChar(n)] else NatToString(n / 10) + [DigitChar(n % 10)]
  }

  /** str(n) of an integer. */
  function IntToString(n: int): string {
    if n < 0 then "-" + NatToString(-n) else NatToString(n)
  }

  lemma {:induction false} NatToStringValue(n: nat)
    ensures DigitsValue(NatToString(n)) == n
  {
    if n >= 10 {
      var s := NatToString(n);
      NatToStringValue(n / 10);
      assert s[..|s| - 1] == NatToString(n / 10);
    }
  }

  lemma DigitsAreRun(s: string)
    requires |s| > 0 && AllDigits(s)
    ensures IsDigitRun(s) && RemoveChar(s, '_') == s
  {
    RemoveCharSpec(s, '_');
    assert !IsDigit('_');
    assert '_' !in s;
  }

  /** int() of a plain run of digits is its decimal value. */
  lemma ParseIntOfDigits(s: string)
    requires |s| > 0 && AllDigits(s)
    ensures ParseInt(s) == Some(DigitsValue(s))
  {
    DigitsAreRun(s);
    assert !HasSign(s) by { assert IsDigit(s[0]); }
  }

  /** int(str(n)) == n: the two conversions are inverse. */
  lemma ParseIntToString(n: int)
    ensures ParseInt(IntToString(n)) == Some(n)
  {
    var m: nat := if n < 0 then -n else n;
    var digits := NatToString(m);
    NatToStringValue(m);
    DigitsAreRun(digits);
    var s := IntToString(n);
    if n < 0 {
      assert s == "-" + digits;
      assert HasSign(s) && s[0] == '-';
      assert Unsigned(s) == digits;
    } else {
      assert s == digits;
      assert !HasSign(s) by { assert IsDigit(s[0]); }
      assert Unsigned(s) == digits;
    }
  }

  /** str(n) starts with a digit or '-', ends with a digit, and holds nothing else. */
  lemma IntToStringShape(n: int)
    ensures var s := IntToString(n);
      s != [] && (IsDigit(s[0]) || s[0] == '-') && IsDigit(s[|s| - 1]) &&
      forall i :: 0 <= i < |s| ==> IsDigit(s[i]) || s[i] == '-'
  {
    var d := NatToString(if n < 0 then -n else n);
    if n < 0 {
      assert IntToString(n) == "-" + d;
    }
  }

  /** int() refuses any text holding a character other than a digit, a sign or '_'. */
  lemma ParseIntRejects(s: string, i: nat)
    requires i < |s| && !IsDigit(s[i]) && s[i] != '-' && s[i] != '+' && s[i] != '_'
    ensures ParseInt(s) == None
  {
    if HasSign(s) {
      assert Unsigned(s)[i - 1] == s[i];
    }
  }

  /** A text with no sign character in front and no digit run is refused by int(). */
  lemma ParseIntRejectsEmpty()
    ensures ParseInt("") == None && ParseInt("-") == None && ParseInt("1__0") == None
  {
    assert !IsDigitRun("1__0") by {
      assert "1__0"[1] == '_' && "1__0"[2] == '_';
    }
  }
}
