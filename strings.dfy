/**
 * The handful of Python `str` operations the backend relies on, over
 * `seq<char>`: prefix tests, the first occurrence of a separator, stripping,
 * `os.path.basename`, ASCII lower-casing and decimal numerals.
 */
module Strings {
  import opened Wrappers

  /** The characters for which Python's `str.isspace()` holds; `str.strip()`,
      `str.split()` and the regular-expression class `\s` use this set. */
  predicate IsSpace(c: char)
  {
    || c == ' '
    || ('\t' <= c <= '\r')
    || ('\U{1C}' <= c <= '\U{1F}')
    || c == '\U{85}' || c == '\U{A0}' || c == '\U{1680}'
    || ('\U{2000}' <= c <= '\U{200A}')
    || c == '\U{2028}' || c == '\U{2029}' || c == '\U{202F}'
    || c == '\U{205F}' || c == '\U{3000}'
  }

  predicate IsDigit(c: char)
  {
    '0' <= c <= '9'
  }

  predicate StartsWith(s: string, p: string)
  {
    |p| <= |s| && s[..|p|] == p
  }

  predicate EndsWith(s: string, p: string)
  {
    |p| <= |s| && s[|s| - |p|..] == p
  }

  predicate OccursAt(s: string, p: string, j: nat)
  {
    j + |p| <= |s| && s[j..j + |p|] == p
  }

  /** The first position at or after `from` where `p` occurs in `s`. */
  function IndexFrom(s: string, p: string, from: nat): (r: Option<nat>)
    requires from <= |s|
    ensures r.Some? ==> from <= r.value && OccursAt(s, p, r.value)
    ensures r.Some? ==> forall j :: from <= j < r.value ==> !OccursAt(s, p, j)
    ensures r.None? ==> forall j :: from <= j <= |s| ==> !OccursAt(s, p, j)
    decreases |s| - from
  {
    if OccursAt(s, p, from) then Some(from)
    else if from == |s| then None
    else IndexFrom(s, p, from + 1)
  }

  /** Python's `s.find(p)`, with -1 as None. */
  function IndexOf(s: string, p: string): Option<nat>
  {
    IndexFrom(s, p, 0)
  }

  /** Python's `p in s`. */
  predicate Contains(s: string, p: string)
  {
    IndexOf(s, p).Some?
  }

  /** A one-character pattern occurs exactly when the character is in `s`. */
  lemma ContainsChar(s: string, c: char)
    ensures Contains(s, [c]) <==> c in s
  {
    if c in s {
      var j :| 0 <= j < |s| && s[j] == c;
      assert s[j..j + 1] == [c];
      assert OccursAt(s, [c], j);
    }
    if Contains(s, [c]) {
      var j := IndexOf(s, [c]).value;
      assert s[j..j + 1][0] == s[j];
    }
  }

  /** Python's `s.split(sep, 1)[1]`, for an `s` that contains `sep`. */
  function AfterFirst(s: string, sep: string): (r: string)
    requires Contains(s, sep)
    ensures exists j: nat :: OccursAt(s, sep, j) && r == s[j + |sep|..]
  {
    var j := IndexOf(s, sep).value;
    s[j + |sep|..]
  }

  /** Python's `s.split(sep, 1)[0]`. */
  function BeforeFirst(s: string, sep: string): (r: string)
    ensures !Contains(r, sep) || |sep| == 0
    ensures StartsWith(s, r)
    ensures IndexOf(s, sep).None? ==> r == s
    ensures IndexOf(s, sep).Some? ==> |r| == IndexOf(s, sep).value
  {
    match IndexOf(s, sep)
    case None => s
    case Some(j) =>
      assert forall k :: 0 <= k <= |s[..j]| ==> OccursAt(s[..j], sep, k) ==> OccursAt(s, sep, k);
      s[..j]
  }

  /** Python's `s.lstrip(c)`, for a single character `c`. */
  function LStripChar(s: string, c: char): (r: string)
    ensures EndsWith(s, r)
    ensures r == [] || r[0] != c
    ensures forall i :: 0 <= i < |s| - |r| ==> s[i] == c
  {
    if s != [] && s[0] == c then LStripChar(s[1..], c) else s
  }

  /** Python's `s.rstrip(c)`, for a single character `c`. */
  function RStripChar(s: string, c: char): (r: string)
    ensures StartsWith(s, r)
    ensures r == [] || r[|r| - 1] != c
    ensures forall i :: |r| <= i < |s| ==> s[i] == c
  {
    if s != [] && s[|s| - 1] == c then RStripChar(s[..|s| - 1], c) else s
  }

  /** `r` is `s` with a run of `c` of length `a` cut off its front and the
      run of `c` after `r` cut off its back. */
  predicate TrimmedOf(s: string, r: string, c: char, a: nat)
  {
    && a + |r| <= |s| && r == s[a..a + |r|]
    && (forall i :: 0 <= i < a ==> s[i] == c)
    && (forall i :: a + |r| <= i < |s| ==> s[i] == c)
  }

  /** Python's `s.strip(c)`: the runs of `c` at both ends removed. */
  function StripChar(s: string, c: char): (r: string)
    ensures r == [] || (r[0] != c && r[|r| - 1] != c)
    ensures exists a: nat :: TrimmedOf(s, r, c, a)
  {
    var v := LStripChar(s, c);
    var r := RStripChar(v, c);
    var a := |s| - |v|;
    assert v == s[a..];
    assert r == v[..|r|];
    assert forall i :: a + |r| <= i < |s| ==> s[i] == v[i - a];
    assert TrimmedOf(s, r, c, a);
    r
  }

  /** Python's `s.lstrip()`. */
  function LStrip(s: string): (r: string)
    ensures EndsWith(s, r)
    ensures r == [] || !IsSpace(r[0])
    ensures forall i :: 0 <= i < |s| - |r| ==> IsSpace(s[i])
  {
    if s != [] && IsSpace(s[0]) then LStrip(s[1..]) else s
  }

  /** Python's `s.rstrip()`. */
  function RStrip(s: string): (r: string)
    ensures StartsWith(s, r)
    ensures r == [] || !IsSpace(r[|r| - 1])
    ensures forall i :: |r| <= i < |s| ==> IsSpace(s[i])
  {
    if s != [] && IsSpace(s[|s| - 1]) then RStrip(s[..|s| - 1]) else s
  }

  /** `r` is `s` with `a` blanks cut off its front and the blanks after `r`
      cut off its back. */
  predicate BlankTrimmedOf(s: string, r: string, a: nat)
  {
    && a + |r| <= |s| && r == s[a..a + |r|]
    && (forall i :: 0 <= i < a ==> IsSpace(s[i]))
    && (forall i :: a + |r| <= i < |s| ==> IsSpace(s[i]))
  }

  /** Python's `s.strip()`: the blanks at both ends removed. */
  function Strip(s: string): (r: string)
    ensures r == [] || (!IsSpace(r[0]) && !IsSpace(r[|r| - 1]))
    ensures exists a: nat :: BlankTrimmedOf(s, r, a)
  {
    var v := LStrip(s);
    var r := RStrip(v);
    var a := |s| - |v|;
    assert v == s[a..];
    assert r == v[..|r|];
    assert forall i :: a + |r| <= i < |s| ==> s[i] == v[i - a];
    assert BlankTrimmedOf(s, r, a);
    r
  }

  /** The last whitespace-separated word of `s`: Python's `s.split()[-1]`,
      which raises an IndexError (None here) when `s` has no word. */
  function LastWord(s: string): (r: Option<string>)
    ensures r.Some? ==> r.value != [] && EndsWith(RStrip(s), r.value)
    ensures r.Some? ==> forall i :: 0 <= i < |r.value| ==> !IsSpace(r.value[i])
    ensures r.Some? ==> |r.value| == |RStrip(s)| || IsSpace(RStrip(s)[|RStrip(s)| - |r.value| - 1])
    ensures r.None? <==> forall i :: 0 <= i < |s| ==> IsSpace(s[i])
  {
    var t := RStrip(s);
    if t == [] then None else Some(TrailingWord(t))
  }

  /** The longest suffix of `t` free of whitespace. */
  function TrailingWord(t: string): (r: string)
    ensures EndsWith(t, r)
    ensures forall i :: 0 <= i < |r| ==> !IsSpace(r[i])
    ensures |r| == |t| || IsSpace(t[|t| - |r| - 1])
    ensures t != [] && !IsSpace(t[|t| - 1]) ==> r != []
  {
    if t == [] || IsSpace(t[|t| - 1]) then []
    else TrailingWord(t[..|t| - 1]) + [t[|t| - 1]]
  }

  /** The last word of a string that ends with a word of its own after a
      blank is that word. */
  lemma LastWordAfterBlank(x: string, w: string)
    requires x != [] && IsSpace(x[|x| - 1])
    requires w != [] && forall i :: 0 <= i < |w| ==> !IsSpace(w[i])
    ensures LastWord(x + w) == Some(w)
  {
    var s := x + w;
    assert s[|s| - 1] == w[|w| - 1];
    assert RStrip(s) == s;
    forall i | |x| <= i < |s| ensures !IsSpace(s[i]) {
      assert s[i] == w[i - |x|];
    }
    assert IsSpace(s[|x| - 1]);
    assert s[|x|..] == w;
    WordAfterBlank(s, TrailingWord(s), |x|);
  }

  /** A maximal blank-free suffix of `s` is the one starting at `k`, when
      `s[k..]` is blank-free and `s[k - 1]` is a blank. */
  lemma WordAfterBlank(s: string, r: string, k: nat)
    requires 0 < k < |s| && IsSpace(s[k - 1])
    requires forall i :: k <= i < |s| ==> !IsSpace(s[i])
    requires EndsWith(s, r) && (forall i :: 0 <= i < |r| ==> !IsSpace(r[i]))
    requires |r| == |s| || IsSpace(s[|s| - |r| - 1])
    ensures r == s[k..]
  {
    forall i | |s| - |r| <= i < |s| ensures !IsSpace(s[i]) {
      assert s[i] == s[|s| - |r|..][i - (|s| - |r|)];
    }
    assert |r| == |s| - k;
  }

  /** A string with no blank at either end is its own `strip()`. */
  lemma StripUnblank(s: string)
    requires s != [] && !IsSpace(s[0]) && !IsSpace(s[|s| - 1])
    ensures Strip(s) == s
  {
    assert LStrip(s) == s;
    assert RStrip(s) == s;
  }

  /** `OccursAt` fixes every character of the occurrence. */
  lemma OccursAtChar(s: string, p: string, j: nat, k: nat)
    requires OccursAt(s, p, j) && k < |p|
    ensures s[j + k] == p[k]
  {
    assert s[j + k] == s[j..j + |p|][k];
  }

  /** A pattern does not occur where one of its characters is missing. */
  lemma MismatchAt(s: string, p: string, j: nat, k: nat)
    requires k < |p| && j + k < |s| && s[j + k] != p[k]
    ensures !OccursAt(s, p, j)
  {
    if j + |p| <= |s| {
      assert s[j..j + |p|][k] == s[j + k];
    }
  }

  /** A pattern with a character the string lacks occurs nowhere in it. */
  lemma AbsentCharAt(s: string, p: string, j: nat, k: nat)
    requires k < |p| && p[k] !in s
    ensures !OccursAt(s, p, j)
  {
    if j + |p| <= |s| {
      assert s[j..j + |p|][k] == s[j + k];
    }
  }

  /** A pattern with a character the string lacks is not in the string. */
  lemma AbsentChar(s: string, p: string, k: nat)
    requires k < |p| && p[k] !in s
    ensures !Contains(s, p)
  {
    if Contains(s, p) {
      OccursAtChar(s, p, IndexOf(s, p).value, k);
      assert false;
    }
  }

  /** The text before the first `c` of `pre + rest`, when `rest` starts
      with `c` and `pre` holds none, is `pre`. */
  lemma BeforeFirstChar(pre: string, rest: string, c: char)
    requires c !in pre && rest != [] && rest[0] == c
    ensures Contains(pre + rest, [c]) && BeforeFirst(pre + rest, [c]) == pre
  {
    var s := pre + rest;
    forall j | 0 <= j < |pre| ensures !OccursAt(s, [c], j) {
      assert s[j] == pre[j];
      if OccursAt(s, [c], j) { OccursAtChar(s, [c], j, 0); }
    }
    assert OccursAt(s, [c], |pre|) by { assert s[|pre|..|pre| + 1] == [c]; }
    FirstOccurrence(s, [c], |pre|);
    assert s[..|pre|] == pre;
  }

  /** The first occurrence of `p` is where `find` reports it. */
  lemma FirstOccurrence(s: string, p: string, k: nat)
    requires OccursAt(s, p, k)
    requires forall j :: 0 <= j < k ==> !OccursAt(s, p, j)
    ensures IndexOf(s, p) == Some(k)
  {
  }

  /** When `sep` first occurs right after `head`, what follows it is `rest`. */
  lemma AfterHead(head: string, sep: string, rest: string)
    requires forall j :: 0 <= j < |head| ==> !OccursAt(head + sep + rest, sep, j)
    ensures Contains(head + sep + rest, sep) && AfterFirst(head + sep + rest, sep) == rest
  {
    var s := head + sep + rest;
    assert s[|head|..|head| + |sep|] == sep;
    FirstOccurrence(s, sep, |head|);
    assert s[|head| + |sep|..] == rest;
  }

  /** Python's `os.path.basename`: everything after the last `/`. */
  function Basename(path: string): (r: string)
    ensures '/' !in r
    ensures EndsWith(path, r)
    ensures |r| == |path| || path[|path| - |r| - 1] == '/'
  {
    if path == [] || path[|path| - 1] == '/' then []
    else Basename(path[..|path| - 1]) + [path[|path| - 1]]
  }

  /** Python's `str.lower()` for one character, restricted to the mappings
      whose result is an ASCII letter: `A`-`Z` and the Kelvin sign. */
  function LowerChar(c: char): (r: char)
    ensures 'A' <= c <= 'Z' ==> r as int == c as int + 32
    ensures !('A' <= c <= 'Z') && c != '\U{212A}' ==> r == c
  {
    if 'A' <= c <= 'Z' then (c as int + 32) as char
    else if c == '\U{212A}' then 'k'
    else c
  }

  function Lower(s: string): (r: string)
    ensures |r| == |s|
    ensures forall i :: 0 <= i < |s| ==> r[i] == LowerChar(s[i])
  {
    if s == [] then [] else [LowerChar(s[0])] + Lower(s[1..])
  }

  /** A non-empty run of ASCII decimal digits. */
  predicate IsNumeral(s: string)
  {
    s != [] && forall i :: 0 <= i < |s| ==> IsDigit(s[i])
  }

  /** The value of a string of ASCII digits (0 for the empty string). */
  function DigitsValue(s: string): nat
    requires forall i :: 0 <= i < |s| ==> IsDigit(s[i])
  {
    if s == [] then 0
    else
      assert IsDigit(s[|s| - 1]);
      DigitsValue(s[..|s| - 1]) * 10 + (s[|s| - 1] as int - '0' as int)
  }

  function DigitChar(d: nat): (c: char)
    requires d < 10
    ensures IsDigit(c) && c as int - '0' as int == d
  {
    ('0' as int + d) as char
  }

  /** Python's `str(n)` for a non-negative integer. */
  function NatToString(n: nat): (r: string)
  {
    if n < 10 then [DigitChar(n)] else NatToString(n / 10) + [DigitChar(n % 10)]
  }

  /** `int(str(n)) == n`, and `str(n)` is a numeral without a leading zero. */
  lemma {:induction false} NatToStringRoundTrip(n: nat)
    ensures IsNumeral(NatToString(n))
    ensures DigitsValue(NatToString(n)) == n
    ensures |NatToString(n)| > 1 ==> NatToString(n)[0] != '0'
    decreases n
  {
    if n >= 10 {
      NatToStringRoundTrip(n / 10);
      var s := NatToString(n);
      assert s[..|s| - 1] == NatToString(n / 10);
    }
  }

  function Pow10(k: nat): (r: nat)
    ensures r >= 1
  {
    if k == 0 then 1 else 10 * Pow10(k - 1)
  }

  /** The value of the decimal `whole.frac`. */
  function DecimalValue(whole: string, frac: string): (v: real)
    requires forall i :: 0 <= i < |whole| ==> IsDigit(whole[i])
    requires forall i :: 0 <= i < |frac| ==> IsDigit(frac[i])
    ensures v >= 0.0
  {
    DigitsValue(whole) as real + DigitsValue(frac) as real / Pow10(|frac|) as real
  }

  /** Python's `float(s)` on a word made of digits and dots: digits with at
      most one decimal point and at least one digit. */
  function ParseDecimal(s: string): (r: Option<real>)
    ensures r.Some? ==> r.value >= 0.0
    ensures IsNumeral(s) ==> r == Some(DigitsValue(s) as real)
  {
    match IndexOf(s, ".")
    case None =>
      if IsNumeral(s) then Some(DigitsValue(s) as real) else None
    case Some(j) =>
      assert s[j..j + 1] == "." && s[j] == '.';
      var whole, frac := s[..j], s[j + 1..];
      if (whole != [] || frac != [])
         && (forall i :: 0 <= i < |whole| ==> IsDigit(whole[i]))
         && (forall i :: 0 <= i < |frac| ==> IsDigit(frac[i]))
      then Some(DecimalValue(whole, frac))
      else None
  }

  /** A word `w.f` of digits with one dot reads as w + f / 10^|f|, the
      decimal `DecimalValue(w, f)`. */
  lemma DecimalWithDot(w: string, f: string)
    requires w != [] || f != []
    requires forall i :: 0 <= i < |w| ==> IsDigit(w[i])
    requires forall i :: 0 <= i < |f| ==> IsDigit(f[i])
    ensures ParseDecimal(w + "." + f) == Some(DecimalValue(w, f))
  {
    var s := w + "." + f;
    FirstDot(w, f);
    assert s[..|w|] == w && s[|w| + 1..] == f;
    ParseDecimalAt(s, |w|);
  }

  /** A word whose first dot is at `j`, with digits on both sides, reads as
      the decimal of those digits. */
  lemma ParseDecimalAt(s: string, j: nat)
    requires IndexOf(s, ".") == Some(j) && j < |s|
    requires j > 0 || j + 1 < |s|
    requires forall i :: 0 <= i < j ==> IsDigit(s[i])
    requires forall i :: j + 1 <= i < |s| ==> IsDigit(s[i])
    ensures ParseDecimal(s) == Some(DecimalValue(s[..j], s[j + 1..]))
  {
    var whole, frac := s[..j], s[j + 1..];
    assert whole != [] || frac != [];
    assert forall i :: 0 <= i < |whole| ==> IsDigit(whole[i]);
    assert forall i :: 0 <= i < |frac| ==> IsDigit(frac[i]);
  }

  /** `s` is the word `w.f`: digits, one dot, digits, with at least one
      digit in all. */
  predicate DottedDigits(s: string, w: string, f: string)
  {
    && s == w + "." + f && (w != [] || f != [])
    && (forall i :: 0 <= i < |w| ==> IsDigit(w[i]))
    && (forall i :: 0 <= i < |f| ==> IsDigit(f[i]))
  }

  /** `ParseDecimal` accepts exactly the numerals and the words `w.f`;
      `float()` raises a ValueError (None here) for every other word. */
  lemma ParseDecimalAccepts(s: string)
    ensures ParseDecimal(s).Some? <==> IsNumeral(s) || exists w, f :: DottedDigits(s, w, f)
  {
    if exists w, f :: DottedDigits(s, w, f) {
      var w, f :| DottedDigits(s, w, f);
      DecimalWithDot(w, f);
    }
    if ParseDecimal(s).Some? && !IsNumeral(s) {
      AcceptedDotted(s);
    }
  }

  /** An accepted word that is not a numeral is split by its first dot into
      the two digit strings `w.f`. */
  lemma AcceptedDotted(s: string)
    requires ParseDecimal(s).Some? && !IsNumeral(s)
    ensures IndexOf(s, ".").Some?
    ensures DottedDigits(s, s[..IndexOf(s, ".").value], s[IndexOf(s, ".").value + 1..])
  {
    var j := IndexOf(s, ".").value;
    assert s[j..j + 1] == ".";
    assert s == s[..j] + s[j..j + 1] + s[j + 1..];
  }

  /** A word with two dots, such as `1.2.3`, does not parse. */
  lemma SecondDotRejected(s: string, a: nat, b: nat)
    requires a < b < |s| && s[a] == '.' && s[b] == '.'
    ensures ParseDecimal(s).None?
  {
    ParseDecimalAccepts(s);
  }

  /** The first dot of `w.f`, for a `w` of digits, is the one after `w`. */
  lemma FirstDot(w: string, f: string)
    requires forall i :: 0 <= i < |w| ==> IsDigit(w[i])
    ensures IndexOf(w + "." + f, ".") == Some(|w|)
  {
    var s := w + "." + f;
    forall j | 0 <= j < |w| ensures !OccursAt(s, ".", j) {
      assert s[j] == w[j];
      MismatchAt(s, ".", j, 0);
    }
    assert OccursAt(s, ".", |w|) by {
      assert s[|w|..|w| + 1] == ".";
    }
    FirstOccurrence(s, ".", |w|);
  }

  /** Python's `float(s)` on one word, with an optional sign; exponents,
      `inf`, `nan` and underscores are not accepted. */
  function ParseFloat(s: string): (r: Option<real>)
    ensures s != [] && s[0] != '-' && s[0] != '+' ==> r == ParseDecimal(s)
    ensures s != [] && s[0] == '+' ==> r == ParseDecimal(s[1..])
    ensures s != [] && s[0] == '-' ==>
      (r.Some? <==> ParseDecimal(s[1..]).Some?) && (r.Some? ==> r.value == -ParseDecimal(s[1..]).value)
    ensures s == [] ==> r.None?
    ensures IsNumeral(s) ==> r == Some(DigitsValue(s) as real)
  {
    if s != [] && s[0] == '-' then
      match ParseDecimal(s[1..])
      case Some(v) => Some(-v)
      case None => None
    else if s != [] && s[0] == '+' then ParseDecimal(s[1..])
    else ParseDecimal(s)
  }
}
