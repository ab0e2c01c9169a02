/** String primitives of Python's `str` and JavaScript's `String` that the
    modelled code relies on: whitespace stripping, case mapping, splitting,
    joining, substring search and decimal integer conversion. */
module Text {
  import opened Results

  /** Python's `str.isspace()` for a single character. */
  predicate IsPySpace(c: char) {
    || c == ' ' || '\t' <= c <= '\r' || '\U{1c}' <= c <= '\U{1f}'
    || c == '\U{85}' || c == '\U{a0}' || c == '\U{1680}'
    || '\U{2000}' <= c <= '\U{200a}' || c == '\U{2028}' || c == '\U{2029}'
    || c == '\U{202f}' || c == '\U{205f}' || c == '\U{3000}'
  }

  /** The characters JavaScript's `trim()` and the regular-expression class `\s` treat as white space. */
  predicate IsJsSpace(c: char) {
    || c == ' ' || '\t' <= c <= '\r' || c == '\U{a0}' || c == '\U{1680}'
    || '\U{2000}' <= c <= '\U{200a}' || c == '\U{2028}' || c == '\U{2029}'
    || c == '\U{202f}' || c == '\U{205f}' || c == '\U{3000}' || c == '\U{feff}'
  }

  /** Which language's notion of white space a trim uses. */
  datatype Flavor = Python | JavaScript

  predicate IsSpace(f: Flavor, c: char) {
    if f == Python then IsPySpace(c) else IsJsSpace(c)
  }

  predicate IsDigit(c: char) { '0' <= c <= '9' }
  predicate IsAsciiUpper(c: char) { 'A' <= c <= 'Z' }
  predicate IsAsciiLower(c: char) { 'a' <= c <= 'z' }
  predicate IsAsciiLetter(c: char) { IsAsciiUpper(c) || IsAsciiLower(c) }

  /** Drops the leading white-space characters of flavour `f`. */
  function TrimStart(s: string, f: Flavor): (r: string)
    ensures |r| <= |s| && r == s[|s| - |r|..]
    ensures r == [] || !IsSpace(f, r[0])
    ensures forall i :: 0 <= i < |s| - |r| ==> IsSpace(f, s[i])
  {
    if s != [] && IsSpace(f, s[0]) then TrimStart(s[1..], f) else s
  }

  /** Drops the trailing white-space characters of flavour `f`. */
  function TrimEnd(s: string, f: Flavor): (r: string)
    ensures |r| <= |s| && r == s[..|r|]
    ensures r == [] || !IsSpace(f, r[|r| - 1])
    ensures forall i :: |r| <= i < |s| ==> IsSpace(f, s[i])
  {
    if s != [] && IsSpace(f, s[|s| - 1]) then TrimEnd(s[..|s| - 1], f) else s
  }

  /** Drops the white-space characters of flavour `f` from both ends. */
  function Trim(s: string, f: Flavor): (r: string)
    ensures |r| <= |s|
    ensures r == [] || (!IsSpace(f, r[0]) && !IsSpace(f, r[|r| - 1]))
  {
    TrimEnd(TrimStart(s, f), f)
  }

  /** Text without white space at either end is left alone by a trim. */
  lemma TrimUnspaced(s: string, f: Flavor)
    requires s == [] || (!IsSpace(f, s[0]) && !IsSpace(f, s[|s| - 1]))
    ensures Trim(s, f) == s
  {
    assert TrimStart(s, f) == s;
  }

  /** Trimming only removes characters, so a character absent before is absent after. */
  lemma TrimLacks(s: string, f: Flavor, c: char)
    requires Lacks(s, c)
    ensures Lacks(Trim(s, f), c)
  {
    var t := TrimStart(s, f);
    assert Lacks(t, c);
  }

  /** Python's `str.strip()` without arguments. */
  function PyStrip(s: string): string { Trim(s, Python) }

  /** Text that a Python strip leaves alone: no white space at either end. */
  predicate Stripped(s: string) {
    s == [] || (!IsPySpace(s[0]) && !IsPySpace(s[|s| - 1]))
  }

  /** JavaScript's `String.prototype.trim()`. */
  function JsTrim(s: string): string { Trim(s, JavaScript) }

  /** Python's `str.lower()` and JavaScript's `toLowerCase()` for one character,
      as far as the model needs it: ASCII letters, and the two non-ASCII
      characters whose lower-case form contains an ASCII letter (U+0130 becomes
      "i" followed by U+0307, the Kelvin sign U+212A becomes "k"). */
  function LowerChar(c: char): string {
    if IsAsciiUpper(c) then [(c as int + 32) as char]
    else if c == '\U{130}' then "i\U{307}"
    else if c == '\U{212a}' then "k"
    else [c]
  }

  /** Lower-cases a whole string, one character at a time. */
  function Lower(s: string): string {
    if s == [] then [] else LowerChar(s[0]) + Lower(s[1..])
  }

  lemma LowerAppend(a: string, b: string)
    ensures Lower(a + b) == Lower(a) + Lower(b)
  {
    if a != [] {
      assert (a + b)[0] == a[0];
      assert (a + b)[1..] == a[1..] + b;
      LowerAppend(a[1..], b);
      calc {
        Lower(a + b);
        LowerChar(a[0]) + Lower(a[1..] + b);
        LowerChar(a[0]) + (Lower(a[1..]) + Lower(b));
        (LowerChar(a[0]) + Lower(a[1..])) + Lower(b);
      }
    } else {
      assert a + b == b;
    }
  }

  lemma LowerCons(c: char, s: string)
    ensures Lower([c] + s) == LowerChar(c) + Lower(s)
  {
    assert ([c] + s)[0] == c;
    assert ([c] + s)[1..] == s;
  }

  predicate NoAsciiUpper(s: string) { forall i :: 0 <= i < |s| ==> !IsAsciiUpper(s[i]) && s[i] != '\U{130}' && s[i] != '\U{212a}' }

  /** A string without upper-case characters is its own lower-case form. */
  lemma {:induction false} LowerOfLower(s: string)
    requires NoAsciiUpper(s)
    ensures Lower(s) == s
  {
    if s != [] {
      LowerOfLower(s[1..]);
    }
  }

  /** The lower-cased string contains no upper-case character. */
  lemma {:induction false} LowerHasNoUpper(s: string)
    ensures NoAsciiUpper(Lower(s))
  {
    if s != [] {
      LowerHasNoUpper(s[1..]);
      var h := LowerChar(s[0]);
      assert NoAsciiUpper(h);
      assert Lower(s) == h + Lower(s[1..]);
    }
  }

  /** Lower-casing twice is lower-casing once. */
  lemma LowerIdempotent(s: string)
    ensures Lower(Lower(s)) == Lower(s)
  {
    LowerHasNoUpper(s);
    LowerOfLower(Lower(s));
  }

  /** On ASCII text, lower-casing keeps the length and maps every character on its own. */
  lemma {:induction false} LowerAscii(s: string)
    requires forall i :: 0 <= i < |s| ==> s[i] as int < 128
    ensures |Lower(s)| == |s|
    ensures forall i :: 0 <= i < |s| ==> Lower(s)[i] == LowerChar(s[i])[0]
  {
    if s != [] {
      LowerAscii(s[1..]);
      assert Lower(s) == LowerChar(s[0]) + Lower(s[1..]);
    }
  }

  /** `c` does not occur in `s`. */
  predicate Lacks(s: string, c: char) {
    forall i :: 0 <= i < |s| ==> s[i] != c
  }

  predicate StartsWith(s: string, prefix: string) {
    |prefix| <= |s| && s[..|prefix|] == prefix
  }

  /** `sub` occurs somewhere in `s` (Python's `sub in s`, JavaScript's `s.includes(sub)`). */
  predicate IsSubstring(sub: string, s: string) {
    StartsWith(s, sub) || (s != [] && IsSubstring(sub, s[1..]))
  }

  /** Python's `sep.join(parts)` and JavaScript's `parts.join(sep)`. */
  function Join(parts: seq<string>, sep: string): string {
    if |parts| == 0 then ""
    else if |parts| == 1 then parts[0]
    else parts[0] + sep + Join(parts[1..], sep)
  }

  /** Python's `s.split(sep)` and JavaScript's `s.split(sep)` for a one-character separator. */
  function Split(s: string, sep: char): (parts: seq<string>)
    ensures |parts| >= 1
    ensures forall i :: 0 <= i < |parts| ==> sep !in parts[i]
  {
    if s == [] then [""]
    else
      var rest := Split(s[1..], sep);
      if s[0] == sep then [""] + rest
      else [[s[0]] + rest[0]] + rest[1..]
  }

  /** Joining the pieces of a split with the separator gives back the original string. */
  lemma {:induction false} JoinSplit(s: string, sep: char)
    ensures Join(Split(s, sep), [sep]) == s
  {
    if s != [] {
      var rest := Split(s[1..], sep);
      JoinSplit(s[1..], sep);
      if s[0] == sep {
        assert ([""] + rest)[1..] == rest;
      } else {
        var parts := [[s[0]] + rest[0]] + rest[1..];
        if |rest| == 1 {
          assert Join(parts, [sep]) == [s[0]] + rest[0];
        } else {
          assert parts[1..] == rest[1..];
          assert Join(parts, [sep]) == [s[0]] + rest[0] + [sep] + Join(rest[1..], [sep]);
        }
      }
    }
  }

  function DigitChar(d: nat): char
    requires d < 10
  {
    ('0' as int + d) as char
  }

  /** Python's `str(n)` and JavaScript's `String(n)` for a non-negative integer. */
  function NatToString(n: nat): (r: string)
    ensures |r| >= 1 && forall i :: 0 <= i < |r| ==> IsDigit(r[i])
    ensures r[0] == '0' ==> n == 0
  {
    if n < 10 then [DigitChar(n)] else NatToString(n / 10) + [DigitChar(n % 10)]
  }

  /** Python's `str(n)` and JavaScript's `String(n)` for an integer. */
  function IntToString(n: int): string {
    if n < 0 then "-" + NatToString(-n) else NatToString(n)
  }

  /** The value of a string of ASCII digits, most significant first. */
  function DigitsValue(s: string): nat
    requires forall i :: 0 <= i < |s| ==> IsDigit(s[i])
  {
    if s == [] then 0
    else
      assert IsDigit(s[|s| - 1]);
      DigitsValue(s[..|s| - 1]) * 10 + (s[|s| - 1] as int - '0' as int)
  }

  predicate AllDigits(s: string) { s != [] && forall i :: 0 <= i < |s| ==> IsDigit(s[i]) }

  /** An optional sign followed by one or more ASCII digits. */
  function ParseSigned(t: string): Option<int> {
    if t != [] && (t[0] == '-' || t[0] == '+') && AllDigits(t[1..]) then
      var v: int := DigitsValue(t[1..]);
      Some(if t[0] == '-' then -v else v)
    else if AllDigits(t) then Some(DigitsValue(t))
    else None
  }

  /** Python's `int(text)` for a string: surrounding white space, an optional
      sign and one or more ASCII digits; anything else raises ValueError. */
  function ParseInt(text: string): Option<int> {
    ParseSigned(PyStrip(text))
  }

  lemma {:induction false} DigitsOfNat(n: nat)
    ensures DigitsValue(NatToString(n)) == n
  {
    var r := NatToString(n);
    if n >= 10 {
      DigitsOfNat(n / 10);
      assert r[..|r| - 1] == NatToString(n / 10);
    }
  }

  lemma StripNoSpace(s: string)
    requires forall i :: 0 <= i < |s| ==> !IsPySpace(s[i])
    ensures PyStrip(s) == s
  {
    if s != [] {
      assert !IsPySpace(s[0]) && !IsPySpace(s[|s| - 1]);
    }
    TrimUnspaced(s, Python);
  }

  /** Text without white space or upper-case letters survives `strip().lower()` unchanged. */
  lemma LowerStripPlain(s: string)
    requires NoAsciiUpper(s)
    requires forall i :: 0 <= i < |s| ==> !IsPySpace(s[i])
    ensures Lower(PyStrip(s)) == s
  {
    StripNoSpace(s);
    LowerOfLower(s);
  }

  lemma DigitsAreNotSpace(s: string)
    requires forall i :: 0 <= i < |s| ==> IsDigit(s[i])
    ensures forall i :: 0 <= i < |s| ==> !IsPySpace(s[i])
  {
  }

  lemma ParseNegative(d: string)
    requires AllDigits(d)
    ensures ParseSigned("-" + d) == Some(-(DigitsValue(d) as int))
  {
    assert ("-" + d)[1..] == d;
  }

  lemma SignedNoSpace(d: string)
    requires AllDigits(d)
    ensures forall i :: 0 <= i < |"-" + d| ==> !IsPySpace(("-" + d)[i])
  {
    var s := "-" + d;
    DigitsAreNotSpace(d);
    forall i | 0 <= i < |s|
      ensures !IsPySpace(s[i])
    {
      if i > 0 {
        assert s[i] == d[i - 1];
      }
    }
  }

  lemma ParseNegativeString(m: nat)
    ensures ParseInt("-" + NatToString(m)) == Some(-(m as int))
  {
    var d := NatToString(m);
    DigitsOfNat(m);
    SignedNoSpace(d);
    StripNoSpace("-" + d);
    assert PyStrip("-" + d) == "-" + d;
    ParseNegative(d);
  }

  lemma ParseNatString(n: nat)
    ensures ParseInt(NatToString(n)) == Some(n)
  {
    var d := NatToString(n);
    DigitsOfNat(n);
    DigitsAreNotSpace(d);
    StripNoSpace(d);
  }

  lemma ParseNegativeInt(m: nat)
    requires m > 0
    ensures ParseInt(IntToString(-(m as int))) == Some(-(m as int))
  {
    ParseNegativeString(m);
    assert IntToString(-(m as int)) == "-" + NatToString(m);
  }

  /** Python's `int()` reads back what `str()` writes for every integer. */
  lemma ParseIntToString(n: int)
    ensures ParseInt(IntToString(n)) == Some(n)
  {
    if n < 0 {
      ParseNegativeInt(-n);
    } else {
      ParseNatString(n);
    }
  }

  /** Splitting a text that starts with a separator-free piece and a separator
      yields that piece first. */
  lemma {:induction false} SplitPrefix(a: string, b: string, sep: char)
    requires Lacks(a, sep)
    ensures Split(a + [sep] + b, sep) == [a] + Split(b, sep)
  {
    var s := a + [sep] + b;
    if a == [] {
      assert s[0] == sep && s[1..] == b;
    } else {
      SplitPrefix(a[1..], b, sep);
      assert s[0] == a[0];
      assert s[1..] == a[1..] + [sep] + b;
      var rest := Split(s[1..], sep);
      assert rest[0] == a[1..] && rest[1..] == Split(b, sep);
      assert [s[0]] + rest[0] == a;
    }
  }

  /** A separator-free text splits into itself. */
  lemma {:induction false} SplitNone(a: string, sep: char)
    requires Lacks(a, sep)
    ensures Split(a, sep) == [a]
  {
    if a != [] {
      SplitNone(a[1..], sep);
      assert a == [a[0]] + a[1..];
    }
  }

  /** Joining separator-free pieces and splitting again gives the pieces back. */
  lemma {:induction false} SplitJoin(parts: seq<string>, sep: char)
    requires parts != []
    requires forall i :: 0 <= i < |parts| ==> Lacks(parts[i], sep)
    ensures Split(Join(parts, [sep]), sep) == parts
  {
    if |parts| == 1 {
      SplitNone(parts[0], sep);
    } else {
      SplitJoin(parts[1..], sep);
      SplitPrefix(parts[0], Join(parts[1..], [sep]), sep);
      assert parts == [parts[0]] + parts[1..];
    }
  }

  predicate AllSpace(s: string, f: Flavor) {
    forall i :: 0 <= i < |s| ==> IsSpace(f, s[i])
  }

  lemma {:induction false} TrimStartSpaces(a: string, t: string, f: Flavor)
    requires AllSpace(a, f)
    ensures TrimStart(a + t, f) == TrimStart(t, f)
  {
    if a != [] {
      var s := a + t;
      assert s[0] == a[0];
      assert s[1..] == a[1..] + t;
      assert IsSpace(f, s[0]);
      assert TrimStart(s, f) == TrimStart(s[1..], f);
      TrimStartSpaces(a[1..], t, f);
    } else {
      assert a + t == t;
    }
  }

  lemma {:induction false} TrimEndSpaces(t: string, b: string, f: Flavor)
    requires AllSpace(b, f)
    ensures TrimEnd(t + b, f) == TrimEnd(t, f)
  {
    if b != [] {
      var b' := b[..|b| - 1];
      TrimEndSpaces(t, b', f);
      assert (t + b)[..|t + b| - 1] == t + b';
    } else {
      assert t + b == t;
    }
  }

  /** White space around a trimmed text is what a trim removes. */
  lemma StripPadded(a: string, s: string, b: string, f: Flavor)
    requires AllSpace(a, f) && AllSpace(b, f)
    requires s == [] || (!IsSpace(f, s[0]) && !IsSpace(f, s[|s| - 1]))
    ensures Trim(a + s + b, f) == s
  {
    assert a + s + b == a + (s + b);
    TrimStartSpaces(a, s + b, f);
    if s == [] {
      assert s + b == b + [];
      TrimStartSpaces(b, [], f);
    } else {
      assert TrimStart(s + b, f) == s + b;
      TrimEndSpaces(s, b, f);
      TrimUnspaced(s, f);
    }
  }

  /** Lower-casing keeps a white-space character and maps any other character
      to characters none of which is white space at either end. */
  lemma LowerCharSpace(c: char, f: Flavor)
    ensures IsSpace(f, c) ==> LowerChar(c) == [c]
    ensures !IsSpace(f, c) ==>
      (LowerChar(c) != [] && !IsSpace(f, LowerChar(c)[0]) && !IsSpace(f, LowerChar(c)[|LowerChar(c)| - 1]))
  {
  }

  /** Lower-casing neither makes nor removes white space at the start. */
  lemma {:induction false} TrimStartLower(s: string, f: Flavor)
    ensures TrimStart(Lower(s), f) == Lower(TrimStart(s, f))
  {
    if s != [] {
      var h := LowerChar(s[0]);
      var t := Lower(s[1..]);
      assert Lower(s) == h + t;
      LowerCharSpace(s[0], f);
      if IsSpace(f, s[0]) {
        TrimStartLower(s[1..], f);
        assert TrimStart(s, f) == TrimStart(s[1..], f);
        TrimStartSpaces(h, t, f);
      } else {
        assert TrimStart(s, f) == s;
        assert (h + t)[0] == h[0];
      }
    }
  }

  /** Lower-casing neither makes nor removes white space at the end. */
  lemma {:induction false} TrimEndLower(s: string, f: Flavor)
    ensures TrimEnd(Lower(s), f) == Lower(TrimEnd(s, f))
  {
    if s != [] {
      var init := s[..|s| - 1];
      var c := s[|s| - 1];
      assert s == init + [c];
      LowerAppend(init, [c]);
      LowerCons(c, []);
      var h := LowerChar(c);
      var l := Lower(init) + h;
      assert Lower(s) == l;
      LowerCharSpace(c, f);
      if IsSpace(f, c) {
        TrimEndLower(init, f);
        assert TrimEnd(s, f) == TrimEnd(init, f);
        TrimEndSpaces(Lower(init), h, f);
      } else {
        assert TrimEnd(s, f) == s;
        assert l[|l| - 1] == h[|h| - 1];
      }
    }
  }

  /** Trimming and lower-casing commute. */
  lemma TrimLower(s: string, f: Flavor)
    ensures Trim(Lower(s), f) == Lower(Trim(s, f))
  {
    TrimStartLower(s, f);
    TrimEndLower(TrimStart(s, f), f);
  }
}
