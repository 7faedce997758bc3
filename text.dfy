/** The pieces of Python's `str` that the address book relies on: `strip()`, `capitalize()`, decimal digits
    and the zero-padded numbers that `strftime` writes. */
module Text {

  /** The characters Python's `str.isspace` accepts, which `str.strip()` removes. */
  predicate IsSpace(c: char)
  {
    ('\U{9}' <= c <= '\U{D}') || ('\U{1C}' <= c <= '\U{20}') || c == '\U{85}' || c == '\U{A0}' ||
    c == '\U{1680}' || ('\U{2000}' <= c <= '\U{200A}') || c == '\U{2028}' || c == '\U{2029}' ||
    c == '\U{202F}' || c == '\U{205F}' || c == '\U{3000}'
  }

  predicate AllSpace(s: string)
  {
    forall i :: 0 <= i < |s| ==> IsSpace(s[i])
  }

  /** `s.lstrip()`: the suffix of `s` left after its leading white space. */
  function TrimStart(s: string): (r: string)
    ensures |r| <= |s| && r == s[|s| - |r|..]
    ensures AllSpace(s[..|s| - |r|])
    ensures r == [] || !IsSpace(r[0])
  {
    if s != [] && IsSpace(s[0]) then
      var r := TrimStart(s[1..]);
      assert s[1..][..|s| - 1 - |r|] == s[1..|s| - |r|];
      r
    else
      s
  }

  /** `s.rstrip()`: the prefix of `s` left after its trailing white space. */
  function TrimEnd(s: string): (r: string)
    ensures |r| <= |s| && r == s[..|r|]
    ensures AllSpace(s[|r|..])
    ensures r == [] || !IsSpace(r[|r| - 1])
  {
    if s != [] && IsSpace(s[|s| - 1]) then
      var r := TrimEnd(s[..|s| - 1]);
      assert s[..|s| - 1][|r|..] + [s[|s| - 1]] == s[|r|..];
      r
    else
      s
  }

  /** `s.strip()`. */
  function Strip(s: string): string
  {
    TrimEnd(TrimStart(s))
  }

  /** Strip keeps exactly the middle of `s`: what it drops on either side is white space, and what it
      keeps neither starts nor ends with white space. */
  lemma StripIsMiddle(s: string) returns (i: nat, j: nat)
    ensures i <= j <= |s| && Strip(s) == s[i..j]
    ensures AllSpace(s[..i]) && AllSpace(s[j..])
    ensures Strip(s) == [] || (!IsSpace(Strip(s)[0]) && !IsSpace(Strip(s)[|Strip(s)| - 1]))
  {
    var t := TrimStart(s);
    var r := TrimEnd(t);
    i := |s| - |t|;
    j := i + |r|;
    assert r == s[i..j];
    assert s[j..] == t[|r|..];
    if r != [] {
      assert r[0] == t[0];
    }
  }

  /** White space around a string does not change what Strip returns. */
  lemma {:induction false} StripIgnoresPadding(p: string, s: string, q: string)
    requires AllSpace(p) && AllSpace(q)
    ensures Strip(p + s + q) == Strip(s)
  {
    assert p + s + q == p + (s + q);
    TrimStartIgnoresPadding(p, s + q);
    assert TrimStart(p + s + q) == TrimStart(s + q);
    TrimStartKeepsPadding(s, q);
    var t := TrimStart(s);
    if t != [] {
      TrimEndIgnoresPadding(t, q);
      assert TrimEnd(TrimStart(s + q)) == TrimEnd(t + q) == TrimEnd(t);
    } else {
      assert TrimStart(s + q) == [];
    }
  }

  lemma {:induction false} TrimStartIgnoresPadding(p: string, s: string)
    requires AllSpace(p)
    ensures TrimStart(p + s) == TrimStart(s)
    decreases |p|
  {
    if p != [] {
      assert (p + s)[1..] == p[1..] + s;
      TrimStartIgnoresPadding(p[1..], s);
    } else {
      assert p + s == s;
    }
  }

  lemma {:induction false} TrimStartKeepsPadding(s: string, q: string)
    requires AllSpace(q)
    ensures TrimStart(s) != [] ==> TrimStart(s + q) == TrimStart(s) + q
    ensures TrimStart(s) == [] ==> TrimStart(s + q) == []
    decreases |s|
  {
    if s == [] {
      TrimStartIgnoresPadding(q, []);
      assert q + [] == q && s + q == q;
    } else if IsSpace(s[0]) {
      assert (s + q)[0] == s[0];
      assert (s + q)[1..] == s[1..] + q;
      TrimStartKeepsPadding(s[1..], q);
    } else {
      assert (s + q)[0] == s[0];
    }
  }

  lemma {:induction false} TrimEndIgnoresPadding(s: string, q: string)
    requires AllSpace(q)
    ensures TrimEnd(s + q) == TrimEnd(s)
    decreases |q|
  {
    if q != [] {
      assert (s + q)[..|s + q| - 1] == s + q[..|q| - 1];
      TrimEndIgnoresPadding(s, q[..|q| - 1]);
    } else {
      assert s + q == s;
    }
  }

  /** Python's `str.upper()` on one character, restricted to ASCII letters. */
  function Upper(c: char): char
  {
    if 'a' <= c <= 'z' then (c as int - 32) as char else c
  }

  /** Python's `str.lower()` on one character, restricted to ASCII letters. */
  function Lower(c: char): char
  {
    if 'A' <= c <= 'Z' then (c as int + 32) as char else c
  }

  /** `s.capitalize()`: the first character upper case, every other character lower case. */
  function Capitalize(s: string): string
  {
    if s == [] then [] else [Upper(s[0])] + LowerAll(s[1..])
  }

  /** `s.lower()`, character by character. */
  function LowerAll(s: string): (r: string)
    ensures |r| == |s| && forall i :: 0 <= i < |s| ==> r[i] == Lower(s[i])
  {
    if s == [] then [] else [Lower(s[0])] + LowerAll(s[1..])
  }

  /** `a` and `b` are the same text up to the case of ASCII letters. */
  predicate SameIgnoringCase(a: string, b: string)
  {
    |a| == |b| && forall i :: 0 <= i < |a| ==> Lower(a[i]) == Lower(b[i])
  }

  /** Capitalize maps two strings to the same text exactly when they differ only in letter case. */
  lemma CapitalizeSameIff(a: string, b: string)
    ensures Capitalize(a) == Capitalize(b) <==> SameIgnoringCase(a, b)
  {
    if Capitalize(a) == Capitalize(b) {
      assert |a| == |Capitalize(a)|;
      if a != [] {
        assert Capitalize(a)[0] == Upper(a[0]) && Capitalize(b)[0] == Upper(b[0]);
        forall i | 1 <= i < |a| ensures Lower(a[i]) == Lower(b[i]) {
          assert Capitalize(a)[i] == Lower(a[i]) && Capitalize(b)[i] == Lower(b[i]);
        }
      }
    }
    if SameIgnoringCase(a, b) && a != [] {
      assert Upper(a[0]) == Upper(b[0]) by {
        assert Lower(a[0]) == Lower(b[0]);
      }
      assert Capitalize(a) == Capitalize(b);
    }
  }

  /** Capitalized text stays capitalized, and changes no character into or out of white space. */
  lemma CapitalizeIdempotent(s: string)
    ensures |Capitalize(s)| == |s|
    ensures forall i :: 0 <= i < |s| ==> (IsSpace(Capitalize(s)[i]) <==> IsSpace(s[i]))
    ensures Capitalize(Capitalize(s)) == Capitalize(s)
  {
    if s != [] {
      var c := Capitalize(s);
      var cc := Capitalize(c);
      assert c[0] == Upper(s[0]) && cc[0] == Upper(c[0]);
      forall i | 1 <= i < |s| ensures c[i] == Lower(s[i]) && cc[i] == Lower(c[i]) {
        assert c[i] == LowerAll(s[1..])[i - 1];
        assert cc[i] == LowerAll(c[1..])[i - 1];
      }
      assert cc == c;
    }
  }

  /** Text that neither starts nor ends with white space is its own Strip. */
  lemma StripTrimmed(s: string)
    requires s == [] || (!IsSpace(s[0]) && !IsSpace(s[|s| - 1]))
    ensures Strip(s) == s
  {
  }

  predicate IsDigit(c: char)
  {
    '0' <= c <= '9'
  }

  predicate AllDigits(s: string)
  {
    forall i :: 0 <= i < |s| ==> IsDigit(s[i])
  }

  /** The regular expression `\d{n}$` matched at the start of `s`, one character at a time. */
  function DigitRun(s: string, n: nat): (r: bool)
    ensures r <==> |s| == n && AllDigits(s)
  {
    if n == 0 then s == []
    else s != [] && IsDigit(s[0]) && DigitRun(s[1..], n - 1)
  }

  function DigitValue(c: char): nat
    requires IsDigit(c)
  {
    c as int - '0' as int
  }

  function DigitChar(n: nat): (c: char)
    requires n < 10
    ensures IsDigit(c) && DigitValue(c) == n
  {
    ('0' as int + n) as char
  }

  /** The number a string of decimal digits denotes, as `int()` reads it. */
  function Number(s: string): nat
    requires AllDigits(s)
  {
    if s == [] then 0 else 10 * Number(s[..|s| - 1]) + DigitValue(s[|s| - 1])
  }

  function Pow10(w: nat): (p: nat)
    ensures p >= 1
  {
    if w == 0 then 1 else 10 * Pow10(w - 1)
  }

  /** The last `w` decimal digits of `n`, with leading zeros, as `%0{w}d` writes them. */
  function Padded(n: nat, w: nat): (s: string)
    ensures |s| == w && AllDigits(s)
  {
    if w == 0 then [] else Padded(n / 10, w - 1) + [DigitChar(n % 10)]
  }

  /** Reading back a padded number gives the number, when it fits in the width. */
  lemma {:induction false} NumberPadded(n: nat, w: nat)
    requires n < Pow10(w)
    ensures Number(Padded(n, w)) == n
  {
    if w > 0 {
      var s := Padded(n, w);
      assert s[..|s| - 1] == Padded(n / 10, w - 1);
      NumberPadded(n / 10, w - 1);
    }
  }

  /** A string of `w` digits denotes a number below 10^w. */
  lemma {:induction false} NumberBound(s: string)
    requires AllDigits(s)
    ensures Number(s) < Pow10(|s|)
  {
    if s != [] {
      NumberBound(s[..|s| - 1]);
    }
  }

  /** Writing a digit string back with its own width gives the same characters. */
  lemma {:induction false} PaddedNumber(s: string)
    requires AllDigits(s)
    ensures Padded(Number(s), |s|) == s
  {
    if s != [] {
      var p := s[..|s| - 1];
      PaddedNumber(p);
      assert (10 * Number(p) + DigitValue(s[|s| - 1])) / 10 == Number(p);
      assert s == p + [s[|s| - 1]];
    }
  }
}
