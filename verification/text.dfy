/** String primitives the Go standard library provides to the source:
    decimal formatting (`%d`), `strings.TrimSpace`, `strings.ToLower`,
    `strings.Title`, `strings.HasPrefix`/`TrimPrefix`, byte-wise string
    ordering (`<` on Go strings) and slice reversal. Only the ASCII part of
    the Unicode tables is modelled. */
module Text {

  // ---------------------------------------------------------------- digits

  predicate IsDigit(c: char) { '0' <= c <= '9' }

  function DigitChar(d: nat): (c: char)
    requires d < 10
    ensures IsDigit(c) && c as int - '0' as int == d
  {
    ['0', '1', '2', '3', '4', '5', '6', '7', '8', '9'][d]
  }

  /** Decimal digits of a natural number, most significant first, no leading zero. */
  function NatToString(n: nat): (s: string)
    ensures |s| >= 1
    ensures forall i :: 0 <= i < |s| ==> IsDigit(s[i])
    ensures n < 10 <==> |s| == 1
    decreases n
  {
    if n < 10 then [DigitChar(n)] else NatToString(n / 10) + [DigitChar(n % 10)]
  }

  /** The value of a string of decimal digits. */
  function DigitsValue(s: string): nat
    requires forall i :: 0 <= i < |s| ==> IsDigit(s[i])
  {
    if s == [] then 0
    else
      var last := s[|s| - 1];
      assert IsDigit(last);
      DigitsValue(s[..|s| - 1]) * 10 + (last as int - '0' as int)
  }

  lemma {:induction false} NatToStringValue(n: nat)
    ensures DigitsValue(NatToString(n)) == n
    decreases n
  {
    if n >= 10 {
      NatToStringValue(n / 10);
      var s := NatToString(n);
      assert s[..|s| - 1] == NatToString(n / 10);
    }
  }

  function Pow10(k: nat): (p: nat)
    ensures p >= 1
  {
    if k == 0 then 1 else 10 * Pow10(k - 1)
  }

  /** A number below 10^w has at most w digits. */
  lemma {:induction false} NatToStringLength(n: nat, w: nat)
    requires 1 <= w && n < Pow10(w)
    ensures |NatToString(n)| <= w
    decreases w
  {
    if n >= 10 {
      NatToStringLength(n / 10, w - 1);
    }
  }

  /** Go's `%d`: a minus sign for negative values, then the digits of the magnitude. */
  function IntToString(n: int): (s: string)
    ensures n >= 0 ==> s == NatToString(n)
    ensures n < 0 ==> s == "-" + NatToString(-n)
  {
    if n < 0 then "-" + NatToString(-n) else NatToString(n)
  }

  /** Digits of `n`, left-padded with '0' to at least `width` characters
      (Go's internal appendInt used by time formatting). */
  function PadNat(n: nat, width: nat): (s: string)
    ensures |s| == if |NatToString(n)| < width then width else |NatToString(n)|
    ensures forall i :: 0 <= i < |s| ==> IsDigit(s[i])
  {
    var d := NatToString(n);
    if |d| < width then seq(width - |d|, _ => '0') + d else d
  }

  lemma {:induction false} LeadingZerosValue(z: nat, d: string, s: string)
    requires forall i :: 0 <= i < |d| ==> IsDigit(d[i])
    requires s == seq(z, _ => '0') + d
    ensures forall i :: 0 <= i < |s| ==> IsDigit(s[i])
    ensures DigitsValue(s) == DigitsValue(d)
    decreases |d|
  {
    if d == [] {
      assert s == seq(z, _ => '0');
      ZerosValue(z);
    } else {
      LeadingZerosValue(z, d[..|d| - 1], s[..|s| - 1]);
    }
  }

  lemma {:induction false} ZerosValue(z: nat)
    ensures DigitsValue(seq(z, _ => '0')) == 0
  {
    if z > 0 {
      ZerosValue(z - 1);
      assert seq(z, _ => '0')[..z - 1] == seq(z - 1, _ => '0');
    }
  }

  lemma PadNatValue(n: nat, width: nat)
    ensures DigitsValue(PadNat(n, width)) == n
  {
    var d := NatToString(n);
    NatToStringValue(n);
    if |d| < width {
      LeadingZerosValue(width - |d|, d, PadNat(n, width));
    }
  }

  // ------------------------------------------------------------ whitespace

  /** The white space that `strings.TrimSpace` removes: the ASCII
      characters tab, line feed, vertical tab, form feed, carriage return
      and space, and the Unicode white space code points U+0085, U+00A0,
      U+1680, U+2000 to U+200A, U+2028, U+2029, U+202F, U+205F and U+3000. */
  predicate IsSpace(c: char) {
    c == ' ' || c == '\t' || c == '\n' || c == '\r' || c == 11 as char || c == 12 as char ||
    c == 0x85 as char || c == 0xA0 as char || c == 0x1680 as char ||
    (0x2000 as char <= c <= 0x200A as char) || c == 0x2028 as char || c == 0x2029 as char ||
    c == 0x202F as char || c == 0x205F as char || c == 0x3000 as char
  }

  function TrimLeft(s: string): (r: string)
    ensures |r| <= |s| && r == s[|s| - |r|..]
    ensures r != [] ==> !IsSpace(r[0])
    ensures forall i :: 0 <= i < |s| - |r| ==> IsSpace(s[i])
  {
    if s != [] && IsSpace(s[0]) then TrimLeft(s[1..]) else s
  }

  function TrimRight(s: string): (r: string)
    ensures |r| <= |s| && r == s[..|r|]
    ensures r != [] ==> !IsSpace(r[|r| - 1])
    ensures forall i :: |r| <= i < |s| ==> IsSpace(s[i])
  {
    if s != [] && IsSpace(s[|s| - 1]) then TrimRight(s[..|s| - 1]) else s
  }

  /** `strings.TrimSpace`: drops leading and trailing white space. */
  function TrimSpace(s: string): string {
    TrimRight(TrimLeft(s))
  }

  lemma TrimSpaceKeepsUnpadded(s: string)
    requires s != [] ==> !IsSpace(s[0]) && !IsSpace(s[|s| - 1])
    ensures TrimSpace(s) == s
  {
  }

  lemma {:induction false} TrimLeftPadded(pre: string, rest: string)
    requires forall i :: 0 <= i < |pre| ==> IsSpace(pre[i])
    requires rest != [] ==> !IsSpace(rest[0])
    ensures TrimLeft(pre + rest) == rest
    decreases |pre|
  {
    if pre == [] {
      assert pre + rest == rest;
    } else {
      assert (pre + rest)[0] == pre[0];
      assert (pre + rest)[1..] == pre[1..] + rest;
      TrimLeftPadded(pre[1..], rest);
    }
  }

  lemma {:induction false} TrimRightPadded(rest: string, post: string)
    requires forall i :: 0 <= i < |post| ==> IsSpace(post[i])
    requires rest != [] ==> !IsSpace(rest[|rest| - 1])
    ensures TrimRight(rest + post) == rest
    decreases |post|
  {
    if post == [] {
      assert rest + post == rest;
    } else {
      var init := post[..|post| - 1];
      assert (rest + post)[|rest + post| - 1] == post[|post| - 1];
      assert (rest + post)[..|rest + post| - 1] == rest + init;
      TrimRightPadded(rest, init);
    }
  }

  /** White space around a text without white space at its ends is exactly
      what `strings.TrimSpace` removes. */
  lemma TrimSpacePadded(pre: string, s: string, post: string)
    requires forall i :: 0 <= i < |pre| ==> IsSpace(pre[i])
    requires forall i :: 0 <= i < |post| ==> IsSpace(post[i])
    requires s != [] ==> !IsSpace(s[0]) && !IsSpace(s[|s| - 1])
    ensures TrimSpace(pre + s + post) == s
  {
    if s == [] {
      var blank := pre + post;
      assert pre + s + post == blank;
      assert forall i :: 0 <= i < |blank| ==> IsSpace(blank[i]) by {
        forall i | 0 <= i < |blank| ensures IsSpace(blank[i]) {
          if i < |pre| { assert blank[i] == pre[i]; } else { assert blank[i] == post[i - |pre|]; }
        }
      }
      TrimLeftPadded(blank, []);
      assert blank + [] == blank;
    } else {
      var rest := s + post;
      assert pre + s + post == pre + rest;
      assert rest[0] == s[0];
      TrimLeftPadded(pre, rest);
      TrimRightPadded(s, post);
    }
  }

  // ------------------------------------------------------------------ case

  predicate IsUpper(c: char) { 'A' <= c <= 'Z' }
  predicate IsLower(c: char) { 'a' <= c <= 'z' }
  predicate IsLetter(c: char) { IsUpper(c) || IsLower(c) }

  function ToLowerChar(c: char): (r: char)
    ensures IsUpper(c) ==> IsLower(r)
    ensures !IsUpper(c) ==> r == c
  {
    if IsUpper(c) then (c as int + 32) as char else c
  }

  function ToUpperChar(c: char): (r: char)
    ensures IsLower(c) ==> IsUpper(r)
    ensures !IsLower(c) ==> r == c
  {
    if IsLower(c) then (c as int - 32) as char else c
  }

  /** `strings.ToLower` on the ASCII letters. */
  function ToLower(s: string): (r: string)
    ensures |r| == |s|
    ensures forall i :: 0 <= i < |s| ==> r[i] == ToLowerChar(s[i])
  {
    seq(|s|, i requires 0 <= i < |s| => ToLowerChar(s[i]))
  }

  /** The word-boundary test of `strings.Title`: an ASCII character
      separates words unless it is a letter, a digit or '_'; any other
      character separates words exactly when it is Unicode white space
      (no white space is a letter or a digit). */
  predicate IsSeparator(c: char) {
    if c as int < 128 then !(IsLetter(c) || IsDigit(c) || c == '_') else IsSpace(c)
  }

  /** `unicode.ToTitle` on the ASCII, Latin-1 and basic Cyrillic letters:
      a-z, à-þ (but not ÷) and ÿ, а-я and ѐ-џ map to their capitals;
      every other character is kept. */
  function ToTitleChar(c: char): (r: char)
    ensures c as int < 128 ==> r == ToUpperChar(c)
    ensures IsUpper(r) ==> IsUpper(c) || IsLower(c)
  {
    var n := c as int;
    if n < 128 then ToUpperChar(c)
    else if 0xE0 <= n <= 0xFE && n != 0xF7 then (n - 0x20) as char
    else if n == 0xFF then 0x178 as char
    else if 0x430 <= n <= 0x44F then (n - 0x20) as char
    else if 0x450 <= n <= 0x45F then (n - 0x50) as char
    else c
  }

  /** `strings.Title` scanning with the previous character `prev`
      (the library starts with a space). */
  function TitleFrom(s: string, prev: char): (r: string)
    ensures |r| == |s|
    ensures s != [] ==> r[0] == (if IsSeparator(prev) then ToTitleChar(s[0]) else s[0])
    ensures forall i :: 0 < i < |s| ==> r[i] == (if IsSeparator(s[i - 1]) then ToTitleChar(s[i]) else s[i])
  {
    if s == [] then []
    else [if IsSeparator(prev) then ToTitleChar(s[0]) else s[0]] + TitleFrom(s[1..], s[0])
  }

  /** `strings.Title`: upper-cases the first letter of every word. */
  function Title(s: string): (r: string)
    ensures |r| == |s|
  {
    TitleFrom(s, ' ')
  }

  // ------------------------------------------------------------- prefixes

  predicate HasPrefix(s: string, p: string) {
    |p| <= |s| && s[..|p|] == p
  }

  /** `strings.TrimPrefix`: removes one leading copy of `p`, if present. */
  function TrimPrefix(s: string, p: string): (r: string)
    ensures HasPrefix(s, p) ==> r == s[|p|..]
    ensures !HasPrefix(s, p) ==> r == s
  {
    if HasPrefix(s, p) then s[|p|..] else s
  }

  /** A path of three parts is its first part followed by the other two. */
  lemma JoinPath(a: string, b: string, c: string)
    ensures a + "/" + b + "/" + c == a + "/" + (b + "/" + c)
  {
  }

  // ------------------------------------------------------------- ordering

  /** Go's `<` on strings: lexicographic order of the UTF-8 bytes, which is
      the lexicographic order of the code points. */
  predicate LexLess(a: string, b: string)
    decreases |a|
  {
    if a == [] then b != []
    else if b == [] then false
    else a[0] < b[0] || (a[0] == b[0] && LexLess(a[1..], b[1..]))
  }

  lemma {:induction false} LexLessIrreflexive(a: string)
    ensures !LexLess(a, a)
    decreases |a|
  {
    if a != [] { LexLessIrreflexive(a[1..]); }
  }

  lemma {:induction false} LexLessTransitive(a: string, b: string, c: string)
    requires LexLess(a, b) && LexLess(b, c)
    ensures LexLess(a, c)
    decreases |a|
  {
    if a != [] && b != [] && c != [] && a[0] == b[0] == c[0] {
      LexLessTransitive(a[1..], b[1..], c[1..]);
    }
  }

  lemma {:induction false} LexLessTotal(a: string, b: string)
    requires a != b
    ensures LexLess(a, b) || LexLess(b, a)
    decreases |a|
  {
    if a != [] && b != [] && a[0] == b[0] {
      assert a == [a[0]] + a[1..] && b == [b[0]] + b[1..];
      LexLessTotal(a[1..], b[1..]);
    }
  }

  // ------------------------------------------------------------- reversal

  function Reversed<T>(s: seq<T>): (r: seq<T>)
    ensures |r| == |s|
  {
    if s == [] then [] else Reversed(s[1..]) + [s[0]]
  }

  lemma {:induction false} ReversedAt<T>(s: seq<T>, k: nat)
    requires k < |s|
    ensures Reversed(s)[k] == s[|s| - 1 - k]
  {
    if k < |s| - 1 { ReversedAt(s[1..], k); }
  }

  lemma ReversedReversed<T>(s: seq<T>)
    ensures Reversed(Reversed(s)) == s
  {
    forall k | 0 <= k < |s| ensures Reversed(Reversed(s))[k] == s[k] {
      ReversedAt(Reversed(s), k);
      ReversedAt(s, |s| - 1 - k);
    }
  }
}
