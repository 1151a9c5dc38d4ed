/** ASCII models of the Python string builtins the bot relies on: str.lower,
    str.upper, str.title, str.capitalize, str.isdigit, int(s), int(s, 16),
    str(n), str.split('.') / '.'.join, and the ordering of str values. */
module Text {

  datatype Option<+T> = None | Some(value: T)

  // ---------------------------------------------------------------- case

  predicate IsUpper(c: char) { 'A' <= c <= 'Z' }
  predicate IsLowerLetter(c: char) { 'a' <= c <= 'z' }
  predicate IsLetter(c: char) { IsUpper(c) || IsLowerLetter(c) }

  function LowerChar(c: char): (r: char)
    ensures !IsUpper(r)
    ensures IsUpper(c) || r == c
  {
    if IsUpper(c) then (c as int + 32) as char else c
  }

  function UpperChar(c: char): (r: char)
    ensures !IsLowerLetter(r)
    ensures IsLowerLetter(c) || r == c
    ensures LowerChar(r) == LowerChar(c)
  {
    if IsLowerLetter(c) then (c as int - 32) as char else c
  }

  /** str.lower restricted to ASCII letters. */
  function Lower(s: string): (r: string)
    ensures |r| == |s|
    ensures forall i :: 0 <= i < |r| ==> !IsUpper(r[i])
    ensures forall i :: 0 <= i < |s| && !IsUpper(s[i]) ==> r[i] == s[i]
  {
    if s == [] then [] else [LowerChar(s[0])] + Lower(s[1..])
  }

  /** str.upper restricted to ASCII letters. */
  function Upper(s: string): (r: string)
    ensures |r| == |s|
    ensures forall i :: 0 <= i < |r| ==> !IsLowerLetter(r[i])
    ensures Lower(r) == Lower(s)
  {
    if s == [] then [] else [UpperChar(s[0])] + Upper(s[1..])
  }

  /** Lower-casing twice is lower-casing once: a lower-cased currency name
      is its own key. */
  lemma {:induction false} LowerIdempotent(s: string)
    ensures Lower(Lower(s)) == Lower(s)
  {
    if s != [] {
      LowerIdempotent(s[1..]);
      assert Lower(s)[1..] == Lower(s[1..]);
    }
  }

  /** A string with no upper-case letter is its own lower case. */
  lemma {:induction false} LowerKeepsLower(s: string)
    requires forall i | 0 <= i < |s| :: !IsUpper(s[i])
    ensures Lower(s) == s
  {
    if s != [] {
      LowerKeepsLower(s[1..]);
    }
  }

  /** A string with no lower-case letter is its own upper case. */
  lemma {:induction false} UpperKeepsUpper(s: string)
    requires forall i | 0 <= i < |s| :: !IsLowerLetter(s[i])
    ensures Upper(s) == s
  {
    if s != [] {
      UpperKeepsUpper(s[1..]);
    }
  }

  /** Upper-casing ignores the case the string had: names that differ only
      in case upper-case to the same string. */
  lemma {:induction false} UpperIgnoresCase(a: string, b: string)
    requires Lower(a) == Lower(b)
    ensures Upper(a) == Upper(b)
  {
    if a != [] {
      assert |b| == |a|;
      assert Lower(a)[0] == Lower(b)[0] && Lower(a)[1..] == Lower(b)[1..];
      UpperIgnoresCase(a[1..], b[1..]);
    }
  }

  /** str.title on ASCII: a letter is upper-cased when the character before
      it is not a letter, lower-cased otherwise. */
  function Title(s: string): (r: string)
    ensures |r| == |s|
    ensures Lower(r) == Lower(s)
    ensures |s| > 0 ==> !IsLowerLetter(r[0])
  {
    TitleAfter(s, false)
  }

  function TitleAfter(s: string, afterLetter: bool): (r: string)
    ensures |r| == |s|
    ensures Lower(r) == Lower(s)
    ensures |s| > 0 && !afterLetter ==> !IsLowerLetter(r[0])
    ensures |s| > 0 && afterLetter ==> !IsUpper(r[0])
  {
    if s == [] then []
    else
      var c := if afterLetter then LowerChar(s[0]) else UpperChar(s[0]);
      [c] + TitleAfter(s[1..], IsLetter(s[0]))
  }

  /** str.capitalize on ASCII: first character upper-cased, the rest lower-cased. */
  function Capitalize(s: string): (r: string)
    ensures |r| == |s|
    ensures Lower(r) == Lower(s)
    ensures |s| > 0 ==> !IsLowerLetter(r[0])
    ensures forall i :: 1 <= i < |r| ==> !IsUpper(r[i])
  {
    if s == [] then [] else [UpperChar(s[0])] + Lower(s[1..])
  }

  // ---------------------------------------------------------------- decimal

  predicate IsDigit(c: char) { '0' <= c <= '9' }

  /** str.isdigit on ASCII: non-empty and every character a digit. */
  predicate IsDigits(s: string) {
    |s| > 0 && forall i :: 0 <= i < |s| ==> IsDigit(s[i])
  }

  function DigitChar(d: nat): (c: char)
    requires d < 10
    ensures IsDigit(c) && (c as int) - ('0' as int) == d
  {
    ('0' as int + d) as char
  }

  /** int(s) on a string of ASCII digits (leading zeros allowed). */
  function DecimalValue(s: string): nat
    requires forall i :: 0 <= i < |s| ==> IsDigit(s[i])
  {
    if s == [] then 0
    else
      assert IsDigit(s[|s| - 1]);
      DecimalValue(s[..|s| - 1]) * 10 + ((s[|s| - 1] as int) - ('0' as int))
  }

  /** str(n) for a natural number. */
  function NatToString(n: nat): (r: string)
    ensures IsDigits(r)
    ensures DecimalValue(r) == n
  {
    if n < 10 then [DigitChar(n)]
    else
      var prefix := NatToString(n / 10);
      var r := prefix + [DigitChar(n % 10)];
      assert r[..|r| - 1] == prefix;
      r
  }

  /** str(i) for any integer. */
  function IntToString(i: int): (r: string)
    ensures i >= 0 ==> IsDigits(r) && DecimalValue(r) == i
    ensures i < 0 ==> |r| > 1 && r[0] == '-' && IsDigits(r[1..]) && DecimalValue(r[1..]) == -i
  {
    if i >= 0 then NatToString(i) else "-" + NatToString(-i)
  }

  // ---------------------------------------------------------------- hexadecimal

  predicate IsHexDigit(c: char) {
    IsDigit(c) || 'a' <= c <= 'f' || 'A' <= c <= 'F'
  }

  function HexDigitValue(c: char): (d: nat)
    requires IsHexDigit(c)
    ensures d < 16
  {
    if IsDigit(c) then (c as int) - ('0' as int)
    else if 'a' <= c <= 'f' then (c as int) - ('a' as int) + 10
    else (c as int) - ('A' as int) + 10
  }

  function HexValue(s: string): nat
    requires forall i :: 0 <= i < |s| ==> IsHexDigit(s[i])
  {
    if s == [] then 0
    else HexValue(s[..|s| - 1]) * 16 + HexDigitValue(s[|s| - 1])
  }

  function HexDigitChar(d: nat): (c: char)
    requires d < 16
    ensures IsHexDigit(c) && HexDigitValue(c) == d
  {
    if d < 10 then ('0' as int + d) as char else ('A' as int + d - 10) as char
  }

  /** Upper-case hexadecimal digits of n, as in a "0x3498DB" colour. */
  function ToHex(n: nat): (r: string)
    ensures |r| > 0
    ensures forall i :: 0 <= i < |r| ==> IsHexDigit(r[i])
  {
    if n < 16 then [HexDigitChar(n)] else ToHex(n / 16) + [HexDigitChar(n % 16)]
  }

  /** Appending a digit multiplies by 16 and adds it. */
  lemma HexAppend(s: string, c: char)
    requires forall i :: 0 <= i < |s| ==> IsHexDigit(s[i])
    requires IsHexDigit(c)
    ensures HexValue(s + [c]) == HexValue(s) * 16 + HexDigitValue(c)
  {
    assert (s + [c])[..|s|] == s;
  }

  lemma {:induction false} HexRoundTrip(n: nat)
    ensures HexValue(ToHex(n)) == n
  {
    if n >= 16 {
      HexRoundTrip(n / 16);
      var r := ToHex(n);
      assert r[..|r| - 1] == ToHex(n / 16);
    }
  }

  /** int(s, 16) for an optional "0x"/"0X" prefix followed by hexadecimal
      digits; None where Python raises ValueError. */
  function ParseHex(s: string): (r: Option<nat>)
    ensures r.Some? ==> |s| > 0
  {
    var digits := if |s| >= 2 && s[0] == '0' && (s[1] == 'x' || s[1] == 'X') then s[2..] else s;
    if |digits| > 0 && forall i :: 0 <= i < |digits| ==> IsHexDigit(digits[i])
    then Some(HexValue(digits))
    else None
  }

  /** The value of a run of hex digits grows by one digit at a time. */
  lemma HexStep(s: string, k: nat, v: nat, c: nat)
    requires k < |s| && forall i :: 0 <= i < |s| ==> IsHexDigit(s[i])
    requires v == HexValue(s[..k]) && c == HexDigitValue(s[k])
    ensures HexValue(s[..k + 1]) == v * 16 + c
  {
    HexAppend(s[..k], s[k]);
    assert s[..k] + [s[k]] == s[..k + 1];
  }

  /** int("0x" + digits, 16) is the value of the digits after the prefix. */
  lemma ParseHexPrefixed(s: string)
    requires |s| > 2 && s[0] == '0' && s[1] == 'x'
    requires forall i :: 2 <= i < |s| ==> IsHexDigit(s[i])
    ensures ParseHex(s) == Some(HexValue(s[2..]))
  {
    assert forall i :: 0 <= i < |s[2..]| ==> IsHexDigit(s[2..][i]);
  }

  /** Three more hex digits multiply the value so far by 16 three times. */
  lemma HexThreeSteps(d: string, k: nat, v: nat, a: nat, b: nat, c: nat)
    requires k + 3 <= |d| && forall i :: 0 <= i < |d| ==> IsHexDigit(d[i])
    requires v == HexValue(d[..k])
    requires a == HexDigitValue(d[k]) && b == HexDigitValue(d[k + 1]) && c == HexDigitValue(d[k + 2])
    ensures HexValue(d[..k + 3]) == ((v * 16 + a) * 16 + b) * 16 + c
  {
    HexStep(d, k, v, a);
    HexStep(d, k + 1, v * 16 + a, b);
    HexStep(d, k + 2, (v * 16 + a) * 16 + b, c);
  }

  /** The value of six hex digits, weighted by powers of 16. */
  lemma HexValueSix(d: string, d0: nat, d1: nat, d2: nat, d3: nat, d4: nat, d5: nat)
    requires |d| == 6 && forall i :: 0 <= i < 6 ==> IsHexDigit(d[i])
    requires d0 == HexDigitValue(d[0]) && d1 == HexDigitValue(d[1]) && d2 == HexDigitValue(d[2])
    requires d3 == HexDigitValue(d[3]) && d4 == HexDigitValue(d[4]) && d5 == HexDigitValue(d[5])
    ensures HexValue(d) == ((((d0 * 16 + d1) * 16 + d2) * 16 + d3) * 16 + d4) * 16 + d5
  {
    assert d[..0] == [];
    HexThreeSteps(d, 0, 0, d0, d1, d2);
    HexThreeSteps(d, 3, ((d0 * 16 + d1) * 16 + d2), d3, d4, d5);
    assert d[..6] == d;
  }

  /** int("0x" + six digits, 16): the digits weighted by powers of 16. */
  lemma ParseHexSix(s: string, d0: nat, d1: nat, d2: nat, d3: nat, d4: nat, d5: nat)
    requires |s| == 8 && s[0] == '0' && s[1] == 'x'
    requires forall i :: 2 <= i < 8 ==> IsHexDigit(s[i])
    requires d0 == HexDigitValue(s[2]) && d1 == HexDigitValue(s[3]) && d2 == HexDigitValue(s[4])
    requires d3 == HexDigitValue(s[5]) && d4 == HexDigitValue(s[6]) && d5 == HexDigitValue(s[7])
    ensures ParseHex(s) == Some(((((d0 * 16 + d1) * 16 + d2) * 16 + d3) * 16 + d4) * 16 + d5)
  {
    ParseHexPrefixed(s);
    HexValueSix(s[2..], d0, d1, d2, d3, d4, d5);
  }

  /** Formatting a colour as "0x" + hex digits and parsing it back with
      int(s, 16) gives the colour again. */
  lemma ParseHexRoundTrip(n: nat)
    ensures ParseHex("0x" + ToHex(n)) == Some(n)
  {
    var s := "0x" + ToHex(n);
    assert s[2..] == ToHex(n);
    HexRoundTrip(n);
  }

  // ---------------------------------------------------------------- split / join

  function IndexOf(s: string, c: char): (k: nat)
    requires c in s
    ensures k < |s| && s[k] == c && c !in s[..k]
  {
    if s[0] == c then 0 else 1 + IndexOf(s[1..], c)
  }

  function Join(parts: seq<string>, sep: char): string
    requires |parts| > 0
  {
    if |parts| == 1 then parts[0] else parts[0] + [sep] + Join(parts[1..], sep)
  }

  /** str.split(sep) for a one-character separator: the pieces contain no
      separator and joining them back with it gives the original string. */
  function Split(s: string, sep: char): (parts: seq<string>)
    ensures |parts| > 0
    ensures forall i :: 0 <= i < |parts| ==> sep !in parts[i]
    ensures Join(parts, sep) == s
    decreases |s|
  {
    if sep !in s then [s]
    else
      var k := IndexOf(s, sep);
      var rest := Split(s[k + 1..], sep);
      assert s == s[..k] + [sep] + s[k + 1..];
      [s[..k]] + rest
  }

  /** Splitting at the first separator. */
  lemma SplitAtFirst(a: string, b: string, sep: char)
    requires sep !in a
    ensures Split(a + [sep] + b, sep) == [a] + Split(b, sep)
  {
    var s := a + [sep] + b;
    assert s[|a|] == sep;
    var k := IndexOf(s, sep);
    assert k == |a|;
    assert s[..k] == a && s[k + 1..] == b;
  }

  /** The second part of a + sep + b + sep + c, when a and b hold no
      separator, is b. */
  lemma SplitSecond(a: string, b: string, c: string, sep: char)
    requires sep !in a && sep !in b
    ensures |Split(a + [sep] + (b + [sep] + c), sep)| >= 2
    ensures Split(a + [sep] + (b + [sep] + c), sep)[1] == b
  {
    SplitAtFirst(a, b + [sep] + c, sep);
    SplitAtFirst(b, c, sep);
  }

  /** Splitting a joined list of separator-free parts gives the parts back. */
  lemma {:induction false} SplitOfJoin(parts: seq<string>, sep: char)
    requires |parts| > 0
    requires forall i :: 0 <= i < |parts| ==> sep !in parts[i]
    ensures Split(Join(parts, sep), sep) == parts
    decreases |parts|
  {
    if |parts| > 1 {
      SplitOfJoin(parts[1..], sep);
      SplitAtFirst(parts[0], Join(parts[1..], sep), sep);
      assert parts == [parts[0]] + parts[1..];
    }
  }

  // ---------------------------------------------------------------- ordering

  /** Python's `<` on str: code-point lexicographic order. */
  predicate LexLess(a: string, b: string)
  {
    if a == [] then b != []
    else if b == [] then false
    else if a[0] != b[0] then a[0] < b[0]
    else LexLess(a[1..], b[1..])
  }

  lemma {:induction false} LexIrreflexive(a: string)
    ensures !LexLess(a, a)
  {
    if a != [] { LexIrreflexive(a[1..]); }
  }

  lemma {:induction false} LexAsymmetric(a: string, b: string)
    ensures !(LexLess(a, b) && LexLess(b, a))
  {
    if a != [] && b != [] && a[0] == b[0] { LexAsymmetric(a[1..], b[1..]); }
  }

  lemma {:induction false} LexTotal(a: string, b: string)
    ensures a == b || LexLess(a, b) || LexLess(b, a)
  {
    if a != [] && b != [] && a[0] == b[0] {
      LexTotal(a[1..], b[1..]);
      if a[1..] == b[1..] { assert a == [a[0]] + a[1..] && b == [b[0]] + b[1..]; }
    }
  }

  lemma {:induction false} LexTransitive(a: string, b: string, c: string)
    requires LexLess(a, b) && LexLess(b, c)
    ensures LexLess(a, c)
  {
    if a != [] && a[0] == b[0] && b[0] == c[0] {
      LexTransitive(a[1..], b[1..], c[1..]);
    }
  }
}
