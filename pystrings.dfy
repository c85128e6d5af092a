/**
 * Python `str` behaviour that the scraper relies on: `isspace`/`strip`/`split`,
 * `isdigit`, `in`, `replace`, `join`, `lower`, `int(...)` on a digit string and
 * `str(...)` on an integer.  Whitespace is Python's own set (the code points for
 * which `str.isspace` holds, which is also what `\s` matches in a `str` regex);
 * digits are the ASCII digits.
 */
module PyStrings {

  /** `c.isspace()`: tab to carriage return, the four separators U+001C-U+001F,
      space, NEL, no-break space, and the Unicode space characters. */
  predicate IsSpace(c: char) {
    var n := c as int;
    (9 <= n <= 13) || (0x1C <= n <= 0x1F) || n == 0x20 || n == 0x85 || n == 0xA0 ||
    n == 0x1680 || (0x2000 <= n <= 0x200A) || n == 0x2028 || n == 0x2029 ||
    n == 0x202F || n == 0x205F || n == 0x3000
  }

  predicate IsDigit(c: char) {
    '0' <= c <= '9'
  }

  predicate AllDigits(s: string) {
    forall i :: 0 <= i < |s| ==> IsDigit(s[i])
  }

  /** `s.isdigit()`: non-empty and made of digits only. */
  predicate IsDigitString(s: string) {
    |s| > 0 && AllDigits(s)
  }

  predicate NoSpace(s: string) {
    forall i :: 0 <= i < |s| ==> !IsSpace(s[i])
  }

  /** `s.lstrip()` */
  function TrimLeft(s: string): (t: string)
    ensures |t| <= |s|
    decreases |s|
  {
    if s != [] && IsSpace(s[0]) then TrimLeft(s[1..]) else s
  }

  /** `s.rstrip()` */
  function TrimRight(s: string): (t: string)
    ensures |t| <= |s|
    decreases |s|
  {
    if s != [] && IsSpace(s[|s| - 1]) then TrimRight(s[..|s| - 1]) else s
  }

  /** `s.strip()` */
  function Strip(s: string): (t: string)
    ensures |t| <= |s|
  {
    TrimRight(TrimLeft(s))
  }

  /** lstrip removes exactly the leading whitespace: what is left is a suffix
      that does not start with whitespace, and all that was cut is whitespace. */
  lemma {:induction false} TrimLeftSpec(s: string)
    ensures var t := TrimLeft(s);
      t == s[|s| - |t|..] && (t == [] || !IsSpace(t[0])) &&
      forall i :: 0 <= i < |s| - |t| ==> IsSpace(s[i])
    decreases |s|
  {
    if s != [] && IsSpace(s[0]) {
      TrimLeftSpec(s[1..]);
      var t := TrimLeft(s);
      forall i | 0 <= i < |s| - |t| ensures IsSpace(s[i]) {
        if i > 0 {
          assert s[i] == s[1..][i - 1];
        }
      }
    }
  }

  /** rstrip removes exactly the trailing whitespace. */
  lemma {:induction false} TrimRightSpec(s: string)
    ensures var t := TrimRight(s);
      t == s[..|t|] && (t == [] || !IsSpace(t[|t| - 1])) &&
      forall i :: |t| <= i < |s| ==> IsSpace(s[i])
    decreases |s|
  {
    if s != [] && IsSpace(s[|s| - 1]) {
      TrimRightSpec(s[..|s| - 1]);
      var t := TrimRight(s);
      forall i | |t| <= i < |s| ensures IsSpace(s[i]) {
        if i < |s| - 1 {
          assert s[i] == s[..|s| - 1][i];
        }
      }
    }
  }

  /** strip leaves the slice of `s` after its leading whitespace, with no
      whitespace at either end. */
  lemma StripSpec(s: string)
    ensures var t := Strip(s); var i := |s| - |TrimLeft(s)|;
      i + |t| <= |s| && t == s[i..i + |t|] &&
      (t == [] || (!IsSpace(t[0]) && !IsSpace(t[|t| - 1])))
  {
    TrimLeftSpec(s);
    var l := TrimLeft(s);
    TrimRightSpec(l);
    var t := TrimRight(l);
    var i := |s| - |l|;
    assert t == s[i..i + |t|];
    if t != [] {
      assert t[0] == l[0];
    }
  }

  /** Length of the run of non-whitespace characters at the start of `s`. */
  function TokenLength(s: string): (n: nat)
    ensures n <= |s|
    ensures NoSpace(s[..n])
    ensures n == |s| || IsSpace(s[n])
    decreases |s|
  {
    if s == [] || IsSpace(s[0]) then 0
    else
      var m := TokenLength(s[1..]);
      assert s[1..][..m] == s[1..m + 1];
      1 + m
  }

  /** `s.split()`: the maximal runs of non-whitespace characters, in order. */
  function Words(s: string): (ws: seq<string>)
    ensures forall i :: 0 <= i < |ws| ==> ws[i] != [] && NoSpace(ws[i])
    decreases |s|
  {
    var t := TrimLeft(s);
    if t == [] then []
    else
      TrimLeftSpec(s);
      var n := TokenLength(t);
      [t[..n]] + Words(t[n..])
  }

  /** A single token splits into itself. */
  lemma WordsOfToken(w: string)
    requires w != [] && NoSpace(w)
    ensures Words(w) == [w]
  {
    assert TrimLeft(w) == w;
    assert TokenLength(w) == |w| by {
      TokenLengthOfToken(w);
    }
    assert w[..|w|] == w;
    assert w[|w|..] == [];
    assert Words([]) == [];
  }

  lemma {:induction false} TokenLengthOfToken(w: string)
    requires NoSpace(w)
    ensures TokenLength(w) == |w|
    decreases |w|
  {
    if w != [] {
      TokenLengthOfToken(w[1..]);
    }
  }

  /** `"".join(parts)` */
  function Concat(parts: seq<string>): (s: string)
    ensures parts == [] ==> s == []
  {
    if parts == [] then [] else Concat(parts[..|parts| - 1]) + parts[|parts| - 1]
  }

  /** `sep.join(parts)` */
  function Join(sep: string, parts: seq<string>): string {
    if parts == [] then []
    else if |parts| == 1 then parts[0]
    else Join(sep, parts[..|parts| - 1]) + sep + parts[|parts| - 1]
  }

  /** `s.replace(c, sub)` for a one-character pattern. */
  function ReplaceChar(s: string, c: char, sub: string): (r: string)
    ensures |sub| == 1 ==> |r| == |s|
  {
    if s == [] then []
    else ReplaceChar(s[..|s| - 1], c, sub) + (if s[|s| - 1] == c then sub else [s[|s| - 1]])
  }

  /** Every character of the result is a kept character of `s` or one of `sub`. */
  lemma {:induction false} ReplaceCharChars(s: string, c: char, sub: string)
    ensures forall x :: x in ReplaceChar(s, c, sub) ==> (x in s && x != c) || x in sub
  {
    if s != [] {
      ReplaceCharChars(s[..|s| - 1], c, sub);
      forall x | x in s[..|s| - 1] ensures x in s {
        var k :| 0 <= k < |s| - 1 && s[k] == x;
        assert s[k] == x;
      }
    }
  }

  predicate SubstringAt(s: string, t: string, i: nat) {
    i + |t| <= |s| && s[i..i + |t|] == t
  }

  /** `t in s`, as a scan from position `i`. */
  function ContainsFrom(s: string, t: string, i: nat): (b: bool)
    requires i <= |s|
    ensures b <==> exists j :: i <= j && SubstringAt(s, t, j)
    decreases |s| - i
  {
    if SubstringAt(s, t, i) then true
    else if i + |t| >= |s| then
      assert forall j :: i <= j && SubstringAt(s, t, j) ==> j == i;
      false
    else ContainsFrom(s, t, i + 1)
  }

  /** `t in s` */
  function Contains(s: string, t: string): (b: bool)
    ensures b <==> exists j :: SubstringAt(s, t, j)
  {
    ContainsFrom(s, t, 0)
  }

  /** `s.lower()` on ASCII letters. */
  function LowerAscii(s: string): (r: string)
    ensures |r| == |s|
  {
    if s == [] then []
    else
      var c := s[|s| - 1];
      LowerAscii(s[..|s| - 1]) + [if 'A' <= c <= 'Z' then (c as int + 32) as char else c]
  }

  function DigitValue(c: char): nat
    requires IsDigit(c)
  {
    c as int - '0' as int
  }

  function DigitChar(d: nat): (c: char)
    requires d < 10
    ensures IsDigit(c) && DigitValue(c) == d
  {
    ('0' as int + d) as char
  }

  /** `int(s)` for a string of ASCII digits. */
  function DigitsValue(s: string): nat
    requires AllDigits(s)
  {
    if s == [] then 0 else DigitsValue(s[..|s| - 1]) * 10 + DigitValue(s[|s| - 1])
  }

  /** `str(n)` for a natural number: no leading zeros. */
  function NatToString(n: nat): (s: string)
    ensures IsDigitString(s)
    ensures s[0] == '0' ==> n == 0
  {
    if n < 10 then [DigitChar(n)] else NatToString(n / 10) + [DigitChar(n % 10)]
  }

  /** `str(i)` for any integer. */
  function IntToString(i: int): (s: string)
    ensures s != []
  {
    if i < 0 then "-" + NatToString(-i) else NatToString(i)
  }

  /** `int(str(n)) == n` */
  lemma {:induction false} DigitsValueOfNatToString(n: nat)
    ensures DigitsValue(NatToString(n)) == n
  {
    if n >= 10 {
      DigitsValueOfNatToString(n / 10);
      var s := NatToString(n);
      assert s[..|s| - 1] == NatToString(n / 10);
    }
  }
}
