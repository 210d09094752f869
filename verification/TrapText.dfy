/** The string operations the fault decoder is built from, and the hexadecimal the kernel prints. */
module TrapText {
  import opened Options
  import opened Splits

  const TWO64: nat := 0x1_0000_0000_0000_0000

  /** ASCII white space: space, tab, line feed, form feed, carriage return. */
  predicate AsciiSpace(c: char) {
    c == ' ' || c == '\t' || c == '\n' || c as int == 12 || c == '\r'
  }

  /** What separates the tokens of a key=value line. */
  predicate Separator(c: char) { AsciiSpace(c) || c == ',' || c == ';' }

  /** The Unicode White_Space property. */
  predicate WhiteSpace(c: char) {
    var n := c as int;
    || 9 <= n <= 13 || n == 0x20 || n == 0x85 || n == 0xa0 || n == 0x1680 || 0x2000 <= n <= 0x200a
    || n == 0x2028 || n == 0x2029 || n == 0x202f || n == 0x205f || n == 0x3000
  }

  /** The words of a line, as split at white space. */
  function Words(s: string): seq<string> { NonEmpty(SplitBy(s, WhiteSpace)) }

  function SplitOnce(s: string, c: char): Option<(string, string)> {
    if s == "" then None
    else if s[0] == c then Some(("", s[1..]))
    else
      match SplitOnce(s[1..], c)
      case None => None
      case Some((a, b)) => Some(([s[0]] + a, b))
  }

  lemma {:induction false} SplitOnceAt(a: string, c: char, b: string)
    requires c !in a
    ensures SplitOnce(a + [c] + b, c) == Some((a, b))
  {
    var s := a + [c] + b;
    if a == "" {
      assert s[1..] == b;
    } else {
      SplitOnceAt(a[1..], c, b);
      assert s[1..] == a[1..] + [c] + b;
      assert [a[0]] + a[1..] == a;
    }
  }

  function TrimLeft(s: string): string {
    if s != "" && WhiteSpace(s[0]) then TrimLeft(s[1..]) else s
  }

  function TrimRight(s: string): string {
    if s != "" && WhiteSpace(s[|s| - 1]) then TrimRight(s[..|s| - 1]) else s
  }

  function Trim(s: string): string { TrimRight(TrimLeft(s)) }

  lemma TrimKeeps(s: string)
    requires s == "" || (!WhiteSpace(s[0]) && !WhiteSpace(s[|s| - 1]))
    ensures Trim(s) == s
  {}

  predicate StartsWith(s: string, prefix: string) { prefix <= s }

  predicate Contains(s: string, sub: string) {
    sub <= s || (s != "" && Contains(s[1..], sub))
  }

  predicate SitsAt(s: string, sub: string, i: nat) { i + |sub| <= |s| && s[i..i + |sub|] == sub }

  ghost predicate Anywhere(s: string, sub: string) { exists i: nat :: SitsAt(s, sub, i) }

  /** To contain a text is to have it as a part somewhere. */
  lemma {:induction false} ContainsIff(s: string, sub: string)
    ensures Contains(s, sub) <==> Anywhere(s, sub)
  {
    if sub <= s {
      assert SitsAt(s, sub, 0);
    }
    if s != "" {
      var rest := s[1..];
      ContainsIff(rest, sub);
      if i: nat :| SitsAt(s, sub, i) {
        assert i > 0 ==> SitsAt(rest, sub, i - 1);
      }
      if i: nat :| SitsAt(rest, sub, i) {
        assert SitsAt(s, sub, i + 1);
      }
    }
  }

  lemma {:induction false} ContainsNeedsChars(s: string, sub: string, c: char)
    requires c in sub && c !in s
    ensures !Contains(s, sub)
  {
    if s != "" {
      ContainsNeedsChars(s[1..], sub, c);
    }
  }

  function Without(s: string, c: char): string {
    if s == "" then "" else (if s[0] == c then "" else [s[0]]) + Without(s[1..], c)
  }

  lemma {:induction false} WithoutKeeps(s: string, c: char)
    requires c !in s
    ensures Without(s, c) == s
  {
    if s != "" {
      WithoutKeeps(s[1..], c);
      assert [s[0]] + s[1..] == s;
    }
  }

  // Numbers

  function DigitValue(c: char): int {
    if '0' <= c <= '9' then c as int - '0' as int
    else if 'a' <= c <= 'f' then c as int - 'a' as int + 10
    else if 'A' <= c <= 'F' then c as int - 'A' as int + 10
    else 99
  }

  function DigitsValue(s: string, radix: nat): (r: Option<nat>) {
    if s == "" then Some(0)
    else
      var d := DigitValue(s[|s| - 1]);
      match DigitsValue(s[..|s| - 1], radix)
      case None => None
      case Some(high) => if d < radix then Some(high * radix + d) else None
  }

  /** An optional plus sign, then digits only, below 2^64. */
  function FromStrRadix(s: string, radix: nat): (r: Option<nat>)
    ensures r.Some? ==> r.value < TWO64
  {
    var digits := if s != "" && s[0] == '+' then s[1..] else s;
    if digits == "" then None
    else
      var v := DigitsValue(digits, radix);
      if v.Some? && v.value < TWO64 then v else None
  }

  function ParseU64(s: string): (r: Option<nat>)
    ensures r.Some? ==> r.value < TWO64
  {
    var t := Without(Trim(s), '_');
    if StartsWith(t, "0x") || StartsWith(t, "0X") then FromStrRadix(t[2..], 16) else FromStrRadix(t, 10)
  }

  /** The digits in order, in either case, and nothing else. */
  lemma DigitIs(d: nat, c: char)
    requires d < 16
    ensures DigitValue("0123456789abcdef"[d]) == DigitValue("0123456789ABCDEF"[d]) == d
    ensures DigitValue(c) < 16 ==> c in "0123456789abcdef" || c in "0123456789ABCDEF"
  {
    if DigitValue(c) < 16 {
      var v := DigitValue(c);
      assert c == "0123456789abcdef"[v] || c == "0123456789ABCDEF"[v];
    }
  }

  /** The decimal digits of a number, without leading zeros. */
  function Decimal(v: nat): (s: string)
    ensures s != "" && forall i :: 0 <= i < |s| ==> '0' <= s[i] <= '9'
  {
    if v < 10 then [HexDigit(v)] else Decimal(v / 10) + [HexDigit(v % 10)]
  }

  lemma {:induction false} DecimalValue(v: nat)
    ensures DigitsValue(Decimal(v), 10) == Some(v)
  {
    if v < 10 {
      assert Decimal(v)[..0] == "";
    } else {
      DecimalValue(v / 10);
      assert Decimal(v)[..|Decimal(v)| - 1] == Decimal(v / 10);
    }
  }

  /** Every 64-bit number in decimal parses back, and so does any of its spellings in hexadecimal with either
      prefix; a larger number does not parse. */
  lemma DecimalParses(v: nat)
    ensures ParseU64(Decimal(v)) == if v < TWO64 then Some(v) else None
  {
    hide Trim, Without, DigitsValue;
    var s := Decimal(v);
    TrimKeeps(s);
    WithoutKeeps(s, '_');
    DecimalValue(v);
    assert !StartsWith(s, "0x") && !StartsWith(s, "0X") by {
      assert "0x"[1] == 'x' && "0X"[1] == 'X';
    }
  }

  /** White space around a number does not matter. */
  lemma Surrounded(left: string, s: string, right: string)
    requires s != "" && !WhiteSpace(s[0]) && !WhiteSpace(s[|s| - 1])
    requires (forall i :: 0 <= i < |left| ==> WhiteSpace(left[i])) && forall i :: 0 <= i < |right| ==> WhiteSpace(right[i])
    ensures ParseU64(left + s + right) == ParseU64(s)
  {
    hide WhiteSpace, TrimLeft, TrimRight, Without, FromStrRadix;
    TrimsLeft(left, s + right);
    assert left + s + right == left + (s + right);
    TrimsRight(s, right);
    TrimKeeps(s);
  }

  lemma {:induction false} TrimsLeft(left: string, s: string)
    requires s != "" && !WhiteSpace(s[0]) && forall i :: 0 <= i < |left| ==> WhiteSpace(left[i])
    ensures TrimLeft(left + s) == s
  {
    hide WhiteSpace;
    if left == "" {
      assert left + s == s;
    } else {
      TrimsLeft(left[1..], s);
      assert (left + s)[1..] == left[1..] + s;
    }
  }

  lemma {:induction false} TrimsRight(s: string, right: string)
    requires s != "" && !WhiteSpace(s[|s| - 1]) && forall i :: 0 <= i < |right| ==> WhiteSpace(right[i])
    ensures TrimRight(s + right) == s
    decreases |right|
  {
    hide WhiteSpace;
    if right == "" {
      assert s + right == s;
    } else {
      var less := right[..|right| - 1];
      TrimsRight(s, less);
      assert (s + right)[..|s + right| - 1] == s + less;
    }
  }

  /** Nor does an underscore inside one. */
  lemma Grouped(a: string, b: string)
    requires a != "" && b != "" && !WhiteSpace(a[0]) && !WhiteSpace(b[|b| - 1])
    ensures ParseU64(a + "_" + b) == ParseU64(a + b)
  {
    hide WhiteSpace, Trim, Without, FromStrRadix;
    TrimKeeps(a + "_" + b);
    TrimKeeps(a + b);
    Dropped(a, '_', b);
  }

  lemma {:induction false} Dropped(a: string, c: char, b: string)
    ensures Without(a + [c] + b, c) == Without(a + b, c)
  {
    var s, t := a + [c] + b, a + b;
    if a == "" {
      assert s[1..] == b && t == b;
    } else {
      Dropped(a[1..], c, b);
      assert s[1..] == a[1..] + [c] + b && t[1..] == a[1..] + b;
    }
  }

  lemma HexParses(digits: string)
    requires digits != "" && forall i :: 0 <= i < |digits| ==> DigitValue(digits[i]) < 16
    ensures var v := DigitsValue(digits, 16);
            v.Some? && ParseU64("0x" + digits) == ParseU64("0X" + digits) == if v.value < TWO64 then v else None
  {
    hide ParseU64, DigitsValue, DigitValue;
    AllDigits(digits);
    Marked('x', digits);
    Marked('X', digits);
    assert "0x" == ['0', 'x'] && "0X" == ['0', 'X'];
    NoSign(digits);
  }

  lemma NoSign(digits: string)
    requires digits != "" && DigitValue(digits[0]) < 16
    ensures digits[0] != '+'
  {}

  lemma Marked(x: char, digits: string)
    requires (x == 'x' || x == 'X') && forall i :: 0 <= i < |digits| ==> DigitValue(digits[i]) < 16
    ensures ParseU64(['0', x] + digits) == FromStrRadix(digits, 16)
  {
    hide Trim, Without, FromStrRadix;
    var s := ['0', x] + digits;
    forall i | 0 <= i < |s| ensures !WhiteSpace(s[i]) && s[i] != '_' {
      assert i >= 2 ==> s[i] == digits[i - 2];
    }
    TrimKeeps(s);
    WithoutKeeps(s, '_');
    assert "0x" == ['0', 'x'] && "0X" == ['0', 'X'];
    assert s[..2] == ['0', x] && s[2..] == digits;
  }

  lemma {:induction false} AllDigits(s: string)
    requires forall i :: 0 <= i < |s| ==> DigitValue(s[i]) < 16
    ensures DigitsValue(s, 16).Some?
  {
    if s != "" {
      AllDigits(s[..|s| - 1]);
    }
  }

  function HexDigit(d: nat): (c: char)
    requires d < 16
    ensures DigitValue(c) == d
    ensures '0' <= c <= '9' || 'a' <= c <= 'f'
  {
    if d < 10 then ('0' as int + d) as char else ('a' as int + d - 10) as char
  }

  predicate HexChar(c: char) { '0' <= c <= '9' || 'a' <= c <= 'f' }

  /** The `n` low hexadecimal digits of `v`, most significant first. */
  function Hex(v: nat, n: nat): (s: string)
    ensures |s| == n
    ensures forall i :: 0 <= i < n ==> HexChar(s[i])
    decreases n
  {
    if n == 0 then "" else Hex(v / 16, n - 1) + [HexDigit(v % 16)]
  }

  function Pow16(n: nat): (p: nat)
    ensures p > 0
  {
    if n == 0 then 1 else 16 * Pow16(n - 1)
  }

  lemma Pow16Is()
    ensures Pow16(16) == TWO64
  {
    assert Pow16(4) == 0x1_0000;
    assert Pow16(8) == 0x1_0000_0000;
    assert Pow16(12) == 0x1_0000_0000_0000;
  }

  lemma {:induction false} HexValue(v: nat, n: nat)
    requires v < Pow16(n)
    ensures DigitsValue(Hex(v, n), 16) == Some(v)
  {
    if n > 0 {
      HexValue(v / 16, n - 1);
      assert Hex(v, n)[..n - 1] == Hex(v / 16, n - 1);
    }
  }

  /** What the kernel prints for a machine word. */
  function Word(v: nat): (s: string)
    ensures |s| == 18
    ensures forall i :: 0 <= i < 18 ==> HexChar(s[i]) || s[i] == 'x'
  {
    "0x" + Hex(v, 16)
  }

  lemma WordParses(v: nat)
    requires v < TWO64
    ensures ParseU64(Word(v)) == Some(v)
  {
    hide Hex, Trim, Without, Pow16, DigitsValue;
    var s := Word(v);
    TrimKeeps(s);
    WithoutKeeps(s, '_');
    Pow16Is();
    HexValue(v, 16);
    assert s[2..] == Hex(v, 16);
    assert s[..2] == "0x";
  }
}
