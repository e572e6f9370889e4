/** Integers as text: the printer of tinyprintf.c and the parser of strntoumax.c. */
module Numbers {
  import opened Common

  const UINT: nat := 0x1_0000_0000               // 2^32, unsigned int
  const UINTMAX: nat := 0x1_0000_0000_0000_0000  // 2^64, uintmax_t

  // ---------------------------------------------------------------- digits

  /** dgt + (dgt < 10 ? '0' : (uc ? 'A' : 'a') - 10) */
  function DigitChar(d: nat, upper: bool): char
    requires d < 16
  {
    if d < 10 then ('0' as int + d) as char
    else if upper then ('A' as int + d - 10) as char
    else ('a' as int + d - 10) as char
  }

  /** digitval */
  function DigitVal(c: char): (d: int)
    ensures -1 <= d < 36
  {
    if '0' <= c <= '9' then c as int - '0' as int
    else if 'A' <= c <= 'Z' then c as int - 'A' as int + 10
    else if 'a' <= c <= 'z' then c as int - 'a' as int + 10
    else -1
  }

  /** The printer's digits are the parser's. */
  lemma DigitsAgree(d: nat, upper: bool)
    requires d < 16
    ensures DigitVal(DigitChar(d, upper)) == d && (DigitChar(d, upper) == '0' <==> d == 0)
    ensures DigitChar(d, upper) !in {' ', '\t', '\n', '\r', '-', '+', 'x', 'X'} && DigitChar(d, upper) as int > 32
    ensures var c := DigitChar(d, upper); '0' <= c <= '9' || (if upper then 'A' <= c <= 'F' else 'a' <= c <= 'f')
  {
  }

  /** The 36 digits of the parser, letters of either case, and nothing else. */
  lemma DigitValues(d: nat, c: char)
    requires d < 36
    ensures d < 10 ==> DigitVal(('0' as int + d) as char) == d
    ensures d >= 10 ==> DigitVal(('a' as int + d - 10) as char) == d && DigitVal(('A' as int + d - 10) as char) == d
    ensures DigitVal(c) < 0 <==> !('0' <= c <= '9' || 'a' <= c <= 'z' || 'A' <= c <= 'Z')
  {
  }

  /** Letters are upper case exactly when asked for. */
  ghost predicate InCase(s: string, upper: bool) {
    forall i :: 0 <= i < |s| ==> '0' <= s[i] <= '9' || (if upper then 'A' <= s[i] <= 'F' else 'a' <= s[i] <= 'f')
  }

  lemma InCaseSnoc(s: string, d: nat, upper: bool)
    requires InCase(s, upper) && d < 16
    ensures InCase(s + [DigitChar(d, upper)], upper)
  {
    DigitsAgree(d, upper);
    hide DigitChar;
  }

  /** All characters of s are digits of the base. */
  ghost predicate AllDigits(s: string, base: nat) {
    forall i :: 0 <= i < |s| ==> 0 <= DigitVal(s[i]) < base
  }

  /** The number a string of digits stands for. */
  function Value(s: string, base: nat): int {
    if s == "" then 0 else Value(s[..|s| - 1], base) * base + DigitVal(s[|s| - 1])
  }

  lemma {:induction false} ValueSnoc(s: string, c: char, base: nat)
    ensures Value(s + [c], base) == Value(s, base) * base + DigitVal(c)
  {
    assert (s + [c])[..|s|] == s;
  }

  function Pow(base: nat, k: nat): nat {
    if k == 0 then 1 else Pow(base, k - 1) * base
  }

  /** The text of n: its digits, the first not zero unless it is the only one. */
  ghost predicate Canonical(s: string, n: nat, base: nat) {
    s != "" && AllDigits(s, base) && Value(s, base) == n && (s[0] == '0' ==> |s| == 1)
  }

  /** A leading digit other than zero makes the number at least a power of the base. */
  lemma {:induction false} ValueAtLeast(s: string, base: nat)
    requires s != "" && AllDigits(s, base) && DigitVal(s[0]) > 0
    ensures Value(s, base) >= Pow(base, |s| - 1)
    decreases |s|
  {
    hide DigitVal;
    if |s| > 1 {
      var t := s[..|s| - 1];
      assert t[0] == s[0];
      ValueAtLeast(t, base);
      MulMono(Pow(base, |t| - 1), Value(t, base), base);
      assert DigitVal(s[|s| - 1]) >= 0;
    } else {
      assert s[..0] == "";
    }
  }

  lemma {:induction false} PowBase(base: nat, k: nat)
    requires base >= 8
    ensures Pow(8, k) <= Pow(base, k)
    decreases k
  {
    if k > 0 {
      PowBase(base, k - 1);
      MulMono(Pow(8, k - 1), Pow(base, k - 1), 8);
      MulMono(8, base, Pow(base, k - 1));
    }
  }

  lemma {:induction false} PowGrows(k: nat, m: nat)
    ensures k <= m ==> Pow(8, k) <= Pow(8, m)
    decreases m
  {
    if k < m {
      PowGrows(k, m - 1);
    }
  }

  /** Octal, decimal and hexadecimal text of a 32-bit number, with its terminator, fits 12 bytes. */
  lemma {:induction false} FitsBuffer(s: string, n: nat, base: nat)
    requires base >= 8 && Canonical(s, n, base) && n < UINT
    ensures |s| + 1 <= 12
  {
    if |s| > 1 {
      assert DigitVal(s[0]) > 0;
      ValueAtLeast(s, base);
      PowBase(base, |s| - 1);
      PowGrows(11, |s| - 1);
      assert Pow(8, 3) == 512;
      assert Pow(8, 6) == 0x4_0000;
      assert Pow(8, 9) == 0x800_0000;
      assert Pow(8, 11) == 0x2_0000_0000;
    }
  }

  // ---------------------------------------------------------------- ui2a

  lemma {:induction false} DivMul(n: nat, d: nat)
    requires d > 0
    ensures n == d * (n / d) + n % d && n % d < d
  {
  }

  /** Scaling up: d stays at most n while the quotient has more than one digit. */
  lemma {:induction false} ScaleUp(n: nat, d: nat, base: nat)
    requires d > 0 && base >= 2 && n / d >= base
    ensures d < d * base <= n
  {
    DivMul(n, d);
    MulMono(base, n / d, d);
    MulMono(2, base, d);
  }

  /** The printing loop: the text so far, scaled, and what is left make up n. */
  ghost predicate Printing(s: string, n: nat, base: nat, num: nat, d: nat, k: nat) {
    && AllDigits(s, base)
    && (if d == 0 then s != "" && Value(s, base) == n
        else d == Pow(base, k) && Value(s, base) * (d * base) + num == n && num < d * base)
    && (if s == "" then d != 0 && (k > 0 ==> d <= num) else s[0] == '0' ==> d == 0 && |s| == 1)
  }

  /** Digit g of weight d is split off num, leaving rest. */
  ghost predicate Digit(num: nat, d: nat, base: nat, g: nat, rest: nat) {
    num == d * g + rest && rest < d && g < base
  }

  /** d', the weight after d == base^k, or zero after the last. */
  ghost predicate NextWeight(base: nat, k: nat, d: nat, d': nat) {
    d' < d && if k > 0 then d' == Pow(base, k - 1) && d == d' * base else d' == 0
  }

  /** One round: digit g of weight d, leaving num'; d' is the next weight. */
  lemma {:induction false} PrintStep(s: string, n: nat, base: nat, num: nat, d: nat, k: nat, g: nat, num': nat,
                                     d': nat, upper: bool)
    requires 2 <= base <= 16 && d != 0 && Printing(s, n, base, num, d, k)
    requires Digit(num, d, base, g, num') && NextWeight(base, k, d, d')
    ensures g < base && (s != "" || g > 0 || d' == 0)
    ensures Printing(s + [DigitChar(g, upper)], n, base, num', d', if k > 0 then k - 1 else 0)
  {
    var v, c, k' := Value(s, base), DigitChar(g, upper), if k > 0 then k - 1 else 0;
    DigitsAgree(g, upper);
    ValueSnoc(s, c, base);
    PowZero(base);
    PowPositive(base, k');
    StepValue(v, n, base, num, d, g, num', d', k);
    hide DigitChar, DigitVal, Value, Pow, Digit, NextWeight;
    assert (s + [c])[0] == if s == "" then c else s[0];
  }

  /** The same on numbers: v is the value of the text so far. */
  lemma {:induction false} StepValue(v: int, n: nat, base: nat, num: nat, d: nat, g: nat, num': nat, d': nat, k: nat)
    requires v * (d * base) + num == n && d > 0 && d == Pow(base, k) && base > 0
    requires Digit(num, d, base, g, num') && NextWeight(base, k, d, d')
    ensures g < base && (k > 0 <==> d' > 0) && (k > 0 ==> d' == Pow(base, k - 1))
    ensures if k == 0 then v * base + g == n else (v * base + g) * (d' * base) + num' == n && num' < d' * base
    ensures k > 0 && d <= num ==> g > 0
  {
    Distribute(v, base, g, d);
    PowZero(base);
    PowPositive(base, if k > 0 then k - 1 else 0);
    hide Pow;
    ZeroDigit(d, g);
  }

  lemma ZeroDigit(d: nat, g: nat)
    ensures g == 0 ==> d * g == 0
  {
  }

  lemma PowZero(base: nat)
    ensures Pow(base, 0) == 1
  {
  }

  lemma {:induction false} PowPositive(base: nat, k: nat)
    requires base > 0
    ensures Pow(base, k) > 0
    decreases k
  {
    if k > 0 {
      PowPositive(base, k - 1);
    }
  }

  lemma Distribute(v: int, base: nat, g: nat, d: nat)
    ensures (v * base + g) * d == v * (d * base) + d * g
  {
  }

  /** Dividing a power by its base. */
  lemma {:induction false} PowDown(base: nat, k: nat)
    requires base >= 2
    ensures if k > 0 then Pow(base, k) / base == Pow(base, k - 1) else Pow(base, k) / base == 0
  {
    if k > 0 {
      DivUnique(Pow(base, k), Pow(base, k - 1), 0, base);
    } else {
      DivUnique(1, 0, 1, base);
    }
  }

  lemma {:induction false} DigitBelow(num: nat, d: nat, base: nat)
    requires d > 0 && num < d * base
    ensures num == d * (num / d) + num % d && num % d < d && num / d < base
  {
    DivMul(num, d);
    var g := num / d;
    MulLess(base, g, d);
  }

  lemma MulLess(base: nat, g: nat, d: nat)
    ensures g >= base ==> d * g >= d * base
  {
    if g >= base {
      MulMono(base, g, d);
    }
  }

  /** ui2a: the canonical text of a 32-bit number, which fits the caller's buffer. */
  method Ui2a(num0: nat, base: nat, upper: bool) returns (bf: string)
    requires num0 < UINT && 2 <= base <= 16
    ensures Canonical(bf, num0, base)
    ensures base >= 8 ==> |bf| + 1 <= 12
    ensures forall i :: 0 <= i < |bf| ==>
              '0' <= bf[i] <= '9' || (if upper then 'A' <= bf[i] <= 'F' else 'a' <= bf[i] <= 'f')
  {
    hide Canonical;
    var d; ghost var k;
    d, k := FirstWeight(num0, base);
    bf := PrintDigits(num0, base, upper, d, k);
    if base >= 8 {
      FitsBuffer(bf, num0, base);
    }
  }

  /** The weight of the leading digit. */
  method FirstWeight(num: nat, base: nat) returns (d: nat, ghost k: nat)
    requires 2 <= base
    ensures d > 0 && d == Pow(base, k) && num < d * base && (k > 0 ==> d <= num)
  {
    d, k := 1, 0;
    while num / d >= base
      invariant d > 0 && d == Pow(base, k) && (k > 0 ==> d <= num)
      decreases num - d
    {
      ScaleUp(num, d, base);
      d := d * base;
      k := k + 1;
    }
    StartPrinting(num, d, base);
  }

  lemma {:induction false} PrintRound(s: string, n: nat, base: nat, num: nat, d: nat, k: nat, g: nat, rest: nat,
                                      d': nat, upper: bool)
    requires 2 <= base <= 16 && d != 0 && Printing(s, n, base, num, d, k)
    requires g == num / d && rest == num % d && d' == d / base
    ensures g < base && d' < d && (s != "" || g > 0 || d' == 0)
    ensures Printing(s + [DigitChar(g, upper)], n, base, rest, d', if k > 0 then k - 1 else 0)
  {
    hide Printing, Pow, DigitChar, Digit, NextWeight;
    PrintWeights(s, n, base, num, d, k, g, rest, d');
    PrintStep(s, n, base, num, d, k, g, rest, d', upper);
  }

  lemma NoLetters(upper: bool)
    ensures InCase("", upper)
  {
  }

  /** dgt = num / d; num %= d; d /= base. */
  method DivMod(num: nat, d: nat, base: nat) returns (g: nat, rest: nat, d': nat)
    requires d > 0 && base > 0
    ensures g == num / d && rest == num % d && d' == d / base
  {
    g := num / d;
    rest := num % d;
    d' := d / base;
  }

  method PrintDigits(num0: nat, base: nat, upper: bool, d0: nat, ghost k0: nat) returns (bf: string)
    requires 2 <= base <= 16 && d0 == Pow(base, k0) && d0 > 0 && num0 < d0 * base && (k0 > 0 ==> d0 <= num0)
    ensures Canonical(bf, num0, base) && InCase(bf, upper)
  {
    var num: nat, n: nat, d: nat := num0, 0, d0;
    ghost var k: nat := k0;
    bf := "";
    assert Printing(bf, num0, base, num, d, k);
    hide Printing, Pow, DigitChar, InCase;
    NoLetters(upper);
    while d != 0
      invariant Printing(bf, num0, base, num, d, k) && n == |bf| && InCase(bf, upper)
      decreases d
    {
      var dgt, rest, d' := DivMod(num, d, base);
      PrintRound(bf, num0, base, num, d, k, dgt, rest, d', upper);
      num, d := rest, d';
      if n != 0 || dgt > 0 || d == 0 {
        InCaseSnoc(bf, dgt, upper);
        bf := bf + [DigitChar(dgt, upper)];
        n := n + 1;
      }
      k := if k > 0 then k - 1 else 0;
    }
    DonePrinting(bf, num0, base, num, k);
  }

  lemma {:induction false} PrintWeights(s: string, n: nat, base: nat, num: nat, d: nat, k: nat, g: nat, rest: nat,
                                        d': nat)
    requires 2 <= base && d != 0 && Printing(s, n, base, num, d, k)
    requires g == num / d && rest == num % d && d' == d / base
    ensures Digit(num, d, base, g, rest) && NextWeight(base, k, d, d') && d' < d
  {
    hide Value, Pow;
    DigitBelow(num, d, base);
    WeightBelow(base, k, d, d');
  }

  lemma {:induction false} WeightBelow(base: nat, k: nat, d: nat, d': nat)
    requires 2 <= base && d == Pow(base, k) && d' == d / base
    ensures NextWeight(base, k, d, d') && d' < d
  {
    PowDown(base, k);
    if k > 0 {
      PowPositive(base, k - 1);
      MulMono(2, base, Pow(base, k - 1));
    }
  }

  lemma {:induction false} StartPrinting(num: nat, d: nat, base: nat)
    requires d > 0 && num / d < base
    ensures num < d * base
  {
    DivMul(num, d);
    MulMono(num / d + 1, base, d);
  }

  lemma DonePrinting(s: string, n: nat, base: nat, num: nat, k: nat)
    requires Printing(s, n, base, num, 0, k)
    ensures Canonical(s, n, base)
  {
  }

  /** i2a: the text of the magnitude, and whether a minus sign goes before it. The most negative
      number has no positive int, but its negation is right as an unsigned one. */
  method I2a(num: int, base: nat, upper: bool) returns (bf: string, minus: bool)
    requires -0x8000_0000 <= num < 0x8000_0000 && 2 <= base <= 16
    ensures minus <==> num < 0
    ensures Canonical(bf, if num < 0 then -num else num, base) && (base >= 8 ==> |bf| + 1 <= 12)
    ensures forall i :: 0 <= i < |bf| ==>
              '0' <= bf[i] <= '9' || (if upper then 'A' <= bf[i] <= 'F' else 'a' <= bf[i] <= 'f')
  {
    hide Canonical;
    minus := num < 0;
    bf := Ui2a(if minus then -num else num, base, upper);
  }

  // ---------------------------------------------------------------- putchw

  /** struct param, with the digits in `bf`. */
  datatype Param = Param(width: int, zeros: bool, minus: bool, alt: bool, base: nat, upper: bool, bf: string) {
    function Sign(): string { if minus then "-" else "" }

    function Prefix(): string {
      if alt && base == 16 then (if upper then "0X" else "0x") else if alt && base == 8 then "0" else ""
    }

    function Content(): nat { |Sign()| + |Prefix()| + |bf| }

    /** Characters of filling. */
    function Fill(): nat { if width > Content() then width - Content() else 0 }
  }

  function Repeat(c: char, k: nat): string {
    seq(k, i => c)
  }

  /** The field: filling before the sign, or zeros after it. */
  function Field(p: Param): string {
    (if p.zeros then "" else Repeat(' ', p.Fill())) + p.Sign() + p.Prefix()
    + (if p.zeros then Repeat('0', p.Fill()) else "") + p.bf
  }

  /** A field is as wide as asked, or as its content needs. */
  lemma FieldWidth(p: Param)
    ensures |Field(p)| == if p.width > p.Content() then p.width else p.Content()
    ensures p.Content() == |p.bf| + (if p.minus then 1 else 0) + (if !p.alt then 0 else if p.base == 16 then 2
                                                                  else if p.base == 8 then 1 else 0)
  {
  }

  /** What the field consists of: blanks first without zero filling, the sign, 0x, 0X or 0 in the alternate
      form, zeros with zero filling, and the digits. */
  lemma {:induction false} FieldIs(p: Param, fill: nat)
    requires var content := |p.bf| + (if p.minus then 1 else 0) + (if !p.alt then 0 else if p.base == 16 then 2
                                                                   else if p.base == 8 then 1 else 0);
             fill == if p.width > content then p.width - content else 0
    ensures Field(p) == seq(if p.zeros then 0 else fill, i => ' ')
                        + (if p.minus then "-" else "")
                        + (if p.alt && p.base == 16 && p.upper then "0X" else if p.alt && p.base == 16 then "0x"
                           else if p.alt && p.base == 8 then "0" else "")
                        + seq(if p.zeros then fill else 0, i => '0')
                        + p.bf
  {
    assert fill == p.Fill();
    assert Repeat(' ', 0) == "" && Repeat('0', 0) == "";
    assert seq(if p.zeros then 0 else fill, i => ' ') == if p.zeros then "" else Repeat(' ', fill);
    assert seq(if p.zeros then fill else 0, i => '0') == if p.zeros then Repeat('0', fill) else "";
    hide Repeat, Param.Fill;
  }

  /** The number of filling characters, which may come out negative. */
  method FillCount(p: Param) returns (n: int)
    ensures (if n > 0 then n else 0) == p.Fill()
  {
    n := p.width;
    var i := 0;
    while i < |p.bf| && n > 0
      invariant 0 <= i <= |p.bf| && (if p.width > 0 then n == p.width - i >= 0 else n == p.width && i == 0)
    {
      i := i + 1;
      n := n - 1;
    }
    if p.minus {
      n := n - 1;
    }
    if p.alt && p.base == 16 {
      n := n - 2;
    } else if p.alt && p.base == 8 {
      n := n - 1;
    }
  }

  /** while (n-- > 0) put c */
  method Emit(out0: string, c: char, n0: int) returns (out: string)
    ensures out == out0 + Repeat(c, if n0 > 0 then n0 else 0)
  {
    var n := n0;
    ghost var k := 0;
    out := out0;
    while n > 0
      invariant out == out0 + Repeat(c, k) && n0 == n + k && (n0 > 0 ==> n >= 0) && (n0 <= 0 ==> k == 0)
    {
      out := out + [c];
      n, k := n - 1, k + 1;
    }
  }

  /** putchw */
  method PutChW(p: Param) returns (out: string, written: nat)
    ensures out == Field(p) && written == |out|
  {
    var n := FillCount(p);
    hide Repeat;
    out := "";
    if !p.zeros {
      out := Emit(out, ' ', n);
    }
    if p.minus {
      out := out + ['-'];
    }
    if p.alt && p.base == 16 {
      out := out + ['0'];
      out := out + [if p.upper then 'X' else 'x'];
    } else if p.alt && p.base == 8 {
      out := out + ['0'];
    }
    ghost var blanks := if p.zeros then "" else Repeat(' ', p.Fill());
    assert out == blanks + p.Sign() + p.Prefix();
    if p.zeros {
      out := Emit(out, '0', n);
    }
    out := out + p.bf;
    written := |out|;
  }

  // ---------------------------------------------------------------- strntoumax

  predicate IsSpace(c: char) {
    c == ' ' || 9 <= c as int <= 13
  }

  function SkipSpaces(s: string, i: nat): (j: nat)
    requires i <= |s|
    ensures i <= j <= |s| && forall k :: i <= k < j ==> IsSpace(s[k])
    ensures j == |s| || !IsSpace(s[j])
    decreases |s| - i
  {
    if i < |s| && IsSpace(s[i]) then SkipSpaces(s, i + 1) else i
  }

  /** isspace in the C locale. */
  lemma SpacesAre(c: char)
    ensures IsSpace(c) <==> c in {' ', '\t', '\n', '\r', 11 as char, 12 as char}
  {
  }

  predicate HexPrefix(s: string, i: nat) {
    i + 2 <= |s| && s[i] == '0' && (s[i + 1] == 'x' || s[i + 1] == 'X')
  }

  function SkipSign(s: string, i: nat): nat {
    if i < |s| && (s[i] == '-' || s[i] == '+') then i + 1 else i
  }

  /** The base in force, and where its digits start. */
  function SkipPrefix(s: string, i: nat, base: nat): (nat, nat) {
    if base == 0 then
      if HexPrefix(s, i) then (16, i + 2) else if i < |s| && s[i] == '0' then (8, i + 1) else (10, i)
    else if base == 16 && HexPrefix(s, i) then (16, i + 2)
    else (base, i)
  }

  function DigitRun(s: string, i: nat, base: nat): (j: nat)
    requires i <= |s|
    ensures i <= j <= |s| && AllDigits(s[i..j], base)
    ensures j == |s| || !(0 <= DigitVal(s[j]) < base)
    decreases |s| - i
  {
    if i < |s| && 0 <= DigitVal(s[i]) < base then
      var j := DigitRun(s, i + 1, base);
      assert s[i..j] == [s[i]] + s[i + 1..j];
      j
    else i
  }

  /** What strntoumax returns and where it stops: the longest run of digits after blanks, a sign and
      a prefix, modulo 2^64, negated for a minus sign. */
  function Parse(s: string, base: nat): (nat, nat) {
    var i := SkipSpaces(s, 0);
    var k := SkipSign(s, i);
    var (b, m) := SkipPrefix(s, k, base);
    var e := DigitRun(s, m, b);
    var v := Value(s[m..e], b) % UINTMAX;
    (if i < |s| && s[i] == '-' then (UINTMAX - v) % UINTMAX else v, e)
  }

  /** The same character by character: blanks, one optional sign, the base that a leading 0x or 0 chooses
      when none is given, and the digits, modulo 2^64 and negated for a minus sign. */
  lemma {:induction false} ParseIs(s: string, base: nat)
    ensures var i := SkipSpaces(s, 0);
            var k := if i < |s| && (s[i] == '-' || s[i] == '+') then i + 1 else i;
            var zero := k < |s| && s[k] == '0';
            var hex := zero && k + 1 < |s| && (s[k + 1] == 'x' || s[k + 1] == 'X');
            var b := if base != 0 then base else if hex then 16 else if zero then 8 else 10;
            var m := if hex && (base == 0 || base == 16) then k + 2 else if zero && base == 0 then k + 1 else k;
            var e := DigitRun(s, m, b);
            var v := Value(s[m..e], b) % 0x1_0000_0000_0000_0000;
            Parse(s, base) == (if i < |s| && s[i] == '-' then (0x1_0000_0000_0000_0000 - v) % 0x1_0000_0000_0000_0000
                               else v, e)
  {
    hide SkipSpaces, DigitRun, Value;
  }

  lemma {:induction false} ValueStep(s: string, m: nat, i: nat, base: nat)
    requires m <= i < |s|
    ensures Value(s[m..i + 1], base) == Value(s[m..i], base) * base + DigitVal(s[i])
  {
    assert s[m..i + 1] == s[m..i] + [s[i]];
    ValueSnoc(s[m..i], s[i], base);
  }

  /** Wrapping at each step is wrapping at the end. */
  lemma {:induction false} WrapStep(v: int, base: nat, d: int)
    ensures (v % UINTMAX * base + d) % UINTMAX == (v * base + d) % UINTMAX
  {
    var q, r := v / UINTMAX, v % UINTMAX;
    assert v * base + d == (r * base + d) + UINTMAX * (q * base) by {
      assert v == UINTMAX * q + r;
      assert (UINTMAX * q + r) * base == UINTMAX * (q * base) + r * base;
    }
    ModShift(r * base + d, q * base);
  }

  lemma {:induction false} ModShift(x: int, q: int)
    ensures (x + UINTMAX * q) % UINTMAX == x % UINTMAX
  {
  }

  method SkipBlanks(s: string) returns (i: nat)
    ensures i == SkipSpaces(s, 0)
  {
    i := 0;
    while i < |s| && IsSpace(s[i])
      invariant 0 <= i <= |s| && SkipSpaces(s, 0) == SkipSpaces(s, i)
    {
      i := i + 1;
    }
  }

  method ChooseBase(s: string, i0: nat, base0: nat) returns (base: nat, i: nat)
    ensures (base, i) == SkipPrefix(s, i0, base0)
  {
    i, base := i0, base0;
    if base == 0 {
      if i + 2 <= |s| && s[i] == '0' && (s[i + 1] == 'x' || s[i + 1] == 'X') {
        i := i + 2;
        base := 16;
      } else if i + 1 <= |s| && s[i] == '0' {
        i := i + 1;
        base := 8;
      } else {
        base := 10;
      }
    } else if base == 16 {
      if i + 2 <= |s| && s[i] == '0' && (s[i + 1] == 'x' || s[i + 1] == 'X') {
        i := i + 2;
      }
    }
  }

  method StrNToUMax(s: string, base0: nat) returns (value: nat, end: nat)
    ensures (value, end) == Parse(s, base0)
  {
    hide SkipSpaces, Value, DigitRun;
    var minus := false;
    var i := SkipBlanks(s);
    if i < |s| {
      var c := s[i];
      if c == '-' || c == '+' {
        minus := c == '-';
        i := i + 1;
      }
    }
    var base, v;
    base, i := ChooseBase(s, i, base0);
    hide SkipPrefix;
    v, end := ParseRun(s, i, base);
    value := if minus then (UINTMAX - v) % UINTMAX else v;
  }

  lemma NoDigits(s: string, m: nat, base: nat)
    requires m <= |s|
    ensures Value(s[m..m], base) == 0
  {
  }

  /** The digit loop. */
  method ParseRun(s: string, m: nat, base: nat) returns (v: nat, i: nat)
    requires m <= |s|
    ensures i == DigitRun(s, m, base) && v == Value(s[m..i], base) % UINTMAX
  {
    hide DigitVal, Value;
    v, i := 0, m;
    NoDigits(s, m, base);
    while i < |s| && 0 <= DigitVal(s[i]) < base
      invariant m <= i <= |s| && DigitRun(s, m, base) == DigitRun(s, i, base)
      invariant v == Value(s[m..i], base) % UINTMAX
      decreases |s| - i
    {
      ValueStep(s, m, i, base);
      WrapStep(Value(s[m..i], base), base, DigitVal(s[i]));
      v := (v * base + DigitVal(s[i])) % UINTMAX;
      i := i + 1;
    }
  }

  // ---------------------------------------------------------------- the round trip

  lemma {:induction false} RunOfDigits(s: string, i: nat, base: nat)
    requires i <= |s| && AllDigits(s[i..], base)
    ensures DigitRun(s, i, base) == |s|
  {
    hide DigitVal;
  }

  lemma {:induction false} SpacesSkipped(k: nat, t: string, i: nat)
    requires i <= k && t != "" && !IsSpace(t[0])
    ensures SkipSpaces(Repeat(' ', k) + t, i) == k
    decreases k - i
  {
    var s := Repeat(' ', k) + t;
    if i < k {
      assert s[i] == ' ';
      SpacesSkipped(k, t, i + 1);
    } else {
      assert s[k] == t[0];
    }
  }

  /** Leading zeros do not count. */
  lemma {:induction false} ValueZeros(k: nat, t: string, base: nat)
    ensures Value(Repeat('0', k) + t, base) == Value(t, base)
    decreases |t| + k
  {
    var s := Repeat('0', k) + t;
    if t != "" {
      var n := |t| - 1;
      assert s[..|s| - 1] == Repeat('0', k) + t[..n];
      assert s[|s| - 1] == t[n];
      ValueZeros(k, t[..n], base);
    } else if k > 0 {
      assert s[..|s| - 1] == Repeat('0', k - 1) + "";
      ValueZeros(k - 1, "", base);
    }
  }

  /** The digits of the field, after blanks, sign and hexadecimal prefix. */
  function Body(p: Param): string {
    Repeat('0', (if p.zeros then p.Fill() else 0) + (if p.alt && p.base == 8 then 1 else 0)) + p.bf
  }

  function Hex(p: Param): string {
    if p.alt && p.base == 16 then (if p.upper then "0X" else "0x") else ""
  }

  function Blanks(p: Param): nat { if p.zeros then 0 else p.Fill() }

  lemma RepeatMore(c: char, k: nat)
    ensures [c] + Repeat(c, k) == Repeat(c, k + 1) && Repeat(c, 0) == ""
  {
  }

  lemma {:induction false} Regroup(a: string, b: string, c: string, d: string, e: string)
    ensures a + b + c + d + e == a + (b + (c + d + e)) && c + d + e == c + (d + e)
  {
  }

  /** Prefix, zeros and digits, seen as hexadecimal prefix and body. */
  lemma {:induction false} PrefixParts(p: Param, z: nat)
    requires z == if p.zeros then p.Fill() else 0
    ensures p.Prefix() + Repeat('0', z) + p.bf == Hex(p) + Body(p)
  {
    RepeatMore('0', z);
    hide Repeat, Param.Fill;
    Regroup("", "", p.Prefix(), Repeat('0', z), p.bf);
  }

  lemma {:induction false} FieldParts(p: Param)
    ensures Field(p) == Repeat(' ', Blanks(p)) + (p.Sign() + (Hex(p) + Body(p)))
  {
    var z := if p.zeros then p.Fill() else 0;
    RepeatMore('0', 0);
    RepeatMore(' ', 0);
    PrefixParts(p, z);
    hide Repeat, Param.Fill, Hex, Body, Param.Prefix, Param.Sign;
    Regroup(Repeat(' ', Blanks(p)), p.Sign(), p.Prefix(), Repeat('0', z), p.bf);
  }

  lemma {:induction false} BodyDigits(z: nat, bf: string, base: nat, n: nat)
    requires 2 <= base <= 16 && Canonical(bf, n, base)
    ensures var b := Repeat('0', z) + bf;
            b != "" && AllDigits(b, base) && Value(b, base) == n && !HexPrefix(b, 0) && !IsSpace(b[0]) && b[0] != '-'
                && b[0] != '+'
  {
    var b := Repeat('0', z) + bf;
    ValueZeros(z, bf, base);
    hide Value;
    forall i | 0 <= i < |b| ensures 0 <= DigitVal(b[i]) < base {
      if i >= z {
        assert b[i] == bf[i - z];
      } else {
        assert b[i] == '0';
      }
    }
    assert 0 <= DigitVal(b[0]) < base;
    assert |b| >= 2 ==> 0 <= DigitVal(b[1]) < base;
  }

  /** From position i on, s is a hexadecimal prefix, if any, and then digits of value n. */
  lemma {:induction false} ParseTail(s: string, i: nat, hex: string, b: string, base: nat, n: nat)
    requires 2 <= base <= 16 && i <= |s| && s[i..] == hex + b
             && (hex == "" || (base == 16 && (hex == "0x" || hex == "0X")))
    requires b != "" && AllDigits(b, base) && Value(b, base) == n && !HexPrefix(b, 0)
    ensures var (c, m) := SkipPrefix(s, i, base);
            c == base && m <= |s| && DigitRun(s, m, base) == |s| && Value(s[m..], base) == n
  {
    var m := i + |hex|;
    TailParts(s, i, hex, b, m);
    hide Value, DigitVal, AllDigits, DigitRun, HexPrefix;
    RunOfDigits(s, m, base);
  }

  lemma {:induction false} TailParts(s: string, i: nat, hex: string, b: string, m: nat)
    requires i <= |s| && s[i..] == hex + b && m == i + |hex| && b != "" && !HexPrefix(b, 0)
    requires hex == "" || hex == "0x" || hex == "0X"
    ensures m <= |s| && s[m..] == b && (HexPrefix(s, i) <==> hex != "")
  {
    assert |s| == i + |hex| + |b|;
    assert forall k :: i <= k < |s| ==> s[k] == (hex + b)[k - i];
    assert s[m..] == b;
  }

  /** Where blanks and sign end. */
  lemma {:induction false} ParseHead(s: string, k: nat, minus: bool, tail: string)
    requires s == Repeat(' ', k) + ((if minus then "-" else "") + tail) && tail != ""
    requires !IsSpace(tail[0]) && tail[0] != '-' && tail[0] != '+'
    ensures var i := if minus then k + 1 else k;
            && SkipSpaces(s, 0) == k < |s| && (s[k] == '-' <==> minus) && SkipSign(s, k) == i <= |s| && s[i..] == tail
  {
    var t := (if minus then "-" else "") + tail;
    assert t[0] == if minus then '-' else tail[0];
    SpacesSkipped(k, t, 0);
    hide SkipSpaces;
    assert s[k] == t[0];
  }

  lemma {:induction false} ParseParts(s: string, base: nat, i: nat, k: nat, c: nat, m: nat)
    requires i == SkipSpaces(s, 0) && k == SkipSign(s, i) && (c, m) == SkipPrefix(s, k, base) && m <= |s|
             && DigitRun(s, m, c) == |s|
    ensures var v := Value(s[m..], c) % UINTMAX;
            Parse(s, base) == (if i < |s| && s[i] == '-' then (UINTMAX - v) % UINTMAX else v, |s|)
  {
    hide SkipSpaces, SkipSign, SkipPrefix, DigitRun, Value;
    assert s[m..|s|] == s[m..];
  }

  /** Printing and parsing are inverse: in each base, for every width, filling, sign and prefix, the
      field reads back as the number, negated modulo 2^64 when it carries a minus sign, and is read
      to its end. */
  lemma {:induction false} RoundTrip(p: Param, n: nat)
    requires p.base in {8, 10, 16} && Canonical(p.bf, n, p.base) && n < UINT
    ensures Parse(Field(p), p.base) == (if p.minus then (UINTMAX - n) % UINTMAX else n, |Field(p)|)
  {
    hide Field, Body, Hex, Canonical, Value, DigitVal, DigitRun, SkipSpaces, SkipSign, SkipPrefix, Parse, AllDigits,
         Blanks, Repeat, IsSpace, HexPrefix;
    var s, k, tail := Field(p), Blanks(p), Hex(p) + Body(p);
    FieldTail(p, n);
    ParseHead(s, k, p.minus, tail);
    var i := if p.minus then k + 1 else k;
    ParseTail(s, i, Hex(p), Body(p), p.base, n);
    ParseParts(s, p.base, k, i, p.base, SkipPrefix(s, i, p.base).1);
  }

  /** What ParseHead and ParseTail need to know of a field. */
  lemma {:induction false} FieldTail(p: Param, n: nat)
    requires p.base in {8, 10, 16} && Canonical(p.bf, n, p.base)
    ensures var tail := Hex(p) + Body(p);
            && Field(p) == Repeat(' ', Blanks(p)) + ((if p.minus then "-" else "") + tail) && tail != ""
            && !IsSpace(tail[0]) && tail[0] != '-' && tail[0] != '+'
    ensures Hex(p) == "" || (p.base == 16 && (Hex(p) == "0x" || Hex(p) == "0X"))
    ensures Body(p) != "" && AllDigits(Body(p), p.base) && Value(Body(p), p.base) == n && !HexPrefix(Body(p), 0)
  {
    FieldParts(p);
    var z := (if p.zeros then p.Fill() else 0) + (if p.alt && p.base == 8 then 1 else 0);
    assert Body(p) == Repeat('0', z) + p.bf;
    hide Field, Body, Canonical, Value, DigitVal, AllDigits, Blanks, Repeat, HexPrefix, Param.Fill;
    BodyDigits(z, p.bf, p.base, n);
    assert (Hex(p) + Body(p))[0] == if Hex(p) == "" then Body(p)[0] else '0';
  }

  /** For a signed int: i2a and putchw, then the parser, give the same bits back. */
  lemma {:induction false} SignedRoundTrip(p: Param, num: int)
    requires p.base in {8, 10, 16} && -0x8000_0000 <= num < 0x8000_0000
    requires p.minus == (num < 0) && Canonical(p.bf, if num < 0 then -num else num, p.base)
    ensures Parse(Field(p), p.base).0 % UINT == num % UINT
  {
    hide Canonical, Parse, Field;
    RoundTrip(p, if num < 0 then -num else num);
  }

  // ---------------------------------------------------------------- base 0

  /** Where the digits or their prefix start, after blanks and one sign. */
  function Tail(s: string): nat {
    var i := SkipSpaces(s, 0);
    if i < |s| && (s[i] == '-' || s[i] == '+') then i + 1 else i
  }

  lemma {:induction false} ParseFrom(s: string, base: nat, c: nat, m: nat)
    requires (c, m) == SkipPrefix(s, Tail(s), base)
    ensures m <= |s|
    ensures var i, e := SkipSpaces(s, 0), DigitRun(s, m, c);
            var v := Value(s[m..e], c) % UINTMAX;
            Parse(s, base) == (if i < |s| && s[i] == '-' then (UINTMAX - v) % UINTMAX else v, e)
  {
    hide SkipSpaces, DigitRun, Value;
  }

  /** A leading zero adds nothing to a run of digits. */
  lemma {:induction false} ZeroFirst(s: string, k: nat)
    requires k < |s| && s[k] == '0'
    ensures var e := DigitRun(s, k, 8); e == DigitRun(s, k + 1, 8) && Value(s[k..e], 8) == Value(s[k + 1..e], 8)
  {
    var e := DigitRun(s, k, 8);
    ValueZeros(1, s[k + 1..e], 8);
    assert s[k..e] == Repeat('0', 1) + s[k + 1..e];
  }

  /** Base 0: hexadecimal after 0x or 0X, octal after another 0, decimal otherwise. */
  lemma {:induction false} BaseZero(s: string)
    ensures var k := Tail(s);
            var zero := k < |s| && s[k] == '0';
            var hex := zero && k + 1 < |s| && (s[k + 1] == 'x' || s[k + 1] == 'X');
            Parse(s, 0) == if hex then Parse(s, 16) else if zero then Parse(s, 8) else Parse(s, 10)
  {
    var k := Tail(s);
    var (c, m) := SkipPrefix(s, k, 0);
    ParseFrom(s, 0, c, m);
    var (c', m') := SkipPrefix(s, k, c);
    ParseFrom(s, c, c', m');
    if k < |s| && s[k] == '0' {
      ZeroFirst(s, k);
    }
    hide SkipSpaces, DigitRun, Value, Parse;
  }

  /** The text of zero. */
  lemma {:induction false} ZeroText(s: string, n: nat, base: nat)
    requires 2 <= base <= 16 && Canonical(s, n, base) && s[0] == '0'
    ensures s == "0" && n == 0
  {
    assert s[..0] == "";
    assert Value(s, base) == Value(s[..0], base) * base + DigitVal(s[0]);
  }

  /** What a field looks like behind blanks and sign. */
  lemma {:induction false} FieldTailAt(p: Param, n: nat)
    requires p.base in {8, 10, 16} && Canonical(p.bf, n, p.base)
    ensures var s := Field(p); Tail(s) <= |s| && s[Tail(s)..] == Hex(p) + Body(p)
  {
    hide Field, Body, Hex, Canonical, Value, DigitVal, SkipSpaces, AllDigits, Blanks, Repeat, IsSpace, HexPrefix;
    FieldTail(p, n);
    ParseHead(Field(p), Blanks(p), p.minus, Hex(p) + Body(p));
  }

  /** The round trip without saying the base: hexadecimal and octal in the alternate form, and decimal without
      zero filling, read back in base 0. */
  lemma {:induction false} RoundTripZero(p: Param, n: nat)
    requires p.base in {8, 10, 16} && Canonical(p.bf, n, p.base) && n < UINT
    requires if p.base == 10 then !p.zeros else p.alt
    ensures Parse(Field(p), 0) == (if p.minus then (UINTMAX - n) % UINTMAX else n, |Field(p)|)
  {
    hide Field, Body, Hex, Canonical, Value, Tail, Parse;
    var s := Field(p);
    var k, t := Tail(s), Hex(p) + Body(p);
    FieldTailAt(p, n);
    BodyFirst(p, n);
    TailChars(s, k, t);
    BaseZero(s);
    RoundTrip(p, n);
    if p.base == 10 && t[0] == '0' {
      ZeroInOctal(p, n);
    }
  }

  lemma TailChars(s: string, k: nat, t: string)
    requires k <= |s| && s[k..] == t && t != ""
    ensures |s| == k + |t| && s[k] == t[0] && (|t| >= 2 ==> s[k + 1] == t[1])
  {
    assert s[k..][0] == s[k] && (k + 1 < |s| ==> s[k..][1] == s[k + 1]);
  }

  /** How the text behind blanks and sign begins. */
  lemma {:induction false} BodyFirst(p: Param, n: nat)
    requires p.base in {8, 10, 16} && Canonical(p.bf, n, p.base) && if p.base == 10 then !p.zeros else p.alt
    ensures var t := Hex(p) + Body(p);
            && t != ""
            && (p.base == 16 ==> |t| >= 2 && t[0] == '0' && (t[1] == 'x' || t[1] == 'X'))
            && (p.base == 8 ==> t[0] == '0') && (p.base == 10 ==> t == p.bf)
            && (p.base != 16 && |t| >= 2 ==> t[1] != 'x' && t[1] != 'X')
  {
    hide Field, Body, Canonical, Value, DigitVal, Blanks, Repeat, IsSpace, HexPrefix;
    FieldTail(p, n);
    BodyShape(p);
    var t, b := Hex(p) + Body(p), Body(p);
    if p.base == 16 {
      assert |Hex(p)| == 2 && t[0] == Hex(p)[0] && t[1] == Hex(p)[1];
    } else {
      assert Hex(p) == "" && t == b;
      if |b| >= 2 {
        NotX(b[1], p.base);
      }
    }
  }

  lemma NotX(c: char, base: nat)
    requires 0 <= DigitVal(c) < base <= 16
    ensures c != 'x' && c != 'X'
  {
  }

  lemma BodyShape(p: Param)
    ensures p.base == 8 && p.alt ==> Body(p) != "" && Body(p)[0] == '0'
    ensures p.base == 10 && !p.zeros ==> Body(p) == p.bf
  {
    hide Param.Fill;
  }

  /** A decimal zero reads as the octal zero. */
  lemma {:induction false} ZeroInOctal(p: Param, n: nat)
    requires p.base == 10 && !p.zeros && Canonical(p.bf, n, 10) && n < UINT && p.bf[0] == '0'
    ensures Parse(Field(p), 8) == (0, |Field(p)|) && n == 0
  {
    ZeroText(p.bf, n, 10);
    var q := p.(base := 8, alt := false);
    SameField(p, q);
    OctalZero();
    hide Field, Value, DigitVal, Parse, Canonical;
    RoundTrip(q, 0);
  }

  lemma SameField(p: Param, q: Param)
    requires p.base == 10 && q == p.(base := 8, alt := false)
    ensures Field(q) == Field(p)
  {
    assert q.Prefix() == p.Prefix() && q.Sign() == p.Sign() && q.Fill() == p.Fill();
    hide Repeat, Param.Fill, Param.Prefix, Param.Sign;
  }

  lemma OctalZero()
    ensures Canonical("0", 0, 8)
  {
    assert "0"[..0] == "" && Value("", 8) == 0;
  }
}
