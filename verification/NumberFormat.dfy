/** Formatting of numbers for the kernel's printf (kernel/runtime.cpp). */
module NumberFormat {
  import opened Common

  const SMALL_DIGITS := "0123456789abcdefghijklmnopqrstuvwxyz"
  const LARGE_DIGITS := "0123456789ABCDEFGHIJKLMNOPQRSTUVWXYZ"

  /** The scratch array of number(). */
  const SCRATCH := 66

  /** The bits of `type`. */
  datatype Flags = Flags(zeroPad: bool, sign: bool, plus: bool, space: bool, left: bool, special: bool, large: bool, removeHex: bool)

  /** A 32-bit long. */
  type Long = x: int | -0x8000_0000 <= x < 0x8000_0000

  function DigitSet(f: Flags): (d: string)
    ensures |d| == 36
  {
    if f.large then LARGE_DIGITS else SMALL_DIGITS
  }

  // ---------------------------------------------------------------- digits

  /** The digits of n, the last one first; none for zero. */
  function DigitsOf(n: nat, base: nat): (d: seq<nat>)
    requires base >= 2
    ensures forall k :: 0 <= k < |d| ==> d[k] < base
    ensures n > 0 ==> |d| > 0 && d[|d| - 1] != 0
    decreases n
  {
    if n == 0 then [] else [n % base] + DigitsOf(n / base, base)
  }

  /** What digits, the last one first, stand for. */
  function Value(d: seq<nat>, base: nat): nat {
    if d == [] then 0 else d[0] + base * Value(d[1..], base)
  }

  /** The digits evaluate back to the number. */
  lemma {:induction false} DigitsEvaluate(n: nat, base: nat)
    requires base >= 2
    ensures Value(DigitsOf(n, base), base) == n
    decreases n
  {
    hide DigitsOf, Value;
    FirstDigit(n, base);
    if n > 0 {
      DivMod(n, base);
      DigitsEvaluate(n / base, base);
      ValueOf(n % base, DigitsOf(n / base, base), base);
    }
  }

  lemma FirstDigit(n: nat, base: nat)
    requires base >= 2
    ensures n > 0 ==> DigitsOf(n, base) == [n % base] + DigitsOf(n / base, base)
    ensures n == 0 ==> Value(DigitsOf(n, base), base) == 0
  {
  }

  lemma ValueOf(d: nat, rest: seq<nat>, base: nat)
    ensures Value([d] + rest, base) == d + base * Value(rest, base)
  {
    assert ([d] + rest)[1..] == rest;
  }

  lemma DivMod(n: nat, base: nat)
    requires base > 0
    ensures n == n % base + base * (n / base) && 0 <= n / base && (base >= 2 && n > 0 ==> n / base < n)
  {
  }

  function Power2(k: nat): nat { if k == 0 then 1 else 2 * Power2(k - 1) }

  lemma {:induction false} Power2Sum(a: nat, b: nat)
    ensures Power2(a + b) == Power2(a) * Power2(b)
    decreases a
  {
    if a > 0 {
      Power2Sum(a - 1, b);
      Doubled(Power2(a - 1), Power2(b));
    }
  }

  lemma Doubled(x: nat, y: nat)
    ensures (2 * x) * y == 2 * (x * y)
  {
  }

  lemma Power2Of32()
    ensures Power2(32) == TWO32
  {
    assert Power2(2) == 4;
    Power2Sum(2, 2);
    Power2Sum(4, 4);
    Power2Sum(8, 8);
    Power2Sum(16, 16);
  }

  /** A number below 2 to the k has at most k digits, in any base. */
  lemma {:induction false} DigitCount(n: nat, base: nat, k: nat)
    requires base >= 2 && n < Power2(k)
    ensures |DigitsOf(n, base)| <= k
    decreases k
  {
    if n > 0 {
      Halved(n, base);
      DigitCount(n / base, base, k - 1);
    }
  }

  lemma Halved(n: nat, base: nat)
    requires base >= 2
    ensures n / base <= n / 2
  {
    var q := n / base;
    assert q * base <= n;
    assert q * 2 <= q * base;
  }

  // ---------------------------------------------------------------- the text

  /** The sign printed. */
  function SignText(num: Long, f: Flags): string {
    if !f.sign then "" else if num < 0 then "-" else if f.plus then "+" else if f.space then " " else ""
  }

  /** The number whose digits are printed: without a sign the argument counts as unsigned. */
  function Magnitude(num: Long, f: Flags): (n: nat)
    ensures n < TWO32
  {
    var n: int := num;
    if f.sign && n < 0 then -n else if n < 0 then n + TWO32 else n
  }

  function PrefixText(base: nat, f: Flags): string {
    if f.special && !f.removeHex && base == 16 then ['0', DigitSet(f)[33]] else ""
  }

  /** The digits printed, last one first: a lone zero unless the precision is zero. */
  function Printed(num: Long, base: nat, precision: int, f: Flags): (d: seq<nat>)
    requires 2 <= base <= 36
    ensures forall k :: 0 <= k < |d| ==> d[k] < 36
  {
    if num == 0 && precision != 0 then [0] else DigitsOf(Magnitude(num, f), base)
  }

  function Max(a: int, b: int): int { if a >= b then a else b }

  function Repeat(c: char, n: int): (s: string)
    ensures |s| == Max(n, 0) && forall k :: 0 <= k < |s| ==> s[k] == c
  {
    if n <= 0 then "" else Repeat(c, n - 1) + [c]
  }

  /** Digits as characters, the first one first. */
  function Spelled(d: seq<nat>, f: Flags): (s: string)
    requires forall k :: 0 <= k < |d| ==> d[k] < 36
    ensures |s| == |d|
  {
    seq(|d|, k requires 0 <= k < |d| => DigitSet(f)[d[|d| - 1 - k]])
  }

  /** How many characters of padding there are. */
  function Padding(num: Long, base: nat, size: int, precision: int, f: Flags): int
    requires 2 <= base <= 36
  {
    size - |SignText(num, f)| - |PrefixText(base, f)| - Max(|Printed(num, base, precision, f)|, precision)
  }

  /** The whole text: padding in front, or zeros behind the prefix, or spaces at the end. */
  function Text(num: Long, base: nat, size: int, precision: int, f: Flags): string
    requires 2 <= base <= 36
  {
    Layout(SignText(num, f), PrefixText(base, f), Printed(num, base, precision, f), precision,
           Padding(num, base, size, precision, f), f)
  }

  function Layout(sign: string, prefix: string, d: seq<nat>, precision: int, padding: int, f: Flags): string
    requires forall k :: 0 <= k < |d| ==> d[k] < 36
  {
    Repeat(' ', if f.left || f.zeroPad then 0 else padding) + sign + prefix
    + Repeat('0', if f.zeroPad && !f.left then padding else 0) + Repeat('0', precision - |d|) + Spelled(d, f)
    + Repeat(' ', if f.left then padding else 0)
  }

  /** It is as wide as asked, or as what there is to print. */
  lemma TextWidth(num: Long, base: nat, size: int, precision: int, f: Flags)
    requires 2 <= base <= 36
    ensures |Text(num, base, size, precision, f)| == Max(size,
      |SignText(num, f)| + |PrefixText(base, f)| + Max(|Printed(num, base, precision, f)|, precision))
  {
  }

  // ---------------------------------------------------------------- reading back

  /** skip_atoi: the leading decimal digits. */
  method SkipAtoi(s: string) returns (i: nat, used: nat)
    ensures used <= |s| && (forall k :: 0 <= k < used ==> IsDigit(s[k])) && (used < |s| ==> !IsDigit(s[used]))
    ensures i == Atoi(s[..used])
  {
    i, used := 0, 0;
    while used < |s| && IsDigit(s[used])
      invariant 0 <= used <= |s| && (forall k :: 0 <= k < used ==> IsDigit(s[k])) && i == Atoi(s[..used])
    {
      assert s[..used + 1][..used] == s[..used];
      i := i * 10 + (s[used] as int - '0' as int);
      used := used + 1;
    }
  }

  predicate IsDigit(c: char) { '0' <= c <= '9' }

  function Atoi(s: string): nat
    requires forall k :: 0 <= k < |s| ==> IsDigit(s[k])
  {
    if s == "" then 0
    else
      assert IsDigit(s[|s| - 1]);
      10 * Atoi(s[..|s| - 1]) + (s[|s| - 1] as int - '0' as int)
  }

  /** What is printed in base ten reads back as the number printed. */
  lemma {:induction false} DecimalReadsBack(d: seq<nat>, f: Flags)
    requires forall k :: 0 <= k < |d| ==> d[k] < 10
    ensures (forall k :: 0 <= k < |d| ==> IsDigit(Spelled(d, f)[k])) && Atoi(Spelled(d, f)) == Value(d, 10)
  {
    hide Spelled, DigitSet, IsDigit;
    if d != [] {
      DecimalReadsBack(d[1..], f);
      SpelledStep(d, f);
      AtoiStep(Spelled(d[1..], f), DigitSet(f)[d[0]]);
    }
  }

  lemma SpelledStep(d: seq<nat>, f: Flags)
    requires d != [] && forall k :: 0 <= k < |d| ==> d[k] < 10
    ensures Spelled(d, f) == Spelled(d[1..], f) + [DigitSet(f)[d[0]]]
    ensures IsDigit(DigitSet(f)[d[0]]) && DigitSet(f)[d[0]] as int - '0' as int == d[0]
  {
    DigitChar(d[0], f);
  }

  lemma AtoiStep(s: string, c: char)
    requires IsDigit(c) && forall k :: 0 <= k < |s| ==> IsDigit(s[k])
    ensures forall k :: 0 <= k < |s + [c]| ==> IsDigit((s + [c])[k])
    ensures Atoi(s + [c]) == 10 * Atoi(s) + (c as int - '0' as int)
  {
    assert (s + [c])[..|s|] == s;
  }

  lemma DigitChar(x: nat, f: Flags)
    requires x < 10
    ensures IsDigit(DigitSet(f)[x]) && DigitSet(f)[x] as int - '0' as int == x
  {
    assert DigitSet(f)[..10] == "0123456789";
    assert DigitSet(f)[x] == "0123456789"[x];
  }

  /** skip_atoi inverts the printing of a number in base ten. */
  lemma NumberReadsBack(n: nat, f: Flags)
    ensures var s := Spelled(DigitsOf(n, 10), f);
      (forall k :: 0 <= k < |s| ==> IsDigit(s[k])) && Atoi(s) == n
  {
    DecimalReadsBack(DigitsOf(n, 10), f);
    DigitsEvaluate(n, 10);
  }

  // ---------------------------------------------------------------- what the text says

  /** What a character counts as a digit, -1 if it is none. */
  function DigitValue(c: char): int {
    if '0' <= c <= '9' then c as int - '0' as int
    else if 'a' <= c <= 'z' then c as int - 'a' as int + 10
    else if 'A' <= c <= 'Z' then c as int - 'A' as int + 10
    else -1
  }

  ghost predicate AllDigits(s: string, base: nat) {
    forall k :: 0 <= k < |s| ==> 0 <= DigitValue(s[k]) < base
  }

  /** The number a text spells in some base. */
  function TextValue(s: string, base: nat): nat
    requires AllDigits(s, base)
  {
    if s == "" then 0 else TextValue(s[..|s| - 1], base) * base + DigitValue(s[|s| - 1])
  }

  lemma SmallDigit(x: nat)
    requires x < 36
    ensures SMALL_DIGITS[x] as int == x + if x < 10 then '0' as int else 'a' as int - 10
  {
  }

  lemma LargeDigit(x: nat)
    requires x < 36
    ensures LARGE_DIGITS[x] as int == x + if x < 10 then '0' as int else 'A' as int - 10
  {
  }

  lemma DigitSetIs(x: nat, f: Flags)
    requires x < 36
    ensures DigitSet(f)[x] as int == x + if x < 10 then '0' as int else if f.large then 'A' as int - 10 else 'a' as int - 10
  {
    if f.large {
      LargeDigit(x);
    } else {
      SmallDigit(x);
    }
  }

  lemma DigitSetValue(x: nat, f: Flags)
    requires x < 36
    ensures DigitValue(DigitSet(f)[x]) == x
  {
    hide DigitSet;
    DigitSetIs(x, f);
  }

  lemma TextValueStep(s: string, c: char, base: nat)
    requires AllDigits(s, base) && 0 <= DigitValue(c) < base
    ensures AllDigits(s + [c], base) && TextValue(s + [c], base) == TextValue(s, base) * base + DigitValue(c)
  {
    assert (s + [c])[..|s|] == s;
  }

  lemma {:induction false} SpelledValue(d: seq<nat>, f: Flags, base: nat)
    requires base <= 36 && forall k :: 0 <= k < |d| ==> d[k] < base
    ensures AllDigits(Spelled(d, f), base) && TextValue(Spelled(d, f), base) == Value(d, base)
  {
    hide Spelled, DigitSet, AllDigits, TextValue, DigitValue;
    if d == [] {
      NothingSpelled(f, base);
    } else {
      SpelledValue(d[1..], f, base);
      SpelledMore(d, f);
      DigitSetValue(d[0], f);
      TextValueStep(Spelled(d[1..], f), DigitSet(f)[d[0]], base);
    }
  }

  lemma NothingSpelled(f: Flags, base: nat)
    ensures AllDigits(Spelled([], f), base) && TextValue(Spelled([], f), base) == Value([], base)
  {
  }

  lemma SpelledMore(d: seq<nat>, f: Flags)
    requires d != [] && forall k :: 0 <= k < |d| ==> d[k] < 36
    ensures Spelled(d, f) == Spelled(d[1..], f) + [DigitSet(f)[d[0]]]
  {
    hide DigitSet;
  }

  lemma DigitsParts(s: string, base: nat)
    requires AllDigits(s, base) && s != ""
    ensures AllDigits(s[..|s| - 1], base) && 0 <= DigitValue(s[|s| - 1]) < base
  {
  }

  lemma {:induction false} ZerosInFront(n: int, s: string, base: nat)
    requires base > 0 && AllDigits(s, base)
    ensures AllDigits(Repeat('0', n) + s, base) && TextValue(Repeat('0', n) + s, base) == TextValue(s, base)
    decreases |s|, n
  {
    hide AllDigits;
    if s != "" {
      var t, c := s[..|s| - 1], s[|s| - 1];
      assert s == t + [c];
      DigitsParts(s, base);
      ZerosInFront(n, t, base);
      TextValueStep(Repeat('0', n) + t, c, base);
      TextValueStep(t, c, base);
      assert Repeat('0', n) + s == (Repeat('0', n) + t) + [c];
    } else if n > 0 {
      ZerosInFront(n - 1, "", base);
      assert Repeat('0', n - 1) + "" == Repeat('0', n - 1) && Repeat('0', n) + "" == Repeat('0', n - 1) + ['0'];
      TextValueStep(Repeat('0', n - 1), '0', base);
    } else {
      assert Repeat('0', n) + "" == "";
    }
  }

  ghost predicate Blank(s: string) {
    forall k :: 0 <= k < |s| ==> s[k] == ' '
  }

  /** No letter of the wrong case. */
  ghost predicate InCase(s: string, large: bool) {
    forall k :: 0 <= k < |s| ==> if large then !('a' <= s[k] <= 'z') else !('A' <= s[k] <= 'Z')
  }

  /** Between blanks the text is a sign, a prefix and digits that read back as the number: as the signed one with
      the sign flag, without it as its bits taken for an unsigned number. */
  lemma TextReadsBack(num: Long, base: nat, size: int, precision: int, f: Flags)
    returns (front: string, sign: string, prefix: string, digits: string, behind: string)
    requires 2 <= base <= 36
    ensures Text(num, base, size, precision, f) == front + sign + prefix + digits + behind
    ensures Blank(front) && Blank(behind) && AllDigits(digits, base) && InCase(digits, f.large)
    ensures (f.left || f.zeroPad ==> front == "") && (!f.left ==> behind == "") && |digits| >= precision
    ensures var n: int := TextValue(digits, base);
      (if sign == "-" then -n else n) == if f.sign then num else num % TWO32
    ensures sign == "-" <==> f.sign && num < 0
    ensures sign == "+" <==> f.sign && num >= 0 && f.plus
    ensures sign == " " <==> f.sign && num >= 0 && f.space && !f.plus
    ensures sign in {"", "-", "+", " "}
    ensures prefix == if base != 16 || !f.special || f.removeHex then "" else if f.large then "0X" else "0x"
  {
    hide Spelled, Repeat, AllDigits, TextValue, Printed, Padding, SignText, PrefixText, InCase, Value, Layout;
    var d, padding := Printed(num, base, precision, f), Padding(num, base, size, precision, f);
    PrintedValue(num, base, precision, f);
    front, behind := Repeat(' ', if f.left || f.zeroPad then 0 else padding), Repeat(' ', if f.left then padding else 0);
    sign, prefix := SignText(num, f), PrefixText(base, f);
    ghost var fill := if f.zeroPad && !f.left then padding else 0;
    digits := Repeat('0', fill) + (Repeat('0', precision - |d|) + Spelled(d, f));
    LayoutParts(sign, prefix, d, precision, padding, f);
    DigitsOfText(d, f, base, precision - |d|, fill);
    SignAndPrefix(num, base, f);
  }

  lemma LayoutParts(sign: string, prefix: string, d: seq<nat>, precision: int, padding: int, f: Flags)
    requires forall k :: 0 <= k < |d| ==> d[k] < 36
    ensures Layout(sign, prefix, d, precision, padding, f)
      == Repeat(' ', if f.left || f.zeroPad then 0 else padding) + sign + prefix
         + (Repeat('0', if f.zeroPad && !f.left then padding else 0) + (Repeat('0', precision - |d|) + Spelled(d, f)))
         + Repeat(' ', if f.left then padding else 0)
  {
    hide Spelled, Repeat;
  }

  /** Digits with zeros in front. */
  lemma DigitsOfText(d: seq<nat>, f: Flags, base: nat, zeros: int, fill: int)
    requires 2 <= base <= 36 && forall k :: 0 <= k < |d| ==> d[k] < base
    ensures var s := Repeat('0', fill) + (Repeat('0', zeros) + Spelled(d, f));
      AllDigits(s, base) && InCase(s, f.large) && TextValue(s, base) == Value(d, base)
  {
    hide Spelled, AllDigits, TextValue, Value, InCase;
    SpelledValue(d, f, base);
    ZerosInFront(zeros, Spelled(d, f), base);
    ZerosInFront(fill, Repeat('0', zeros) + Spelled(d, f), base);
    SpelledCase(d, f);
    ZerosCase(Repeat('0', fill), Repeat('0', zeros), Spelled(d, f), f.large);
  }

  lemma PrintedValue(num: Long, base: nat, precision: int, f: Flags)
    requires 2 <= base <= 36
    ensures var d := Printed(num, base, precision, f);
      && (forall k :: 0 <= k < |d| ==> d[k] < base)
      && var n: int := Value(d, base);
         (if f.sign && num < 0 then -n else n) == if f.sign then num else num % TWO32
  {
    hide DigitsOf;
    DigitsEvaluate(Magnitude(num, f), base);
    assert Value([0], base) == 0 + base * Value([], base) == 0;
  }

  lemma SignAndPrefix(num: Long, base: nat, f: Flags)
    ensures SignText(num, f) in {"", "-", "+", " "} && (SignText(num, f) == "-" <==> f.sign && num < 0)
    ensures SignText(num, f) == "+" <==> f.sign && num >= 0 && f.plus
    ensures SignText(num, f) == " " <==> f.sign && num >= 0 && f.space && !f.plus
    ensures PrefixText(base, f) == if base != 16 || !f.special || f.removeHex then "" else if f.large then "0X" else "0x"
  {
    hide DigitSet;
    DigitSetIs(33, f);
  }

  lemma SpelledCase(d: seq<nat>, f: Flags)
    requires forall k :: 0 <= k < |d| ==> d[k] < 36
    ensures InCase(Spelled(d, f), f.large)
  {
    hide DigitSet;
    var s := Spelled(d, f);
    forall k | 0 <= k < |s|
      ensures if f.large then !('a' <= s[k] <= 'z') else !('A' <= s[k] <= 'Z')
    {
      DigitSetIs(d[|d| - 1 - k], f);
    }
  }

  lemma ZerosCase(a: string, b: string, s: string, large: bool)
    requires InCase(s, large) && (forall k :: 0 <= k < |a| ==> a[k] == '0') && (forall k :: 0 <= k < |b| ==> b[k] == '0')
    ensures InCase(a + (b + s), large)
  {
  }

  // ---------------------------------------------------------------- writing

  /** The buffer after text was put at pos, as far as `end` allows. */
  ghost predicate Written(before: seq<char>, after: seq<char>, pos: nat, end: int, text: string) {
    && |after| == |before|
    && (forall k :: 0 <= k < |after| ==>
         after[k] == if pos <= k < pos + |text| && k <= end then text[k - pos] else before[k])
  }

  /** `if (buf <= end) *buf = c; ++buf;` */
  method Put(buf: array<char>, pos: nat, end: int, c: char, ghost before: seq<char>, ghost start: nat, ghost text: string)
    returns (next: nat)
    requires end < buf.Length && Written(before, buf[..], start, end, text) && pos == start + |text|
    modifies buf
    ensures next == pos + 1 && Written(before, buf[..], start, end, text + [c])
  {
    if pos <= end {
      buf[pos] := c;
    }
    next := pos + 1;
  }

  /** The same character n times. */
  method Fill(buf: array<char>, pos: nat, end: int, c: char, n: int, ghost before: seq<char>, ghost start: nat, ghost text: string)
    returns (next: nat)
    requires end < buf.Length && Written(before, buf[..], start, end, text) && pos == start + |text|
    modifies buf
    ensures next == pos + Max(n, 0) && Written(before, buf[..], start, end, text + Repeat(c, n))
  {
    hide Written;
    next := pos;
    var k := 0;
    assert text + Repeat(c, 0) == text;
    while k < n
      invariant 0 <= k <= Max(n, 0) && next == pos + k && Written(before, buf[..], start, end, text + Repeat(c, k))
    {
      next := Put(buf, next, end, c, before, start, text + Repeat(c, k));
      assert text + Repeat(c, k) + [c] == text + Repeat(c, k + 1);
      k := k + 1;
    }
    assert Repeat(c, k) == Repeat(c, n);
  }

  lemma OneDigit(n: nat, base: nat, done: seq<nat>)
    requires base >= 2
    ensures n > 0 ==> |DigitsOf(n, base)| == 1 + |DigitsOf(n / base, base)|
    ensures n > 0 ==> done + DigitsOf(n, base) == (done + [n % base]) + DigitsOf(n / base, base)
    ensures n == 0 ==> done + DigitsOf(n, base) == done
  {
  }

  /** The digits go to the scratch array, the last one first; 32 of its 66 places are enough. */
  method Convert(num: nat, base: nat) returns (tmp: array<nat>, i: nat)
    requires 2 <= base && num < TWO32
    ensures fresh(tmp) && tmp.Length == SCRATCH && i <= 32 && tmp[..i] == DigitsOf(num, base)
  {
    hide Power2, DigitsOf;
    tmp := new nat[SCRATCH];
    i := 0;
    var n: nat := num;
    Power2Of32();
    DigitCount(num, base, 32);
    while n != 0
      invariant i + |DigitsOf(n, base)| <= 32 && tmp[..i] + DigitsOf(n, base) == DigitsOf(num, base)
      decreases n
    {
      DivMod(n, base);
      OneDigit(n, base, tmp[..i]);
      ghost var done := tmp[..i];
      tmp[i] := n % base;
      assert tmp[..i + 1] == done + [n % base];
      n := n / base;
      i := i + 1;
    }
    OneDigit(0, base, tmp[..i]);
  }

  /** The part of number() that fills the scratch array. */
  method Digits(num: Long, base: nat, precision: int, f: Flags) returns (tmp: array<nat>, i: nat)
    requires 2 <= base <= 36
    ensures fresh(tmp) && tmp.Length == SCRATCH && i <= 32 && tmp[..i] == Printed(num, base, precision, f)
  {
    if num == 0 && precision != 0 {
      tmp := new nat[SCRATCH];
      tmp[0] := 0;
      i := 1;
    } else {
      tmp, i := Convert(Magnitude(num, f), base);
    }
  }

  /** number() */
  method Number(buf: array<char>, start: nat, end: int, num: Long, base: int, width: int, prec: int, f: Flags)
    returns (r: Option<nat>)
    requires end < buf.Length
    modifies buf
    ensures !(2 <= base <= 36) ==> r == None && buf[..] == old(buf[..])
    ensures 2 <= base <= 36 ==>
      var text := Text(num, base, width, prec, f);
      r == Some(start + |text|) && Written(old(buf[..]), buf[..], start, end, text)
  {
    if base < 2 || base > 36 {
      return None;
    }
    hide Written, Layout, Spelled, Repeat, DigitSet, Printed, SignText, PrefixText, Text, Padding;
    var size, precision := width, prec;
    var sign, prefix := SignText(num, f), PrefixText(base, f);
    size := size - |sign| - |prefix|;
    var tmp, i := Digits(num, base, precision, f);
    if i > precision {
      precision := i;
    }
    size := size - precision;
    TextIs(num, base, width, prec, f, precision, size);
    var pos := PutNumber(buf, start, end, sign, prefix, tmp, i, precision, size, f);
    return Some(pos);
  }

  /** A precision below the number of digits asks for no zeros. */
  lemma TextIs(num: Long, base: nat, width: int, prec: int, f: Flags, precision: int, padding: int)
    requires 2 <= base <= 36 && precision == Max(|Printed(num, base, prec, f)|, prec)
    requires padding == width - |SignText(num, f)| - |PrefixText(base, f)| - precision
    ensures Text(num, base, width, prec, f)
         == Layout(SignText(num, f), PrefixText(base, f), Printed(num, base, prec, f), precision, padding, f)
  {
    hide Printed, SignText, PrefixText, Spelled;
    var d := Printed(num, base, prec, f);
    assert Repeat('0', precision - |d|) == Repeat('0', prec - |d|);
  }

  /** The part of number() that writes; `size` is what remains of the width as padding. */
  method PutNumber(buf: array<char>, start: nat, end: int, sign: string, prefix: string, tmp: array<nat>, i: nat,
                   precision: int, padding: int, f: Flags)
    returns (pos: nat)
    requires end < buf.Length && i <= tmp.Length && precision >= i && forall k :: 0 <= k < i ==> tmp[k] < 36
    modifies buf
    ensures var text := Layout(sign, prefix, tmp[..i], precision, padding, f);
      pos == start + |text| && Written(old(buf[..]), buf[..], start, end, text)
  {
    hide Written, Spelled, Repeat;
    ghost var b0, d := buf[..], tmp[..i];
    var size := padding;
    pos := start;
    ghost var text := "";
    WrittenNothing(b0, start, end);
    ghost var front, middle, behind := if f.left || f.zeroPad then 0 else padding,
      if f.zeroPad && !f.left then padding else 0, if f.left then padding else 0;
    if !(f.zeroPad || f.left) {
      pos := Fill(buf, pos, end, ' ', size, b0, start, "");
      size := -1;
    }
    NoRepeat(' ');
    NoRepeat('0');
    text := Repeat(' ', front);
    assert "" + text == text;
    pos := PutText(buf, pos, end, sign, b0, start, text);
    pos := PutText(buf, pos, end, prefix, b0, start, text + sign);
    text := text + sign + prefix;
    if !f.left {
      pos := Fill(buf, pos, end, if f.zeroPad then '0' else ' ', size, b0, start, text);
      NegativeRepeat(size);
      size := -1;
    }
    assert text + "" == text;
    text := text + Repeat('0', middle);
    pos := Fill(buf, pos, end, '0', precision - i, b0, start, text);
    text := text + Repeat('0', precision - i);
    pos := PutDigits(buf, pos, end, tmp, i, d, f, b0, start, text);
    text := text + Spelled(d, f);
    pos := Fill(buf, pos, end, ' ', size, b0, start, text);
    NegativeRepeat(size);
    assert text + Repeat(' ', behind) == Layout(sign, prefix, d, precision, padding, f);
  }

  lemma NoRepeat(c: char)
    ensures Repeat(c, 0) == ""
  {
  }

  lemma NegativeRepeat(n: int)
    ensures n <= 0 ==> Repeat(' ', n) == "" && Repeat('0', n) == ""
  {
  }

  lemma WrittenNothing(b: seq<char>, pos: nat, end: int)
    ensures Written(b, b, pos, end, "")
  {
  }

  method PutText(buf: array<char>, pos: nat, end: int, s: string, ghost before: seq<char>, ghost start: nat, ghost text: string)
    returns (next: nat)
    requires end < buf.Length && Written(before, buf[..], start, end, text) && pos == start + |text|
    modifies buf
    ensures next == pos + |s| && Written(before, buf[..], start, end, text + s)
  {
    hide Written;
    next := pos;
    assert text + s[..0] == text;
    for k := 0 to |s|
      invariant next == pos + k && Written(before, buf[..], start, end, text + s[..k])
    {
      next := Put(buf, next, end, s[k], before, start, text + s[..k]);
      assert text + s[..k] + [s[k]] == text + s[..k + 1];
    }
    assert s[..|s|] == s;
  }

  lemma SpelledAt(d: seq<nat>, f: Flags, k: nat)
    requires k < |d| && forall k :: 0 <= k < |d| ==> d[k] < 36
    ensures Spelled(d, f)[k] == DigitSet(f)[d[|d| - 1 - k]]
    ensures Spelled(d, f)[..k] + [DigitSet(f)[d[|d| - 1 - k]]] == Spelled(d, f)[..k + 1]
  {
  }

  /** The digits leave the scratch array, the first one first. */
  method PutDigits(buf: array<char>, pos: nat, end: int, tmp: array<nat>, n: nat, ghost d: seq<nat>, f: Flags,
                   ghost before: seq<char>, ghost start: nat, ghost text: string)
    returns (next: nat)
    requires end < buf.Length && Written(before, buf[..], start, end, text) && pos == start + |text|
    requires n <= tmp.Length && tmp[..n] == d && forall k :: 0 <= k < |d| ==> d[k] < 36
    modifies buf
    ensures next == pos + n && Written(before, buf[..], start, end, text + Spelled(d, f))
  {
    hide Written, Spelled, DigitSet;
    next := pos;
    var i := n;
    assert text + Spelled(d, f)[..0] == text;
    while i > 0
      invariant 0 <= i <= n && next == pos + (n - i) && tmp[..n] == d
      invariant Written(before, buf[..], start, end, text + Spelled(d, f)[..n - i])
    {
      i := i - 1;
      assert tmp[i] == d[i];
      SpelledAt(d, f, n - 1 - i);
      next := Put(buf, next, end, DigitSet(f)[tmp[i]], before, start, text + Spelled(d, f)[..n - 1 - i]);
      assert text + Spelled(d, f)[..n - 1 - i] + [DigitSet(f)[d[i]]] == text + Spelled(d, f)[..n - i];
    }
    assert Spelled(d, f)[..n] == Spelled(d, f);
  }
}
