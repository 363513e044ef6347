/** printnum of lab4/lib/printfmt.c and strtol of lab4/lib/string.c: printing then parsing is the
    identity. */
module NumberText {
  import opened Words

  type Base = b: nat | 2 <= b <= 16 witness 10

  /* ---- printnum ---- */

  function Digit(d: nat): char
    requires d < 16
  {
    "0123456789abcdef"[d]
  }

  /** The pad characters of "while (--width > 0)". */
  function Pads(width: int, pad: char): string
    decreases width
  {
    if width <= 1 then [] else [pad] + Pads(width - 1, pad)
  }

  /** The characters that printnum emits. */
  function PrintNum(num: nat, base: Base, width: int, pad: char): string
    decreases num
  {
    if num >= base then PrintNum(num / base, base, width - 1, pad) + [Digit(num % base)]
    else Pads(width, pad) + [Digit(num % base)]
  }

  method PrintNumber(num: nat, base: Base, width: int, pad: char, out: string) returns (out': string)
    ensures out' == out + PrintNum(num, base, width, pad)
    decreases num
  {
    hide Digit, Pads;
    if num >= base {
      Shrinks(num, base);
      out' := PrintNumber(num / base, base, width - 1, pad, out);
      assert out' + [Digit(num % base)] == out + PrintNum(num, base, width, pad);
    } else {
      out' := PutPads(width, pad, out);
      assert out' + [Digit(num % base)] == out + PrintNum(num, base, width, pad);
    }
    out' := out' + [Digit(num % base)];
  }

  /** The padding loop. */
  method PutPads(width: int, pad: char, out: string) returns (out': string)
    ensures out' == out + Pads(width, pad)
  {
    out' := out;
    var w := width - 1;
    while w > 0
      invariant out' + Pads(w + 1, pad) == out + Pads(width, pad)
      decreases w
    {
      assert out' + ([pad] + Pads(w, pad)) == out' + [pad] + Pads(w, pad);
      out' := out' + [pad];
      w := w - 1;
    }
  }

  /* ---- strtol ---- */

  function Blanks(s: string): (n: nat)
    ensures n <= |s|
  {
    if s != [] && (s[0] == ' ' || s[0] == '\t') then 1 + Blanks(s[1..]) else 0
  }

  /** The value of a digit or letter; 99 for any other character. */
  function DigitValue(c: char): nat {
    if '0' <= c <= '9' then c as int - '0' as int
    else if 'a' <= c <= 'z' then c as int - 'a' as int + 10
    else if 'A' <= c <= 'Z' then c as int - 'A' as int + 10
    else 99
  }

  /** The digit loop: the value and how many characters it takes. */
  function Digits(s: string, base: nat, val: Long): (r: (Long, nat))
    requires base <= 99
    ensures r.1 <= |s|
    decreases |s|
  {
    if s == [] || DigitValue(s[0]) >= base then (val, 0)
    else
      var r := Digits(s[1..], base, Wrap32(val * base + DigitValue(s[0])));
      (r.0, r.1 + 1)
  }

  /** How many characters an "0x" or "0" prefix takes, and the base to use. */
  function Prefix(s: string, base: nat): (r: (nat, nat))
    ensures r.0 <= |s| && (base <= 99 ==> r.1 <= 99)
  {
    if (base == 0 || base == 16) && |s| >= 2 && s[0] == '0' && s[1] == 'x' then (2, 16)
    else if base == 0 && s != [] && s[0] == '0' then (1, 8)
    else if base == 0 then (0, 10)
    else (0, base)
  }

  /** strtol: the value, and where *endptr points. */
  function StrTol(s: string, base: nat): (r: (Long, nat))
    requires base <= 99
    ensures r.1 <= |s|
  {
    var i := Blanks(s);
    var signed := i < |s| && (s[i] == '+' || s[i] == '-');
    var j := if signed then i + 1 else i;
    var (skip, b) := Prefix(s[j..], base);
    var (val, n) := Digits(s[j + skip..], b, 0);
    (if signed && s[i] == '-' then Negated(val) else val, j + skip + n)
  }

  function Negated(val: int): Long { Wrap32(-val) }

  /** The whitespace loop. */
  method GobbleBlanks(s: string) returns (i: nat)
    ensures i == Blanks(s)
  {
    i := 0;
    while i < |s| && (s[i] == ' ' || s[i] == '\t')
      invariant i <= |s| && i + Blanks(s[i..]) == Blanks(s)
    {
      assert s[i..][1..] == s[i + 1..];
      i := i + 1;
    }
  }

  /** The digit loop. */
  method ParseDigits(s: string, start: nat, base: nat) returns (val: Long, end: nat)
    requires start <= |s| && base <= 99
    ensures (val, end - start) == Digits(s[start..], base, 0)
  {
    hide Wrap32, DigitValue;
    var i := start;
    val := 0;
    while i < |s| && DigitValue(s[i]) < base
      invariant start <= i <= |s|
      invariant var (r, all) := (Digits(s[i..], base, val), Digits(s[start..], base, 0)); r.0 == all.0 && i + r.1 == start + all.1
    {
      assert s[i..][1..] == s[i + 1..] && s[i..][0] == s[i];
      val := Wrap32(val * base + DigitValue(s[i]));
      i := i + 1;
    }
    assert if i < |s| then s[i..][0] == s[i] else s[i..] == [];
    end := i;
  }

  /** The prefix at position j of s. */
  lemma PrefixAt(s: string, j: nat, base: nat)
    requires j <= |s| && base <= 99
    ensures Prefix(s[j..], base) == if (base == 0 || base == 16) && j + 1 < |s| && s[j] == '0' && s[j + 1] == 'x' then (2, 16)
                                    else if base == 0 && j < |s| && s[j] == '0' then (1, 8)
                                    else if base == 0 then (0, 10)
                                    else (0, base)
  {
  }

  /** strtol after blanks and sign. */
  lemma StrTolForm(s: string, base: nat, j: nat, neg: bool)
    requires base <= 99 && j <= |s|
    requires var i := Blanks(s);
             && (neg <==> i < |s| && s[i] == '-')
             && j == if i < |s| && (s[i] == '+' || s[i] == '-') then i + 1 else i
    ensures var (skip, b) := Prefix(s[j..], base);
            && j + skip <= |s| && b <= 99
            && var (val, n) := Digits(s[j + skip..], b, 0);
               StrTol(s, base) == (if neg then Negated(val) else val, j + skip + n)
  {
    hide Blanks, Prefix, Digits, Negated;
  }

  method ParseLong(s: string, base0: nat) returns (val: Long, end: nat)
    requires base0 <= 99
    ensures (val, end) == StrTol(s, base0)
  {
    hide Wrap32, DigitValue, Digits, Blanks, StrTol, Prefix, Negated;
    var i := GobbleBlanks(s);
    var base, neg := base0, false;
    if i < |s| && s[i] == '+' { i := i + 1; }
    else if i < |s| && s[i] == '-' { i, neg := i + 1, true; }
    PrefixAt(s, i, base0);
    StrTolForm(s, base0, i, neg);
    if (base == 0 || base == 16) && i + 1 < |s| && s[i] == '0' && s[i + 1] == 'x' { i, base := i + 2, 16; }
    else if base == 0 && i < |s| && s[i] == '0' { i, base := i + 1, 8; }
    else if base == 0 { base := 10; }
    val, end := ParseDigits(s, i, base);
    if neg { val := Negated(val); }
  }

  /* ---- the digits of a number ---- */

  function DigitsOf(num: nat, base: Base): (t: string)
    ensures t != []
    decreases num
  {
    if num >= base then DigitsOf(num / base, base) + [Digit(num % base)] else [Digit(num)]
  }

  function Repeat(c: char, n: nat): (t: string) { seq(n, _ => c) }

  lemma {:induction false} PadsAre(width: int, pad: char)
    ensures Pads(width, pad) == Repeat(pad, if width <= 1 then 0 else width - 1)
    decreases width
  {
    if width > 1 {
      PadsAre(width - 1, pad);
      assert [pad] + Repeat(pad, width - 2) == Repeat(pad, width - 1);
    }
  }

  /** printnum emits the padding and then the digits. */
  lemma {:induction false} PrintedForm(num: nat, base: Base, width: int, pad: char)
    ensures var d := DigitsOf(num, base);
            PrintNum(num, base, width, pad) == Repeat(pad, if width <= |d| then 0 else width - |d|) + d
    decreases num
  {
    hide Digit;
    if num >= base {
      PrintedForm(num / base, base, width - 1, pad);
    } else {
      PadsAre(width, pad);
      assert num % base == num;
    }
  }

  /** Its length is the larger of the width and the number of digits. */
  lemma PrintedLength(num: nat, base: Base, width: int, pad: char)
    ensures var n := |DigitsOf(num, base)|; |PrintNum(num, base, width, pad)| == if width > n then width else n
  {
    PrintedForm(num, base, width, pad);
  }

  /** n digits are enough exactly for numbers below base to the n. */
  lemma {:induction false} DigitCount(num: nat, base: Base, n: nat)
    ensures |DigitsOf(num, base)| <= n <==> n > 0 && num < Power(base, n)
    decreases num
  {
    hide *;
    DigitsForm(num, base);
    if n > 0 {
      PowerForm(base, n);
      QuotientBelow(num, base, Power(base, n - 1));
      PowerGrows(base, n - 1);
      if num >= base {
        DigitCount(num / base, base, n - 1);
        if n == 1 { PowerForm(base, 0); }
      }
    }
  }

  lemma PowerForm(base: Base, n: nat)
    ensures Power(base, n) == if n == 0 then 1 else base * Power(base, n - 1)
  {
  }

  lemma DigitsForm(num: nat, base: Base)
    ensures num >= base ==> 1 <= num / base < num && |DigitsOf(num, base)| == |DigitsOf(num / base, base)| + 1 >= 2
    ensures num < base ==> |DigitsOf(num, base)| == 1 && num / base == 0
  {
    hide Digit;
    DivMod(num, base);
    if num >= base { Shrinks(num, base); }
  }

  lemma Shrinks(num: nat, base: Base)
    requires num >= base
    ensures 1 <= num / base < num
  {
    var q := num / base;
    assert num == base * q + num % base;
    assert base * q >= 2 * q;
  }

  lemma QuotientBelow(num: nat, base: Base, p: nat)
    ensures num / base < p <==> num < base * p
  {
    var q := num / base;
    assert num == base * q + num % base;
    if q < p { assert base * (q + 1) <= base * p; } else { assert base * q >= base * p; }
  }

  function Power(base: Base, n: nat): nat { if n == 0 then 1 else base * Power(base, n - 1) }

  lemma {:induction false} PowerGrows(base: Base, n: nat)
    ensures Power(base, n) >= 1
  {
    if n > 0 { PowerGrows(base, n - 1); }
  }

  /* ---- parsing what was printed ---- */

  lemma DigitParses(d: nat, base: Base)
    requires d < base
    ensures DigitValue(Digit(d)) == d && Digit(d) != ' ' && Digit(d) != '\t' && Digit(d) != '+' && Digit(d) != '-' && Digit(d) != 'x'
  {
  }

  lemma Fits(x: int)
    requires 0 <= x < 0x8000_0000
    ensures Wrap32(x) == x
  {
  }

  predicate AllDigits(t: string, base: nat) { forall i :: 0 <= i < |t| ==> DigitValue(t[i]) < base }

  /** The digit loop goes through digits and on. */
  lemma {:induction false} DigitsThen(t: string, u: string, base: nat, val: Long)
    requires base <= 99 && AllDigits(t, base)
    ensures Digits(t, base, val).1 == |t|
    ensures Digits(t + u, base, val) == (Digits(u, base, Digits(t, base, val).0).0, |t| + Digits(u, base, Digits(t, base, val).0).1)
    decreases |t|
  {
    hide Wrap32, DigitValue;
    if t == [] {
      assert t + u == u;
    } else {
      assert (t + u)[1..] == t[1..] + u;
      DigitsThen(t[1..], u, base, Wrap32(val * base + DigitValue(t[0])));
    }
  }

  lemma {:induction false} DigitsBack(num: nat, base: Base)
    requires num < 0x8000_0000
    ensures AllDigits(DigitsOf(num, base), base) && Digits(DigitsOf(num, base), base, 0) == (num, |DigitsOf(num, base)|)
    decreases num
  {
    hide Digit, DigitValue, Wrap32, Digits, AllDigits;
    var (q, d) := (num / base, num % base);
    DigitParses(d, base);
    DivMod(num, base);
    AllDigitsOf(num, base);
    if num >= base {
      DigitsBack(q, base);
      DigitsThen(DigitsOf(q, base), [Digit(d)], base, 0);
      Fits(num);
      OneDigit(Digit(d), base, q);
    } else {
      Fits(num);
      OneDigit(Digit(d), base, 0);
    }
  }

  lemma DivMod(num: nat, base: Base)
    ensures num == num / base * base + num % base && num / base <= num && num % base < base
    ensures num < base ==> num / base == 0 && num % base == num
  {
  }

  lemma {:induction false} AllDigitsOf(num: nat, base: Base)
    ensures AllDigits(DigitsOf(num, base), base)
    decreases num
  {
    DigitParses(num % base, base);
    DivMod(num, base);
    hide Digit, DigitValue;
    if num >= base { AllDigitsOf(num / base, base); }
  }

  lemma OneDigit(c: char, base: nat, val: Long)
    requires base <= 99 && DigitValue(c) < base
    ensures Digits([c], base, val) == (Wrap32(val * base + DigitValue(c)), 1)
  {
    hide Wrap32, DigitValue;
    assert [c][1..] == [];
  }

  /** Leading zeros change nothing. */
  lemma {:induction false} ZerosBack(n: nat, t: string, base: Base)
    ensures Digits(Repeat('0', n) + t, base, 0) == (Digits(t, base, 0).0, n + Digits(t, base, 0).1)
    decreases n
  {
    if n == 0 {
      assert Repeat('0', 0) + t == t;
    } else {
      var z := Repeat('0', n) + t;
      assert z[1..] == Repeat('0', n - 1) + t && z[0] == '0';
      ZerosBack(n - 1, t, base);
    }
  }

  lemma {:induction false} BlanksBack(n: nat, t: string)
    requires t == [] || (t[0] != ' ' && t[0] != '\t')
    ensures Blanks(Repeat(' ', n) + t) == n && (Repeat(' ', n) + t)[n..] == t
    decreases n
  {
    if n == 0 {
      assert Repeat(' ', 0) + t == t;
    } else {
      var z := Repeat(' ', n) + t;
      assert z[1..] == Repeat(' ', n - 1) + t && z[0] == ' ';
      BlanksBack(n - 1, t);
    }
  }

  predicate PlainChar(c: char) { c != ' ' && c != '\t' && c != '+' && c != '-' && c != 'x' }

  predicate PlainDigits(t: string) { t != [] && forall i :: 0 <= i < |t| ==> PlainChar(t[i]) }

  /** Text of digits only, without sign or prefix, goes straight to the digit loop. */
  lemma PlainText(n: nat, t: string, base: Base)
    requires PlainDigits(t)
    ensures StrTol(Repeat(' ', n) + t, base) == (Digits(t, base, 0).0, n + Digits(t, base, 0).1)
  {
    var s := Repeat(' ', n) + t;
    assert PlainChar(t[0]);
    BlanksBack(n, t);
    assert s[n..][0..] == t && s[n] == t[0];
    NoPrefix(t, base);
    hide Digits, Blanks, Prefix, Repeat;
    assert s[n + 0..] == t;
  }

  lemma NoPrefix(t: string, base: Base)
    requires PlainDigits(t)
    ensures Prefix(t, base) == (0, base)
  {
    if |t| >= 2 { assert PlainChar(t[1]); }
  }

  lemma {:induction false} DigitsPlain(num: nat, base: Base)
    ensures PlainDigits(DigitsOf(num, base))
    decreases num
  {
    DigitParses(num % base, base);
    DivMod(num, base);
    hide Digit, DigitValue;
    if num >= base { DigitsPlain(num / base, base); }
  }

  lemma ZerosPlain(k: nat, d: string)
    requires PlainDigits(d)
    ensures PlainDigits(Repeat('0', k) + d)
  {
  }

  /** strtol on printnum's output with the same base returns the number and takes all of the text, for
      every base that printnum has digits for, any width, and blanks or zeros as padding. */
  lemma PrintThenParse(num: nat, base: Base, width: int, pad: char)
    requires num < 0x8000_0000 && (pad == ' ' || pad == '0')
    ensures var s := PrintNum(num, base, width, pad); StrTol(s, base) == (num, |s|)
  {
    hide *;
    var (s, d) := (PrintNum(num, base, width, pad), DigitsOf(num, base));
    var k := if width <= |d| then 0 else width - |d|;
    PrintedForm(num, base, width, pad);
    DigitsBack(num, base);
    DigitsPlain(num, base);
    RepeatLength(pad, k);
    if pad == ' ' {
      PlainText(k, d, base);
    } else {
      ZerosBack(k, d, base);
      ZerosPlain(k, d);
      PlainText(0, s, base);
      RepeatLength(' ', 0);
      assert Repeat(' ', 0) + s == s;
    }
  }

  lemma RepeatLength(c: char, k: nat)
    ensures |Repeat(c, k)| == k
  {
  }
}
