/** What strtol of lab4/lib/string.c reads from any text: blanks, a sign, a prefix, digits in either case, and the
    rest; the value is the positional one, kept to 32 bits. */
module NumberReading {
  import opened Words
  import opened NumberText

  /** c is the digit d: 0 to 9, then the letters from a or A on. */
  predicate Means(c: char, d: nat) {
    if d < 10 then c as int == '0' as int + d
    else d < 36 && (c as int - 'a' as int == d - 10 || c as int - 'A' as int == d - 10)
  }

  predicate IsDigit(c: char, base: nat) { exists d: nat :: d < base && Means(c, d) }

  predicate Blank(c: char) { c == ' ' || c == '\t' }

  /** The number that digits ds stand for. */
  function Positional(ds: seq<nat>, base: nat): nat {
    if ds == [] then 0 else Positional(ds[..|ds| - 1], base) * base + ds[|ds| - 1]
  }

  /** Digits with the values ds. */
  predicate Spells(t: string, ds: seq<nat>, base: nat) {
    |ds| == |t| && forall i :: 0 <= i < |t| ==> ds[i] < base && Means(t[i], ds[i])
  }

  /** The prefix, given the base asked for, the text after it, and the base it makes. */
  predicate PrefixIs(prefix: string, asked: nat, after: string, base: nat) {
    || (prefix == "0x" && (asked == 0 || asked == 16) && base == 16)
    || (prefix == "0" && asked == 0 && base == 8 && !("x" <= after))
    || (prefix == "" && asked == 0 && base == 10 && !("0" <= after))
    || (prefix == "" && asked != 0 && base == asked && !(asked == 16 && "0x" <= after))
  }

  /** The parts of a text. */
  datatype Parts = Parts(blanks: string, sign: string, prefix: string, digits: string, rest: string)

  function Text(p: Parts): string { p.blanks + (p.sign + (p.prefix + (p.digits + p.rest))) }

  /** How strtol divides a text: nothing more belongs to any part. */
  ghost predicate Divided(p: Parts, asked: nat, base: nat) {
    && (forall i :: 0 <= i < |p.blanks| ==> Blank(p.blanks[i]))
    && (p.sign == "+" || p.sign == "-" || p.sign == "")
    && PrefixIs(p.prefix, asked, p.digits + p.rest, base)
    && (forall i :: 0 <= i < |p.digits| ==> IsDigit(p.digits[i], base))
    && (p.rest != [] ==> !IsDigit(p.rest[0], base))
    && (p.sign + p.prefix == [] && p.digits + p.rest != [] ==>
          var c := (p.digits + p.rest)[0]; !Blank(c) && c != '+' && c != '-')
  }

  /* ---- digits ---- */

  /** The three ranges of strtol are the 36 digits, in either case; every other character has the value 99. */
  lemma DigitValueIs(c: char, d: nat)
    ensures Means(c, d) <==> d < 36 && DigitValue(c) == d
    ensures DigitValue(c) < 36 || DigitValue(c) == 99
  {
  }

  lemma DigitBelow(c: char, base: nat)
    requires base <= 99
    ensures IsDigit(c, base) <==> DigitValue(c) < base
  {
    DigitValueIs(c, DigitValue(c));
    forall d: nat | d < base && Means(c, d) ensures DigitValue(c) < base { DigitValueIs(c, d); }
    hide DigitValue, Means;
  }

  /* ---- 32-bit arithmetic ---- */

  lemma WrapSame(x: int, y: int)
    requires (x - y) % 0x1_0000_0000 == 0
    ensures Wrap32(x) == Wrap32(y)
  {
  }

  lemma WrapQuotient(x: int) returns (q: int)
    ensures Wrap32(x) == x + q * 0x1_0000_0000
  {
    q := -((x + 0x8000_0000) / 0x1_0000_0000);
  }

  lemma WrapStep(v: int, base: nat, d: nat)
    ensures Wrap32(Wrap32(v) * base + d) == Wrap32(v * base + d)
  {
    var q := WrapQuotient(v);
    assert (Wrap32(v) * base + d) - (v * base + d) == (q * base) * 0x1_0000_0000;
    WrapSame(Wrap32(v) * base + d, v * base + d);
    hide Wrap32;
  }

  lemma WrapMinus(v: int)
    ensures Negated(Wrap32(v)) == Wrap32(-v)
  {
    var w: int := Wrap32(v);
    var q := WrapQuotient(v);
    assert -w - -v == (-q) * 0x1_0000_0000;
    WrapSame(-w, -v);
    hide Wrap32;
  }

  /** The digit loop keeps the positional value to 32 bits. */
  lemma {:induction false} DigitsValue(t: string, ds: seq<nat>, base: nat, done: seq<nat>)
    requires base <= 99 && Spells(t, ds, base)
    ensures Digits(t, base, Wrap32(Positional(done, base))) == (Wrap32(Positional(done + ds, base)), |t|)
    decreases |t|
  {
    hide Wrap32, DigitValue, Means;
    if t == [] {
      assert done + ds == done;
    } else {
      DigitValueIs(t[0], ds[0]);
      var more := done + [ds[0]];
      assert more[..|more| - 1] == done;
      WrapStep(Positional(done, base), base, ds[0]);
      DigitsValue(t[1..], ds[1..], base, more);
      assert more + ds[1..] == done + ds;
    }
  }

  lemma DigitsNone(rest: string, base: nat, val: Long)
    requires base <= 99 && (rest != [] ==> !IsDigit(rest[0], base))
    ensures Digits(rest, base, val) == (val, 0)
  {
    if rest != [] { DigitBelow(rest[0], base); }
    hide DigitValue, IsDigit;
  }

  lemma DigitsStop(t: string, ds: seq<nat>, rest: string, base: nat)
    requires base <= 99 && Spells(t, ds, base) && (rest != [] ==> !IsDigit(rest[0], base))
    ensures Digits(t + rest, base, 0) == (Wrap32(Positional(ds, base)), |t|)
  {
    hide *;
    NoneDone(base);
    DigitsValue(t, ds, base, []);
    assert [] + ds == ds;
    SpelledDigits(t, ds, base);
    DigitsThen(t, rest, base, 0);
    DigitsNone(rest, base, Digits(t, base, 0).0);
  }

  lemma NoneDone(base: nat)
    ensures Wrap32(Positional([], base)) == 0
  {
  }

  lemma SpelledDigits(t: string, ds: seq<nat>, base: nat)
    requires Spells(t, ds, base)
    ensures AllDigits(t, base)
  {
    forall i | 0 <= i < |t| ensures DigitValue(t[i]) < base { DigitValueIs(t[i], ds[i]); }
    hide DigitValue, Means;
  }

  /* ---- the parts of a text ---- */

  lemma {:induction false} BlanksEnd(blanks: string, t: string)
    requires (forall i :: 0 <= i < |blanks| ==> Blank(blanks[i])) && (t == [] || !Blank(t[0]))
    ensures Blanks(blanks + t) == |blanks|
    decreases |blanks|
  {
    var s := blanks + t;
    if blanks == [] {
      assert s == t;
    } else {
      assert s[1..] == blanks[1..] + t && s[0] == blanks[0];
      BlanksEnd(blanks[1..], t);
    }
  }

  lemma PrefixReads(prefix: string, asked: nat, after: string, base: nat)
    requires asked <= 99 && PrefixIs(prefix, asked, after, base)
    ensures Prefix(prefix + after, asked) == (|prefix|, base) && base <= 99
  {
    var t := prefix + after;
    if prefix == "" { assert t == after; }
    else if prefix == "0" { assert t[0] == '0' && t[1..] == after; }
    else { assert t[0] == '0' && t[1] == 'x'; }
  }

  /** The sign is what strtol takes for one. */
  lemma SignReads(p: Parts, asked: nat, base: nat)
    requires Divided(p, asked, base)
    ensures var (s, i) := (Text(p), |p.blanks|);
            && Blanks(s) == i
            && (p.sign == "+" || p.sign == "-" || p.sign == "")
            && (i < |s| && s[i] == '+' <==> p.sign == "+") && (i < |s| && s[i] == '-' <==> p.sign == "-")
            && s[i + |p.sign|..] == p.prefix + (p.digits + p.rest)
            && s[i + |p.sign| + |p.prefix|..] == p.digits + p.rest
            && |s| == i + |p.sign| + |p.prefix| + |p.digits| + |p.rest|
  {
    hide *;
    DividedIs(p, asked, base);
    FirstPlain(p, asked, base);
    TextIs(p);
    Layers(p.blanks, p.sign, p.prefix, p.digits + p.rest);
    BlanksEnd(p.blanks, p.sign + (p.prefix + (p.digits + p.rest)));
  }

  lemma Layers(a: string, b: string, c: string, d: string)
    ensures var s := a + (b + (c + d));
            && |s| == |a| + |b| + |c| + |d|
            && s[|a| + |b|..] == c + d && s[|a| + |b| + |c|..] == d
            && (|a| < |s| <==> b + (c + d) != []) && (|a| < |s| ==> s[|a|] == (b + (c + d))[0])
  {
    var u := c + d;
    var t := b + u;
    var s := a + t;
    Joined(a, t);
    Joined(b, u);
    Joined(c, d);
    assert s[|a| + |b|..] == u by { DropAgain(s, |a|, |b|); }
    assert s[|a| + |b| + |c|..] == d by { DropAgain(s, |a| + |b|, |c|); }
  }

  lemma Joined(a: string, b: string)
    ensures |a + b| == |a| + |b| && (a + b)[|a|..] == b
    ensures |a| < |a + b| ==> (a + b)[|a|] == b[0]
  {
  }

  lemma DropAgain(s: string, i: nat, j: nat)
    requires i + j <= |s|
    ensures s[i..][j..] == s[i + j..]
  {
  }

  lemma Rejoined(s: string, i: nat)
    requires i <= |s|
    ensures s[..i] + s[i..] == s
  {
  }

  lemma DividedIs(p: Parts, asked: nat, base: nat)
    requires Divided(p, asked, base)
    ensures forall i :: 0 <= i < |p.blanks| ==> Blank(p.blanks[i])
    ensures p.sign == "+" || p.sign == "-" || p.sign == ""
    ensures PrefixIs(p.prefix, asked, p.digits + p.rest, base) && (p.rest != [] ==> !IsDigit(p.rest[0], base))
  {
    hide Blank, IsDigit, PrefixIs;
  }

  lemma TextIs(p: Parts)
    ensures Text(p) == p.blanks + (p.sign + (p.prefix + (p.digits + p.rest)))
  {
  }

  lemma FirstPlain(p: Parts, asked: nat, base: nat)
    requires Divided(p, asked, base)
    ensures var t := p.sign + (p.prefix + (p.digits + p.rest));
            t != [] ==> !Blank(t[0]) && (t[0] == '+' <==> p.sign == "+") && (t[0] == '-' <==> p.sign == "-")
  {
    hide IsDigit;
    var t := p.sign + (p.prefix + (p.digits + p.rest));
    if p.sign == "" {
      assert t == p.prefix + (p.digits + p.rest);
      if p.prefix == "" { assert t == p.digits + p.rest; }
    }
  }

  /** strtol on any text: it reads up to the first character that is no digit, and returns the number that the digits
      stand for, negated after a minus sign, kept to 32 bits. */
  lemma StrTolReads(p: Parts, ds: seq<nat>, asked: nat, base: nat)
    requires asked <= 99 && Divided(p, asked, base) && Spells(p.digits, ds, base)
    ensures StrTol(Text(p), asked) ==
              (Wrap32(if p.sign == "-" then 0 - Positional(ds, base) else Positional(ds, base)),
               |p.blanks| + |p.sign| + |p.prefix| + |p.digits|)
  {
    hide *;
    DividedIs(p, asked, base);
    SignReads(p, asked, base);
    PrefixReads(p.prefix, asked, p.digits + p.rest, base);
    DigitsStop(p.digits, ds, p.rest, base);
    StrTolForm(Text(p), asked, |p.blanks| + |p.sign|, p.sign == "-");
    WrapMinus(Positional(ds, base));
  }

  /* ---- every text has such parts ---- */

  lemma {:induction false} BlanksBlank(s: string)
    ensures var n := Blanks(s); (forall i :: 0 <= i < n ==> Blank(s[i])) && (n < |s| ==> !Blank(s[n]))
  {
    if s != [] && Blank(s[0]) { BlanksBlank(s[1..]); }
  }

  lemma {:induction false} DigitRun(s: string, base: nat) returns (n: nat, ds: seq<nat>)
    requires base <= 99
    ensures n <= |s| && Spells(s[..n], ds, base) && (n < |s| ==> !IsDigit(s[n], base))
  {
    hide Means;
    if s != [] && IsDigit(s[0], base) {
      var d: nat :| d < base && Means(s[0], d);
      var m, es := DigitRun(s[1..], base);
      n, ds := m + 1, [d] + es;
      assert s[..n] == [s[0]] + s[1..][..m];
    } else {
      n, ds := 0, [];
    }
  }

  lemma PrefixOf(s: string, asked: nat) returns (n: nat, base: nat)
    requires asked <= 99
    ensures n <= |s| && base <= 99 && PrefixIs(s[..n], asked, s[n..], base)
  {
    if (asked == 0 || asked == 16) && "0x" <= s { n, base := 2, 16; }
    else if asked == 0 && "0" <= s {
      n, base := 1, 8;
      assert "x" <= s[1..] ==> "0x" <= s;
    }
    else { n, base := 0, if asked == 0 then 10 else asked; assert s[0..] == s; }
  }

  /** The part of a text after blanks and sign. */
  lemma Tail(u: string, asked: nat) returns (p: Parts, ds: seq<nat>, base: nat)
    requires asked <= 99
    ensures p.prefix + (p.digits + p.rest) == u && PrefixIs(p.prefix, asked, p.digits + p.rest, base)
    ensures (forall i :: 0 <= i < |p.digits| ==> IsDigit(p.digits[i], base)) && (p.rest != [] ==> !IsDigit(p.rest[0], base))
    ensures Spells(p.digits, ds, base)
  {
    hide *;
    var n, m;
    n, base := PrefixOf(u, asked);
    var v := u[n..];
    m, ds := DigitRun(v, base);
    Rejoined(u, n);
    Rejoined(v, m);
    p := Parts("", "", u[..n], v[..m], v[m..]);
    SpelledAre(p.digits, ds, base);
  }

  lemma SpelledAre(t: string, ds: seq<nat>, base: nat)
    requires Spells(t, ds, base)
    ensures forall i :: 0 <= i < |t| ==> IsDigit(t[i], base)
  {
    hide Means;
    forall i | 0 <= i < |t| ensures IsDigit(t[i], base) { assert Means(t[i], ds[i]); }
  }

  /** So the theorem above is about every text. */
  lemma EveryTextDivides(s: string, asked: nat) returns (p: Parts, ds: seq<nat>, base: nat)
    requires asked <= 99
    ensures Text(p) == s && Divided(p, asked, base) && Spells(p.digits, ds, base)
  {
    hide *;
    BlanksBlank(s);
    var i := Blanks(s);
    var t := s[i..];
    var k := if t != [] && (t[0] == '+' || t[0] == '-') then 1 else 0;
    p, ds, base := Tail(t[k..], asked);
    p := p.(blanks := s[..i], sign := t[..k]);
    Rejoined(t, k);
    Rejoined(s, i);
    TextIs(p);
    PartsDivide(p, asked, base, t);
  }

  lemma PartsDivide(p: Parts, asked: nat, base: nat, t: string)
    requires (forall i :: 0 <= i < |p.blanks| ==> Blank(p.blanks[i])) && (t != [] ==> !Blank(t[0]))
    requires t == p.sign + (p.prefix + (p.digits + p.rest)) && |p.sign| == (if t != [] && (t[0] == '+' || t[0] == '-') then 1 else 0)
    requires PrefixIs(p.prefix, asked, p.digits + p.rest, base)
    requires (forall i :: 0 <= i < |p.digits| ==> IsDigit(p.digits[i], base)) && (p.rest != [] ==> !IsDigit(p.rest[0], base))
    ensures Divided(p, asked, base)
  {
    hide IsDigit, PrefixIs;
    if p.sign == [] { assert t == p.prefix + (p.digits + p.rest); } else { assert t[0] == p.sign[0] && p.sign == [t[0]]; }
    if p.sign + p.prefix == [] { assert p.sign == [] && p.prefix == [] && t == p.digits + p.rest; }
  }
}
