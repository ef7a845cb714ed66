/** The Calculator: fixed-point numbers of four decimals, typed and shown as text. */
module Calculator {
  import opened Numbers

  const CALC_SCALE := 10000
  const DISPLAY_SIZE := 24
  const INT64_MAX := 0x7fff_ffff_ffff_ffff

  type int64 = x: int | -0x8000_0000_0000_0000 <= x <= 0x7fff_ffff_ffff_ffff

  /** An `int64` that can also be negated. */
  predicate InRange(v: int) {
    -INT64_MAX <= v <= INT64_MAX
  }

  predicate IsDigit(c: char) {
    '0' <= c <= '9'
  }

  function DigitOf(c: char): nat
    requires IsDigit(c)
  {
    c as int - '0' as int
  }

  function DigitChar(d: nat): (c: char)
    requires d < 10
    ensures c == "0123456789"[d]
  {
    '0' + d as char
  }

  // ---- what a text means ----

  /** What has been read so far: the whole part, the decimals and ten to their number, and whether a dot was seen. */
  datatype Scan = Scan(whole: nat, frac: nat, scale: nat, dot: bool)

  const START := Scan(0, 0, 1, false)

  /** Characters other than digits and dots are skipped, and so are decimals past the fourth. */
  function Step(s: Scan, c: char): Scan {
    if c == '.' then s.(dot := true)
    else if !IsDigit(c) then s
    else if !s.dot then s.(whole := s.whole * 10 + DigitOf(c))
    else if s.scale < CALC_SCALE then s.(scale := s.scale * 10, frac := s.frac * 10 + DigitOf(c))
    else s
  }

  function ScanFrom(s: Scan, text: string): Scan {
    if text == [] then s else Step(ScanFrom(s, text[..|text| - 1]), text[|text| - 1])
  }

  predicate Scanned(s: Scan) {
    s.scale in {1, 10, 100, 1000, 10000} && s.frac < s.scale
  }

  function Magnitude(s: Scan): nat
    requires s.scale > 0
  {
    s.whole * CALC_SCALE + (s.frac * CALC_SCALE) / s.scale
  }

  lemma {:induction false} ScanIsSound(text: string)
    ensures Scanned(ScanFrom(START, text))
  {
    if text != [] { ScanIsSound(text[..|text| - 1]); }
  }

  /** The number a text stands for, in ten-thousandths. */
  function Value(text: string): int {
    ScanIsSound(if text != [] && text[0] == '-' then text[1..] else text);
    if text != [] && text[0] == '-' then 0 - Magnitude(ScanFrom(START, text[1..]))
    else Magnitude(ScanFrom(START, text))
  }

  lemma ScanConcat(s: Scan, a: string, b: string)
    ensures ScanFrom(s, a + b) == ScanFrom(ScanFrom(s, a), b)
  {
    if b == [] {
      assert a + b == a;
    } else {
      assert (a + b)[..|a + b| - 1] == a + b[..|b| - 1];
      ScanConcat(s, a, b[..|b| - 1]);
    }
  }

  // ---- how a number is written ----

  /** Decimal digits without leading zeros; nothing at all for zero. */
  function Digits(n: nat): string {
    if n == 0 then "" else Digits(n / 10) + [DigitChar(n % 10)]
  }

  function Decimal(n: nat): string {
    if n == 0 then "0" else Digits(n)
  }

  function FourDigits(f: nat): string
    requires f < 10000
  {
    [DigitChar(f / 10 / 10 / 10), DigitChar(f / 10 / 10 % 10), DigitChar(f / 10 % 10), DigitChar(f % 10)]
  }

  /** Without trailing zeros, but never empty. */
  function Trim(s: string): string {
    if |s| > 1 && s[|s| - 1] == '0' then Trim(s[..|s| - 1]) else s
  }

  function Fraction(f: nat): string
    requires f < 10000
  {
    if f == 0 then "" else "." + Trim(FourDigits(f))
  }

  function Format(v: int): string {
    var m := if v < 0 then -v else v;
    (if v < 0 then "-" else "") + Decimal(m / CALC_SCALE) + Fraction(m % CALC_SCALE)
  }

  lemma {:induction false} DigitsScan(n: nat)
    ensures ScanFrom(START, Digits(n)) == START.(whole := n)
    ensures '-' !in Digits(n)
  {
    if n > 0 {
      DigitsScan(n / 10);
      assert Digits(n)[..|Digits(n)| - 1] == Digits(n / 10);
    }
  }

  /** Where the scanner stands just after the dot. */
  function AfterDot(w: nat): Scan {
    Scan(w, 0, 1, true)
  }

  predicate AllDigits(t: string) {
    forall i | 0 <= i < |t| :: IsDigit(t[i])
  }

  /** Up to four decimals are all taken. */
  lemma {:induction false} DecimalsScan(w: nat, t: string)
    requires AllDigits(t) && |t| <= 4
    ensures var r := ScanFrom(AfterDot(w), t);
      Scanned(r) && r.whole == w && r.dot && r.scale == [1, 10, 100, 1000, 10000][|t|]
  {
    if t != [] { DecimalsScan(w, t[..|t| - 1]); }
  }

  lemma PushDecimal(w: nat, t: string, f: nat, scale: nat, d: nat)
    requires ScanFrom(AfterDot(w), t) == Scan(w, f, scale, true) && scale < CALC_SCALE && d < 10
    ensures ScanFrom(AfterDot(w), t + [DigitChar(d)]) == Scan(w, f * 10 + d, scale * 10, true)
  {
    assert (t + [DigitChar(d)])[..|t|] == t;
  }

  lemma FourScan(w: nat, a: nat, b: nat, c: nat, d: nat)
    requires a < 10 && b < 10 && c < 10 && d < 10
    ensures ScanFrom(AfterDot(w), [DigitChar(a), DigitChar(b), DigitChar(c), DigitChar(d)])
         == Scan(w, a * 1000 + b * 100 + c * 10 + d, 10000, true)
  {
    hide ScanFrom, Step, DigitChar;
    var t1, t2 := [DigitChar(a)], [DigitChar(a), DigitChar(b)];
    var t3 := t2 + [DigitChar(c)];
    NothingRead(w);
    PushDecimal(w, [], 0, 1, a);
    assert [] + [DigitChar(a)] == t1;
    PushDecimal(w, t1, a, 10, b);
    assert t1 + [DigitChar(b)] == t2;
    PushDecimal(w, t2, a * 10 + b, 100, c);
    PushDecimal(w, t3, a * 100 + b * 10 + c, 1000, d);
    assert t3 + [DigitChar(d)] == [DigitChar(a), DigitChar(b), DigitChar(c), DigitChar(d)];
  }

  lemma NothingRead(w: nat)
    ensures ScanFrom(AfterDot(w), []) == AfterDot(w)
  {
  }

  lemma FourDigitsValue(f: nat)
    requires f < 10000
    ensures var a, b := f / 10, f / 10 / 10;
      b / 10 < 10 && f == b / 10 * 1000 + b % 10 * 100 + a % 10 * 10 + f % 10
  {
    var a := f / 10;
    var b := a / 10;
    assert f == 10 * a + f % 10 && a == 10 * b + a % 10 && b == 10 * (b / 10) + b % 10;
  }

  lemma DropZero(w: nat, f: nat, scale: nat)
    requires scale in {1, 10, 100, 1000}
    ensures Magnitude(Scan(w, f, scale, true)) == Magnitude(Scan(w, f * 10, scale * 10, true))
  {
  }

  /** Trailing zeros do not count. */
  lemma {:induction false} TrimKeeps(w: nat, t: string)
    requires AllDigits(t) && 1 <= |t| <= 4
    ensures var r := ScanFrom(AfterDot(w), t); var u := ScanFrom(AfterDot(w), Trim(t));
      Scanned(r) && Scanned(u) && Magnitude(u) == Magnitude(r)
  {
    DecimalsScan(w, t);
    if |t| > 1 && t[|t| - 1] == '0' {
      var p := t[..|t| - 1];
      TrimKeeps(w, p);
      DecimalsScan(w, p);
      var r := ScanFrom(AfterDot(w), p);
      DropZero(w, r.frac, r.scale);
    }
  }

  lemma FractionScan(w: nat, f: nat)
    requires f < 10000
    ensures var r := ScanFrom(START.(whole := w), Fraction(f)); Scanned(r) && Magnitude(r) == w * CALC_SCALE + f
  {
    if f > 0 {
      assert ["."[0]][..0] == [];
      assert ScanFrom(START.(whole := w), ".") == AfterDot(w);
      ScanConcat(START.(whole := w), ".", Trim(FourDigits(f)));
      TrimKeeps(w, FourDigits(f));
      FourDigitsValue(f);
      FourScan(w, f / 10 / 10 / 10, f / 10 / 10 % 10, f / 10 % 10, f % 10);
    }
  }

  lemma DecimalScan(n: nat)
    ensures ScanFrom(START, Decimal(n)) == START.(whole := n)
    ensures |Decimal(n)| > 0 && Decimal(n)[0] != '-'
  {
    DigitsScan(n);
    assert "0"[..0] == "";
  }

  /** Reading back what was written gives the same number. */
  lemma RoundTrip(v: int)
    ensures Value(Format(v)) == v
  {
    hide Fraction, Decimal;
    var m := if v < 0 then -v else v;
    var w, f := m / CALC_SCALE, m % CALC_SCALE;
    var body := Decimal(w) + Fraction(f);
    DecimalScan(w);
    FractionScan(w, f);
    ScanConcat(START, Decimal(w), Fraction(f));
    assert if v < 0 then Format(v) == ['-'] + body else Format(v) == body;
    assert v < 0 ==> Format(v)[1..] == body;
  }

  // ---- how long a written number is ----

  function Tens(k: nat): nat {
    if k == 0 then 1 else 10 * Tens(k - 1)
  }

  lemma {:induction false} DigitsShort(n: nat, k: nat)
    requires n < Tens(k)
    ensures |Digits(n)| <= k
  {
    if n > 0 { DigitsShort(n / 10, k - 1); }
  }

  lemma FormatShort(v: int)
    requires InRange(v)
    ensures |Decimal((if v < 0 then -v else v) / CALC_SCALE)| <= 15 && |Format(v)| <= 21
    ensures '\0' !in Format(v)
  {
    hide Tens, Digits, Trim;
    var m := if v < 0 then -v else v;
    TenToTheFifteenth();
    DigitsShort(m / CALC_SCALE, 15);
    TrimShort(FourDigits(m % CALC_SCALE));
    DigitsPrintable(m / CALC_SCALE);
  }

  /** What is trimmed off are zeros, and all of them but for the first digit. */
  lemma {:induction false} TrimMeans(s: string)
    requires s != []
    ensures var t := Trim(s);
      t != [] && t <= s && (forall i | |t| <= i < |s| :: s[i] == '0') && (|t| > 1 ==> t[|t| - 1] != '0')
    decreases |s|
  {
    if |s| > 1 && s[|s| - 1] == '0' {
      TrimMeans(s[..|s| - 1]);
    }
  }

  lemma {:induction false} NoLeadingZero(n: nat)
    requires n > 0
    ensures Digits(n) != [] && Digits(n)[0] != '0' && AllDigits(Digits(n))
  {
    if n >= 10 {
      NoLeadingZero(n / 10);
    }
  }

  /** A number is written without leading zeros before its units and without trailing zeros behind its dot, which it has
      exactly when it is not whole. */
  lemma FormatIsShortest(v: int)
    ensures var m := if v < 0 then -v else v;
      var w, f := Decimal(m / 10000), Fraction(m % 10000);
      && Format(v) == (if v < 0 then "-" else "") + w + f && AllDigits(w) && w != [] && (|w| > 1 ==> w[0] != '0')
      && (m % 10000 == 0 ==> f == [])
      && (m % 10000 != 0 ==> 2 <= |f| <= 5 && f[0] == '.' && AllDigits(f[1..]) && f[|f| - 1] != '0')
  {
    hide Digits;
    var m := if v < 0 then -v else v;
    if m / 10000 > 0 { NoLeadingZero(m / 10000); }
    if m % 10000 != 0 { FractionEnds(m % 10000); }
  }

  lemma FractionEnds(f: nat)
    requires 0 < f < 10000
    ensures var t := Trim(FourDigits(f)); 1 <= |t| <= 4 && AllDigits(t) && t[|t| - 1] != '0'
  {
    hide DigitChar;
    var s := FourDigits(f);
    TrimMeans(s);
    FourDigitsValue(f);
    OneNonZero(f);
    assert AllDigits(s) by {
      FourAreDigits(f);
    }
  }

  lemma FourAreDigits(f: nat)
    requires f < 10000
    ensures AllDigits(FourDigits(f))
  {
  }

  lemma OneNonZero(f: nat)
    requires 0 < f < 10000
    ensures exists i | 0 <= i < 4 :: FourDigits(f)[i] != '0'
  {
    FourDigitsValue(f);
    var s := FourDigits(f);
    if s[0] == '0' && s[1] == '0' && s[2] == '0' {
      assert s[3] != '0';
    } else {
      assert s[0] != '0' || s[1] != '0' || s[2] != '0';
    }
  }

  lemma TenToTheFifteenth()
    ensures Tens(15) == 1_000_000_000_000_000
  {
    assert Tens(5) == 100_000 && Tens(10) == 10_000_000_000;
  }

  lemma TrimShort(t: string)
    ensures |Trim(t)| <= |t| && Trim(t) == t[..|Trim(t)|]
  {
  }

  lemma DigitsPrintable(n: nat)
    ensures '\0' !in Digits(n)
  {
  }

  // ---- the four operations ----

  /** `q` is `a / b` cut towards zero: what remains is smaller than `b` and has the sign of `a`. */
  predicate Truncates(q: int, a: int, b: int) {
    var r := a - b * q;
    (if r < 0 then -r else r) < (if b < 0 then -b else b) && (a >= 0 ==> r >= 0) && (a <= 0 ==> r <= 0)
  }

  /** C's division. */
  function TruncDiv(a: int, b: int): (q: int)
    requires b != 0
    ensures Truncates(q, a, b)
  {
    if a >= 0 then a / b else -((-a) / b)
  }

  function Apply(op: char, a: int, b: int): int {
    if op == '+' then a + b
    else if op == '-' then a - b
    else if op == '*' then TruncDiv(a * b, CALC_SCALE)
    else if op == '/' then (if b != 0 then TruncDiv(a * CALC_SCALE, b) else 0)
    else b
  }

  /** The widest number computed on the way to `Apply(op, a, b)`. */
  function Widest(op: char, a: int, b: int): int {
    if op == '*' then a * b
    else if op == '/' then a * CALC_SCALE
    else Apply(op, a, b)
  }

  /** No overflow in `Apply(op, a, b)`, nor in writing down the result. */
  predicate Fits(op: char, a: int, b: int) {
    -INT64_MAX - 1 <= Widest(op, a, b) <= INT64_MAX && InRange(Apply(op, a, b))
  }

  // ---- the keys ----

  const NONE := '\0'

  datatype Calc = Calc(display: string, accum: int, pending: char, freshEntry: bool)

  const CLEARED := Calc("0", 0, NONE, true)

  function Appended(c: Calc, d: char): Calc {
    if c.freshEntry then c.(display := [d], freshEntry := false)
    else if |c.display| < DISPLAY_SIZE - 1 then c.(display := c.display + [d])
    else c
  }

  function Press(c: Calc, key: char): Calc {
    if key == NONE then c
    else if IsDigit(key) then Appended(c, key)
    else if key == '.' then
      if c.freshEntry then c.(display := "0.", freshEntry := false)
      else if '.' in c.display then c
      else Appended(c, key)
    else if key == 'C' then CLEARED
    else
      var result := Apply(c.pending, c.accum, Value(c.display));
      if key == '=' then Calc(Format(result), result, NONE, true)
      else if c.pending != NONE then Calc(Format(result), result, key, true)
      else Calc(c.display, result, key, true)
  }

  /** The keys that compute. */
  predicate Computes(key: char) {
    !IsDigit(key) && key !in {NONE, '.', 'C'}
  }

  /** Pressing `key` overflows no 64-bit integer. */
  predicate Safe(c: Calc, key: char) {
    Computes(key) ==> InRange(Value(c.display)) && Fits(c.pending, c.accum, Value(c.display))
  }

  /** The display fits its buffer, and until something is typed it shows the accumulator. */
  predicate Good(c: Calc) {
    |c.display| < DISPLAY_SIZE && '\0' !in c.display && InRange(c.accum) &&
      (c.freshEntry ==> Value(c.display) == c.accum)
  }

  lemma PressKeeps(c: Calc, key: char)
    requires Good(c) && Safe(c, key)
    ensures Good(Press(c, key))
  {
    hide Format, Value;
    if Computes(key) {
      var result := Apply(c.pending, c.accum, Value(c.display));
      RoundTrip(result);
      FormatShort(result);
    } else {
      ShowsZero();
    }
  }

  lemma ShowsZero()
    ensures Value("0") == 0
  {
    DecimalScan(0);
    assert Decimal(0) == "0";
  }

  function Run(c: Calc, keys: string): Calc
    decreases |keys|
  {
    if keys == [] then c else Run(Press(c, keys[0]), keys[1..])
  }

  predicate SafeRun(c: Calc, keys: string)
    decreases |keys|
  {
    keys == [] || (Safe(c, keys[0]) && SafeRun(Press(c, keys[0]), keys[1..]))
  }

  /** From power-up, any keys that overflow nothing keep the display and the accumulator in step. */
  lemma {:induction false} RunKeeps(c: Calc, keys: string)
    requires Good(c) && SafeRun(c, keys)
    ensures Good(Run(c, keys))
    decreases |keys|
  {
    if keys != [] {
      PressKeeps(c, keys[0]);
      RunKeeps(Press(c, keys[0]), keys[1..]);
    }
  }

  lemma ClearedIsGood()
    ensures Good(CLEARED)
  {
    ShowsZero();
  }

  // ---- chains of operands and operators ----

  /** The keys of one operand. */
  predicate Operand(w: string) {
    w != [] && forall i | 0 <= i < |w| :: IsDigit(w[i]) || w[i] == '.'
  }

  /** What the display shows after the keys of one operand. */
  function Typed(w: string): string
    requires Operand(w)
  {
    if |w| == 1 then (if w[0] == '.' then "0." else w)
    else
      var t, k := Typed(w[..|w| - 1]), w[|w| - 1];
      if (k == '.' && '.' in t) || |t| >= DISPLAY_SIZE - 1 then t else t + [k]
  }

  /** An ordinary numeral that fits is shown as it was typed. */
  lemma {:induction false} PlainTyped(w: string)
    requires Operand(w) && w[0] != '.' && |w| < DISPLAY_SIZE
    requires forall i, j | 0 <= i < j < |w| :: w[i] != '.' || w[j] != '.'
    ensures Typed(w) == w
  {
    if |w| > 1 {
      var t, k := w[..|w| - 1], w[|w| - 1];
      PlainTyped(t);
      assert w == t + [k];
      assert k == '.' ==> '.' !in t;
    }
  }

  /** A decimal that begins with the dot is shown with a zero in front. */
  lemma {:induction false} DotTyped(w: string)
    requires Operand(w) && w[0] == '.' && AllDigits(w[1..]) && |w| < DISPLAY_SIZE - 1
    ensures Typed(w) == "0" + w
    decreases |w|
  {
    if |w| > 1 {
      var t := w[..|w| - 1];
      assert t[1..] == w[1..][..|w| - 2];
      assert w[|w| - 1] == w[1..][|w| - 2];
      DotTyped(t);
      assert "0" + w == ("0" + t) + [w[|w| - 1]];
    } else {
      assert w == ".";
    }
  }

  predicate Chain(rest: seq<(char, string)>) {
    forall i | 0 <= i < |rest| :: Computes(rest[i].0) && rest[i].0 != '=' && Operand(rest[i].1)
  }

  function ChainKeys(rest: seq<(char, string)>): string {
    if rest == [] then "=" else [rest[0].0] + rest[0].1 + ChainKeys(rest[1..])
  }

  /** The operators applied strictly from left to right. */
  function Fold(acc: int, rest: seq<(char, string)>): int
    requires Chain(rest)
    decreases |rest|
  {
    if rest == [] then acc else Fold(Apply(rest[0].0, acc, Value(Typed(rest[0].1))), rest[1..])
  }

  /** No operand and no intermediate result of the chain overflows. */
  predicate FoldFits(acc: int, rest: seq<(char, string)>)
    requires Chain(rest)
    decreases |rest|
  {
    rest == [] ||
    var b := Value(Typed(rest[0].1));
    InRange(b) && Fits(rest[0].0, acc, b) && FoldFits(Apply(rest[0].0, acc, b), rest[1..])
  }

  lemma RunConcat(c: Calc, a: string, b: string)
    ensures Run(c, a + b) == Run(Run(c, a), b)
    ensures SafeRun(c, a + b) <==> SafeRun(c, a) && SafeRun(Run(c, a), b)
    decreases |a|
  {
    if a == [] {
      assert a + b == b;
    } else {
      assert (a + b)[1..] == a[1..] + b;
      RunConcat(Press(c, a[0]), a[1..], b);
    }
  }

  lemma TypeOperand(c: Calc, w: string)
    requires c.freshEntry && Operand(w)
    ensures Run(c, w) == Calc(Typed(w), c.accum, c.pending, false) && SafeRun(c, w)
  {
    hide Value, Format;
    var k := w[|w| - 1];
    var w' := w[..|w| - 1];
    assert w == w' + [k];
    RunConcat(c, w', [k]);
    if |w| > 1 { TypeOperand(c, w'); }
    OneKey(Run(c, w'), k);
  }

  lemma OneKey(c: Calc, k: char)
    ensures Run(c, [k]) == Press(c, k) && (SafeRun(c, [k]) <==> Safe(c, k))
  {
    assert [k][1..] == [];
  }

  lemma {:induction false} ChainFrom(c: Calc, rest: seq<(char, string)>)
    requires Chain(rest)
    ensures var acc := Fold(Apply(c.pending, c.accum, Value(c.display)), rest);
      Run(c, ChainKeys(rest)) == Calc(Format(acc), acc, NONE, true)
    ensures SafeRun(c, ChainKeys(rest)) <==>
            InRange(Value(c.display)) && Fits(c.pending, c.accum, Value(c.display)) &&
              FoldFits(Apply(c.pending, c.accum, Value(c.display)), rest)
    decreases |rest|
  {
    hide Value, Format, Apply, Fits;
    if rest == [] {
      OneKey(c, '=');
    } else {
      var op, w := rest[0].0, rest[0].1;
      var c' := Press(c, op);
      OneKey(c, op);
      RunConcat(c, [op] + w, ChainKeys(rest[1..]));
      RunConcat(c, [op], w);
      TypeOperand(c', w);
      ChainFrom(Run(c', w), rest[1..]);
    }
  }

  /** A chain of operands and operators closed by `=` shows its left-to-right value. */
  lemma ChainShowsFold(c: Calc, first: string, rest: seq<(char, string)>)
    requires c.freshEntry && c.pending == NONE && Operand(first) && Chain(rest)
    ensures var acc := Fold(Value(Typed(first)), rest);
      Run(c, first + ChainKeys(rest)) == Calc(Format(acc), acc, NONE, true) && Value(Format(acc)) == acc
    ensures SafeRun(c, first + ChainKeys(rest)) <==> InRange(Value(Typed(first))) && FoldFits(Value(Typed(first)), rest)
  {
    RunConcat(c, first, ChainKeys(rest));
    TypeOperand(c, first);
    ChainFrom(Run(c, first), rest);
    RoundTrip(Fold(Value(Typed(first)), rest));
  }

  // ---- what a chain computes ----

  /** `q` is what an operator makes of `a` and `b`, all in ten-thousandths. */
  predicate Computed(op: char, a: int, b: int, q: int) {
    && (op == '+' ==> q == a + b)
    && (op == '-' ==> q + b == a)
    && (op == '*' ==> Truncates(q, a * b, 10000))
    && (op == '/' ==> if b == 0 then q == 0 else Truncates(q, 10000 * a, b))
    && (op !in "+-*/" ==> q == b)
  }

  /** The operation overflows no 64-bit integer, and its result can be negated. */
  predicate NoOverflow(op: char, a: int, b: int) {
    && (op == '+' ==> -INT64_MAX <= a + b <= INT64_MAX)
    && (op == '-' ==> -INT64_MAX <= a - b <= INT64_MAX)
    && (op == '*' ==> -INT64_MAX - 1 <= a * b <= INT64_MAX)
    && (op == '/' ==> -INT64_MAX - 1 <= 10000 * a <= INT64_MAX)
  }

  lemma ApplyComputes(op: char, a: int, b: int)
    ensures Computed(op, a, b, Apply(op, a, b))
  {
  }

  lemma FitsExactly(op: char, a: int, b: int)
    requires InRange(b)
    ensures Fits(op, a, b) <==> NoOverflow(op, a, b)
  {
    hide TruncDiv;
    if op == '*' {
      if -INT64_MAX - 1 <= a * b <= INT64_MAX {
        ProductFits(a * b);
      }
    } else if op == '/' && b != 0 {
      QuotientShrinks(a * CALC_SCALE, b);
    }
  }

  lemma ProductFits(n: int)
    requires -INT64_MAX - 1 <= n <= INT64_MAX
    ensures InRange(TruncDiv(n, CALC_SCALE))
  {
  }

  /** A quotient is no larger than what is divided. */
  lemma QuotientShrinks(a: int, b: int)
    requires b != 0
    ensures var m := if a < 0 then -a else a; -m <= TruncDiv(a, b) <= m
  {
    hide TruncDiv;
    var q, m := TruncDiv(a, b), if a < 0 then -a else a;
    if q > m {
      FarProduct(b, q, m);
    } else if q < -m {
      FarProduct(-b, -q, m);
    }
  }

  lemma FarProduct(b: int, q: int, m: nat)
    requires b != 0 && q > m
    ensures if b > 0 then b * q >= b + m else b * q <= b - m
  {
    var n := if b > 0 then b else -b;
    MulGe(q - 1, n);
    assert n * q == n + (q - 1) * n;
    assert b < 0 ==> b * q == -(n * q);
  }

  /** What the display shows after a chain closed by `=`. */
  function Shown(c: Calc, first: string, rest: seq<(char, string)>): int {
    Value(Run(c, first + ChainKeys(rest)).display)
  }

  lemma {:induction false} FoldAppend(acc: int, rest: seq<(char, string)>, op: char, w: string)
    requires Chain(rest) && Chain(rest + [(op, w)])
    ensures Operand(w)
    ensures Fold(acc, rest + [(op, w)]) == Apply(op, Fold(acc, rest), Value(Typed(w)))
    ensures var b := Value(Typed(w));
      FoldFits(acc, rest + [(op, w)]) <==> FoldFits(acc, rest) && InRange(b) && Fits(op, Fold(acc, rest), b)
    decreases |rest|
  {
    hide Value, Typed, Apply, Fits;
    var longer := rest + [(op, w)];
    assert longer[|rest|] == (op, w);
    if rest == [] {
      assert longer[1..] == [];
    } else {
      assert longer[1..] == rest[1..] + [(op, w)];
      FoldAppend(Apply(rest[0].0, acc, Value(Typed(rest[0].1))), rest[1..], op, w);
    }
  }

  /** C forgets everything: what follows is computed as from power-up. */
  lemma ClearForgets(c: Calc, keys: string)
    ensures Run(c, "C" + keys) == Run(CLEARED, keys)
  {
    assert ("C" + keys)[1..] == keys;
  }

  /** A key without a label, or a second dot, changes nothing; a full display takes no further digit. */
  lemma KeysWithoutEffect(c: Calc, key: char)
    ensures key == NONE ==> Press(c, key) == c
    ensures key == '.' && !c.freshEntry && '.' in c.display ==> Press(c, key) == c
    ensures IsDigit(key) && !c.freshEntry && |c.display| >= 23 ==> Press(c, key) == c
  {
    hide Value, Format;
  }

  /** An operator computes what `=` would, and remembers itself; but a first operand stays on the display as typed. */
  lemma OperatorShows(c: Calc, op: char)
    requires Computes(op) && op != '='
    ensures var d, e := Press(c, op), Press(c, '=');
      d.accum == e.accum && d.pending == op && d.freshEntry &&
      d.display == if c.pending == NONE then c.display else e.display
  {
    hide Value, Format, Apply;
  }

  /** One operand alone is shown as its value. */
  lemma OperandShown(c: Calc, first: string)
    requires c.freshEntry && c.pending == NONE && Operand(first)
    ensures Shown(c, first, []) == Value(Typed(first))
    ensures SafeRun(c, first + ChainKeys([])) <==> InRange(Value(Typed(first)))
  {
    hide Value, Typed, Apply, Fits;
    ChainShowsFold(c, first, []);
  }

  /** Each further operator and operand turns the number shown into their sum, difference, product or quotient; and
      the keys overflow exactly when that operation does. */
  lemma ChainComputes(c: Calc, first: string, rest: seq<(char, string)>, op: char, w: string)
    requires c.freshEntry && c.pending == NONE && Operand(first) && Chain(rest) && Chain(rest + [(op, w)])
    ensures Operand(w)
    ensures Computed(op, Shown(c, first, rest), Value(Typed(w)), Shown(c, first, rest + [(op, w)]))
    ensures SafeRun(c, first + ChainKeys(rest + [(op, w)])) <==>
              SafeRun(c, first + ChainKeys(rest)) && InRange(Value(Typed(w))) &&
                NoOverflow(op, Shown(c, first, rest), Value(Typed(w)))
  {
    hide Value, Typed, Apply, Fits, NoOverflow, Computed;
    ChainShowsFold(c, first, rest);
    ChainShowsFold(c, first, rest + [(op, w)]);
    FoldAppend(Value(Typed(first)), rest, op, w);
    ApplyComputes(op, Shown(c, first, rest), Value(Typed(w)));
    if InRange(Value(Typed(w))) {
      FitsExactly(op, Shown(c, first, rest), Value(Typed(w)));
    }
  }

  // ---- what a numeral is worth ----

  /** A run of digits as a number to base ten. */
  function Number(s: string): nat
    requires AllDigits(s)
  {
    if s == [] then 0 else DigitOf(s[0]) * Tens(|s| - 1) + Number(s[1..])
  }

  lemma {:induction false} NumberSnoc(s: string, d: char)
    requires AllDigits(s) && IsDigit(d)
    ensures AllDigits(s + [d]) && Number(s + [d]) == 10 * Number(s) + DigitOf(d)
  {
    var t := s + [d];
    if s == [] {
      assert t[1..] == [] && Tens(0) == 1;
    } else {
      assert t[1..] == s[1..] + [d];
      NumberSnoc(s[1..], d);
      TensFactor(DigitOf(s[0]), |s| - 1);
    }
  }

  lemma TensFactor(d: nat, k: nat)
    ensures d * Tens(k + 1) == 10 * (d * Tens(k))
  {
  }

  /** Digits before the dot. */
  lemma {:induction false} WholeScan(w: string)
    requires AllDigits(w)
    ensures ScanFrom(START, w) == START.(whole := Number(w))
  {
    if w != [] {
      var s, d := w[..|w| - 1], w[|w| - 1];
      WholeScan(s);
      NumberSnoc(s, d);
      assert w == s + [d];
    }
  }

  /** Digits behind it: four count. */
  lemma {:induction false} FractionDigits(whole: nat, f: string)
    requires AllDigits(f)
    ensures var g := if |f| <= 4 then f else f[..4];
      ScanFrom(AfterDot(whole), f) == Scan(whole, Number(g), Tens(|g|), true)
  {
    FirstTens();
    if f != [] {
      hide Tens;
      var s, d := f[..|f| - 1], f[|f| - 1];
      FractionDigits(whole, s);
      if |f| <= 4 {
        NumberSnoc(s, d);
        assert f == s + [d];
      } else {
        assert s[..4] == f[..4];
      }
    }
  }

  lemma FirstTens()
    ensures Tens(0) == 1 && Tens(1) == 10 && Tens(2) == 100 && Tens(3) == 1000 && Tens(4) == 10000
  {
  }

  /** A numeral is worth its whole part and its first four decimals; a minus sign in front negates it. */
  lemma NumeralValue(w: string, f: string)
    requires AllDigits(w) && AllDigits(f)
    ensures Value(w) == 10000 * Number(w)
    ensures var g := if |f| <= 4 then f else f[..4];
      Value(w + ("." + f)) == 10000 * Number(w) + Number(g) * Tens(4 - |g|) &&
      Value("-" + (w + ("." + f))) == -Value(w + ("." + f)) && Value("-" + w) == -Value(w)
  {
    hide ScanFrom, Number, Tens;
    var g := if |f| <= 4 then f else f[..4];
    var t := w + ("." + f);
    WholeScan(w);
    FractionDigits(Number(w), f);
    DotScan(Number(w));
    ScanConcat(START, w, "." + f);
    ScanConcat(START.(whole := Number(w)), ".", f);
    FirstTens();
    assert Magnitude(Scan(Number(w), Number(g), Tens(|g|), true)) == 10000 * Number(w) + Number(g) * Tens(4 - |g|);
    assert ("-" + t)[1..] == t && ("-" + w)[1..] == w;
  }

  lemma DotScan(w: nat)
    ensures ScanFrom(START.(whole := w), ".") == AfterDot(w)
  {
    assert "."[..0] == [];
  }

  // ---- the program ----

  /** A C string: the characters before the first NUL. */
  function CString(s: seq<char>): (r: string)
    ensures |r| <= |s| && r == s[..|r|] && '\0' !in r && (|r| < |s| ==> s[|r|] == '\0')
  {
    if s == [] || s[0] == '\0' then [] else [s[0]] + CString(s[1..])
  }

  lemma {:induction false} CStringIs(s: seq<char>, n: nat)
    requires n < |s| && s[n] == '\0' && '\0' !in s[..n]
    ensures CString(s) == s[..n]
  {
    if n > 0 {
      assert s[0] in s[..n] && s[1..][..n - 1] == s[..n][1..];
      CStringIs(s[1..], n - 1);
    }
  }

  method StrLen(s: array<char>) returns (n: nat)
    requires '\0' in s[..]
    ensures n == |CString(s[..])| < s.Length
  {
    n := 0;
    ghost var end :| 0 <= end < s.Length && s[end] == '\0';
    while s[n] != '\0'
      invariant n <= end && '\0' !in s[..n]
      decreases end - n
    {
      assert s[..n + 1] == s[..n] + [s[n]];
      n := n + 1;
    }
    CStringIs(s[..], n);
  }

  lemma PrefixWhole(s: Scan, text: string, i: nat)
    requires i <= |text|
    ensures ScanFrom(s, text[..i]).whole <= ScanFrom(s, text).whole
  {
    if i == |text| {
      assert text[..i] == text;
    } else {
      var t := text[..|text| - 1];
      assert text[..i] == t[..i];
      PrefixWhole(s, t, i);
    }
  }

  /** One turn of the parser's loop, and that its whole part cannot overflow. */
  lemma NextStep(body: string, i: nat)
    requires i < |body|
    ensures ScanFrom(START, body[..i + 1]) == Step(ScanFrom(START, body[..i]), body[i])
    ensures Scanned(ScanFrom(START, body[..i]))
    ensures ScanFrom(START, body[..i + 1]).whole <= ScanFrom(START, body).whole
  {
    assert body[..i + 1][..i] == body[..i];
    ScanIsSound(body[..i]);
    PrefixWhole(START, body, i + 1);
  }

  /** The parser's loop, from position `p` to the NUL. */
  method ScanText(s: array<char>, p: nat, ghost body: string) returns (whole: int64, frac: int64, scale: int64)
    requires p + |body| < s.Length && s[p..p + |body|] == body && s[p + |body|] == '\0' && '\0' !in body
    requires ScanFrom(START, body).whole <= INT64_MAX
    ensures var r := ScanFrom(START, body); Scanned(r) && whole == r.whole && frac == r.frac && scale == r.scale
  {
    hide ScanFrom;
    whole, frac, scale := 0, 0, 1;
    var inFrac := false;
    var i := 0;
    EmptyScan();
    while s[p + i] != '\0'
      invariant i <= |body| && whole >= 0 && frac >= 0 && scale >= 0
      invariant Scan(whole, frac, scale, inFrac) == ScanFrom(START, body[..i])
      decreases |body| - i
    {
      var c := s[p + i];
      NextStep(body, i);
      if c == '.' {
        inFrac := true;
      } else if IsDigit(c) {
        if inFrac {
          if scale < CALC_SCALE {
            scale := scale * 10;
            frac := frac * 10 + DigitOf(c);
          }
        } else {
          whole := whole * 10 + DigitOf(c);
        }
      }
      i := i + 1;
    }
    ScanIsSound(body);
    assert body[..i] == body;
  }

  method CalcParse(s: array<char>) returns (v: int64)
    requires '\0' in s[..] && InRange(Value(CString(s[..])))
    ensures v == Value(CString(s[..]))
  {
    hide ScanFrom, CString;
    ghost var text := CString(s[..]);
    CStringEnds(s[..]);
    var neg, p := false, 0;
    if s[p] == '-' { neg := true; p := p + 1; }
    ghost var body := text[p..];
    ScanIsSound(body);
    assert s[..|text|][p..] == s[p..|text|];
    assert neg <==> text != [] && text[0] == '-';
    assert text[0..] == text;
    var intPart, fracPart, fracScale := ScanText(s, p, body);
    var whole: int64, frac: int64 := intPart * CALC_SCALE, fracPart * CALC_SCALE;
    var scaled: int64 := whole + frac / fracScale;
    v := if neg then -scaled else scaled;
  }

  lemma CStringEnds(s: seq<char>)
    requires '\0' in s
    ensures var t := CString(s);
      |t| < |s| && t == s[..|t|] && forall i | 0 <= i <= |t| :: s[i] == '\0' <==> i == |t|
  {
    var t := CString(s);
    assert |t| == |s| ==> t == s;
    forall i | 0 <= i < |t| ensures s[i] != '\0' {
      assert s[i] == t[i] && t[i] in t;
    }
  }

  lemma EmptyScan()
    ensures ScanFrom(START, []) == START
  {
  }

  // ---- writing a number ----

  /** `s` backwards. */
  function Reverse(s: string): (r: string)
    ensures |r| == |s|
  {
    if s == [] then [] else [s[|s| - 1]] + Reverse(s[..|s| - 1])
  }

  /** The decimal digits of `n`, the last one first. */
  method WriteDigits(digits: array<char>, n: nat) returns (di: nat)
    requires digits.Length == 24 && |Decimal(n)| <= 15
    modifies digits
    ensures di <= 24 && Decimal(n) == Reverse(digits[..di])
  {
    hide Digits, Decimal, Reverse;
    di := 0;
    var rest: nat := n;
    DigitsEnd(n);
    if rest == 0 {
      digits[di] := '0';
      di := di + 1;
      ReversePush(digits[..0], '0');
      assert digits[..1] == digits[..0] + ['0'];
    }
    ReverseNone();
    while rest > 0 && di < 20
      invariant di <= 15 && Decimal(n) == Digits(rest) + Reverse(digits[..di])
      decreases rest
    {
      DigitsEnd(rest);
      ghost var before := digits[..di];
      digits[di] := DigitChar(rest % 10);
      assert digits[..di + 1] == before + [DigitChar(rest % 10)];
      ReversePush(before, DigitChar(rest % 10));
      rest := rest / 10;
      di := di + 1;
    }
    DigitsEnd(rest);
  }

  /** Appends the decimal digits of `n` to the first `i` characters of `buf`. */
  method WriteWhole(buf: array<char>, i: nat, n: nat) returns (j: nat)
    requires i + |Decimal(n)| <= buf.Length && |Decimal(n)| <= 15
    modifies buf
    ensures j <= buf.Length && buf[..j] == old(buf[..i]) + Decimal(n)
  {
    hide Decimal, Reverse;
    var digits := new char[24];
    var di := WriteDigits(digits, n);
    j := i;
    ghost var found := digits[..di];
    assert found[..di] == found;
    while di > 0
      invariant di <= |found| && j + di == i + |found| <= buf.Length && digits[..|found|] == found
      invariant old(buf[..i]) + Decimal(n) == buf[..j] + Reverse(found[..di])
    {
      di := di - 1;
      assert found[..di + 1] == found[..di] + [found[di]];
      ReversePush(found[..di], found[di]);
      ghost var before := buf[..j];
      buf[j] := digits[di];
      j := j + 1;
      assert buf[..j] == before + [found[di]];
    }
    ReverseNone();
  }

  lemma ReverseNone()
    ensures Reverse([]) == []
  {
  }

  lemma ReversePush(s: string, c: char)
    ensures Reverse(s + [c]) == [c] + Reverse(s)
  {
    assert (s + [c])[..|s|] == s;
  }

  lemma DigitsEnd(n: nat)
    ensures Digits(n) == if n == 0 then "" else Digits(n / 10) + [DigitChar(n % 10)]
    ensures Decimal(n) == if n == 0 then "0" else Digits(n)
  {
  }

  /** Appends the fraction `f` of four decimals, if it is not zero. */
  method WriteFraction(buf: array<char>, i: nat, f: nat) returns (j: nat)
    requires i + 5 <= buf.Length && f < 10000
    modifies buf
    ensures j <= buf.Length && buf[..j] == old(buf[..i]) + Fraction(f)
  {
    hide Trim, FourDigits;
    j := i;
    ghost var before := buf[..i];
    assert before + "" == before;
    if f > 0 {
      buf[j] := '.';
      j := j + 1;
      assert buf[..j] == before + ".";
      var decimals, end := WriteDecimals(f);
      ghost var start := j;
      var k := 0;
      while k < end
        invariant k <= end && j == start + k && buf[..j] == before + "." + decimals[..k]
        invariant decimals[..end] == Trim(FourDigits(f))
      {
        ghost var before' := buf[..j];
        buf[j] := decimals[k];
        j, k := j + 1, k + 1;
        assert buf[..j] == before' + [decimals[k - 1]] && decimals[..k] == decimals[..k - 1] + [decimals[k - 1]];
      }
      assert before + "." + decimals[..k] == before + ("." + decimals[..k]);
    }
  }

  method WriteDecimals(f: nat) returns (decimals: array<char>, end: nat)
    requires f < 10000
    ensures fresh(decimals) && end <= 4 < decimals.Length && decimals[..end] == Trim(FourDigits(f))
  {
    hide Trim;
    decimals := new char[5];
    var g := f;
    for k := 4 downto 0
      invariant g == [0, f / 10 / 10 / 10, f / 10 / 10, f / 10, f][k]
      invariant forall n | k <= n < 4 :: decimals[n] == FourDigits(f)[n]
    {
      decimals[k] := DigitChar(g % 10);
      g := g / 10;
    }
    assert decimals[..4] == FourDigits(f);
    end := 4;
    while end > 1 && decimals[end - 1] == '0'
      invariant 1 <= end <= 4 && Trim(decimals[..end]) == Trim(FourDigits(f))
    {
      TrimStep(decimals[..end]);
      assert decimals[..end][..end - 1] == decimals[..end - 1];
      end := end - 1;
    }
    TrimStep(decimals[..end]);
  }

  lemma TrimStep(s: string)
    ensures Trim(s) == if |s| > 1 && s[|s| - 1] == '0' then Trim(s[..|s| - 1]) else s
  {
  }

  class CalcState {
    const display: array<char>
    var accum: int64
    var pendingOp: char
    var freshEntry: bool

    predicate Valid()
      reads this, display
    {
      display.Length == DISPLAY_SIZE && '\0' in display[..]
    }

    function View(): Calc
      reads this, display
      requires Valid()
    {
      Calc(CString(display[..]), accum, pendingOp, freshEntry)
    }

    constructor ()
      ensures Valid() && fresh(display) && View() == CLEARED
    {
      accum, pendingOp, freshEntry := 0, NONE, true;
      display := new char[DISPLAY_SIZE];
      new;
      display[0], display[1] := '0', '\0';
      CStringIs(display[..], 1);
    }

    /** Puts a text of at most 23 characters on the display. */
    method Show(buf: array<char>, n: nat)
      requires Valid() && n < DISPLAY_SIZE && n < buf.Length && buf != display && '\0' !in buf[..n]
      modifies display
      ensures Valid() && CString(display[..]) == buf[..n]
    {
      var k := 0;
      while k < n
        invariant k <= n && display[..k] == buf[..k]
      {
        display[k] := buf[k];
        k := k + 1;
      }
      display[n] := '\0';
      assert display[..][..n] == buf[..n];
      CStringIs(display[..], n);
    }

    method AppendDigit(d: char)
      requires Valid() && d != '\0'
      modifies this, display
      ensures Valid() && View() == Appended(old(View()), d)
    {
      ghost var text := CString(display[..]);
      CStringEnds(display[..]);
      if freshEntry {
        display[0], display[1] := d, '\0';
        CStringIs(display[..], 1);
        freshEntry := false;
      } else {
        var len := StrLen(display);
        if len < DISPLAY_SIZE - 1 {
          display[len], display[len + 1] := d, '\0';
          assert display[..][..len + 1] == text + [d];
          CStringIs(display[..], len + 1);
        }
      }
    }

    method HandleButton(key: char)
      requires Valid() && Good(View()) && Safe(View(), key)
      modifies this, display
      ensures Valid() && View() == Press(old(View()), key) && Good(View())
    {
      hide CString, Format, Value, Widest;
      PressKeeps(View(), key);
      if key == NONE { return; }
      if '0' <= key <= '9' {
        AppendDigit(key);
      } else if key == '.' {
        if !freshEntry {
          var hasDot := HasDot();
          if !hasDot { AppendDigit('.'); }
        } else {
          display[0], display[1], display[2] := '0', '.', '\0';
          CStringIs(display[..], 2);
          assert display[..][..2] == "0.";
          freshEntry := false;
        }
      } else if key == 'C' {
        accum, pendingOp, freshEntry := 0, NONE, true;
        display[0], display[1] := '0', '\0';
        CStringIs(display[..], 1);
        assert display[..][..1] == "0";
      } else if key == '=' {
        var cur := CalcParse(display);
        var result: int64 := Apply(pendingOp, accum, cur);
        if pendingOp == NONE { result := cur; }
        CalcFormat(result);
        accum, pendingOp, freshEntry := result, NONE, true;
      } else {
        var cur := CalcParse(display);
        if pendingOp != NONE {
          var result: int64 := Apply(pendingOp, accum, cur);
          accum := result;
          CalcFormat(result);
        } else {
          accum := cur;
        }
        pendingOp, freshEntry := key, true;
      }
    }

    method HasDot() returns (found: bool)
      requires Valid()
      ensures found <==> '.' in CString(display[..])
    {
      hide CString;
      found := false;
      var p := 0;
      ghost var text := CString(display[..]);
      CStringEnds(display[..]);
      while display[p] != '\0'
        invariant p <= |text| && (found <==> '.' in text[..p])
        decreases |text| - p
      {
        assert text[..p + 1] == text[..p] + [text[p]];
        if display[p] == '.' { found := true; }
        p := p + 1;
      }
      assert text[..p] == text;
    }

    /** Shows `v`; neither its digits nor the text outgrow their buffers. */
    method CalcFormat(v: int64)
      requires Valid() && InRange(v)
      modifies display
      ensures Valid() && CString(display[..]) == Format(v)
    {
      hide CString, Decimal, Fraction;
      FormatShort(v);
      FractionShort(if v < 0 then -v % CALC_SCALE else v % CALC_SCALE);
      var neg := v < 0;
      var scaled: int64 := if neg then -v else v;
      var intPart, fracPart := scaled / CALC_SCALE, scaled % CALC_SCALE;
      var buf := new char[24];
      var i := 0;
      if neg { buf[i] := '-'; i := i + 1; }
      assert buf[..i] == if neg then "-" else "";
      i := WriteWhole(buf, i, intPart);
      i := WriteFraction(buf, i, fracPart);
      assert buf[..i] == Format(v);
      buf[i] := '\0';
      var n := StrLen(buf);
      CStringIs(buf[..], i);
      if n > DISPLAY_SIZE - 1 { n := DISPLAY_SIZE - 1; }
      Show(buf, n);
    }
  }

  lemma FractionShort(f: nat)
    requires f < 10000
    ensures |Fraction(f)| <= 5
  {
    TrimShort(FourDigits(f));
  }
}
