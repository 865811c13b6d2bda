/** `valor_formatado`: the amount as shown on the receipt, "R$ 1.234,50".
    The code formats with Python's "{:,.2f}" (thousands grouped by ',',
    decimal point '.') and then exchanges ',' and '.' through the
    placeholder 'X'. The amount is taken as an exact number of centavos. */
module Currency {
  import opened Text

  predicate IsDigit(c: char) {
    '0' <= c <= '9'
  }

  function DigitValue(c: char): (d: nat)
    requires IsDigit(c)
    ensures d < 10
  {
    c as int - '0' as int
  }

  function DigitChar(d: nat): (c: char)
    requires d < 10
    ensures IsDigit(c) && DigitValue(c) == d
  {
    ('0' as int + d) as char
  }

  /** Decimal numeral of `n`, without leading zeros. */
  function Digits(n: nat): string
    decreases n
  {
    if n < 10 then [DigitChar(n)] else Digits(n / 10) + [DigitChar(n % 10)]
  }

  /** Three digits with leading zeros, for a group after a separator. */
  function Pad3(n: nat): string
    requires n < 1000
  {
    [DigitChar(n / 100), DigitChar(n / 10 % 10), DigitChar(n % 10)]
  }

  /** `n` written with its digits grouped by threes, `sep` between groups. */
  function Grouped(n: nat, sep: char): string
    decreases n
  {
    if n < 1000 then Digits(n) else Grouped(n / 1000, sep) + [sep] + Pad3(n % 1000)
  }

  function Abs(k: int): nat {
    if k < 0 then -k else k
  }

  function Sign(cents: int): string {
    if cents < 0 then "-" else ""
  }

  /** The two digits after the decimal mark. */
  function CentDigits(cents: int): string {
    [DigitChar(Abs(cents) % 100 / 10), DigitChar(Abs(cents) % 10)]
  }

  /** A number of centavos as a fixed-point numeral with two decimals:
      optional sign, grouped reais, the decimal mark, two cent digits. */
  function Fixed2(cents: int, thousands: char, decimal: char): string {
    Sign(cents) + Grouped(Abs(cents) / 100, thousands) + [decimal] + CentDigits(cents)
  }

  /** Python's `"{:,.2f}".format(v)` for `v` = `cents` / 100: its digits
      spell the amount in centavos; it ends in '.' and two digits, and that
      '.' is its only one; it never holds the placeholder 'X'. */
  function PyFormat(cents: int): (r: string)
    ensures Value(r) == Abs(cents)
    ensures |r| >= 4 && r[|r| - 3] == '.' && IsDigit(r[|r| - 2]) && IsDigit(r[|r| - 1])
    ensures forall i :: 0 <= i < |r| - 3 ==> r[i] != '.'
    ensures forall i :: 0 <= i < |r| ==> r[i] != 'X'
  {
    ValueFixed2(cents, ',', '.');
    GroupedChars(Abs(cents) / 100, ',');
    var head := Sign(cents) + Grouped(Abs(cents) / 100, ',');
    assert forall i :: 0 <= i < |head| ==> head[i] != '.' && head[i] != 'X';
    assert Fixed2(cents, ',', '.') == head + ['.'] + CentDigits(cents);
    Fixed2(cents, ',', '.')
  }

  /** `.replace(',', 'X').replace('.', ',').replace('X', '.')`. */
  function SwapSeparators(s: string): (r: string)
    ensures |r| == |s|
    ensures forall i :: 0 <= i < |s| ==>
      r[i] == (if s[i] == ',' || s[i] == 'X' then '.' else if s[i] == '.' then ',' else s[i])
  {
    ReplaceChar(ReplaceChar(ReplaceChar(s, ',', 'X'), '.', ','), 'X', '.')
  }

  /** On text without the placeholder, the swap is its own inverse. */
  lemma SwapInvolution(s: string)
    requires forall i :: 0 <= i < |s| ==> s[i] != 'X'
    ensures SwapSeparators(SwapSeparators(s)) == s
  {
    var t := SwapSeparators(SwapSeparators(s));
    assert |t| == |s|;
    forall i | 0 <= i < |s| ensures t[i] == s[i] {
      assert SwapSeparators(s)[i] != 'X';
    }
  }

  lemma SwapConcat(s: string, t: string)
    ensures SwapSeparators(s + t) == SwapSeparators(s) + SwapSeparators(t)
  {
    ReplaceConcat(s, t, ',', 'X');
    ReplaceConcat(ReplaceChar(s, ',', 'X'), ReplaceChar(t, ',', 'X'), '.', ',');
    ReplaceConcat(ReplaceChar(ReplaceChar(s, ',', 'X'), '.', ','),
                  ReplaceChar(ReplaceChar(t, ',', 'X'), '.', ','), 'X', '.');
  }

  lemma SwapKeepsDigits(s: string)
    requires forall i :: 0 <= i < |s| ==> IsDigit(s[i])
    ensures SwapSeparators(s) == s
  {
  }

  lemma {:induction false} DigitsAreDigits(n: nat)
    ensures |Digits(n)| >= 1
    ensures forall i :: 0 <= i < |Digits(n)| ==> IsDigit(Digits(n)[i])
    decreases n
  {
    if n >= 10 {
      DigitsAreDigits(n / 10);
    }
  }

  lemma {:induction false} GroupedChars(n: nat, sep: char)
    ensures |Grouped(n, sep)| >= 1
    ensures forall i :: 0 <= i < |Grouped(n, sep)| ==>
      IsDigit(Grouped(n, sep)[i]) || Grouped(n, sep)[i] == sep
    decreases n
  {
    DigitsAreDigits(n);
    if n >= 1000 {
      GroupedChars(n / 1000, sep);
    }
  }

  /** Swapping the separators of the Python numeral regroups it with '.'. */
  lemma {:induction false} SwapGrouped(n: nat)
    ensures SwapSeparators(Grouped(n, ',')) == Grouped(n, '.')
    decreases n
  {
    if n < 1000 {
      DigitsAreDigits(n);
      SwapKeepsDigits(Digits(n));
    } else {
      SwapGrouped(n / 1000);
      SwapConcat(Grouped(n / 1000, ',') + [','], Pad3(n % 1000));
      SwapConcat(Grouped(n / 1000, ','), [',']);
      SwapKeepsDigits(Pad3(n % 1000));
    }
  }


  /** Swapping the separators of the Python numeral gives the Brazilian one. */
  lemma SwapFixed2(cents: int)
    ensures SwapSeparators(Fixed2(cents, ',', '.')) == Fixed2(cents, '.', ',')
  {
    var sg := Sign(cents);
    var g := Grouped(Abs(cents) / 100, ',');
    var tail := CentDigits(cents);
    SwapConcat(sg + g + ['.'], tail);
    SwapConcat(sg + g, ['.']);
    SwapConcat(sg, g);
    SwapGrouped(Abs(cents) / 100);
    SwapKeepsDigits(tail);
    assert SwapSeparators(sg) == sg;
    assert SwapSeparators(['.']) == [','];
  }

  /** `valor_formatado`, computed as the code does, is the Brazilian
      notation: "R$ ", the sign of a negative amount, the reais grouped by
      '.', then ',' and exactly two cent digits. */
  function ValorFormatado(cents: int): (r: string)
    ensures r == "R$ " + Fixed2(cents, '.', ',')
  {
    SwapConcat("R$ ", PyFormat(cents));
    SwapFixed2(cents);
    assert SwapSeparators("R$ ") == "R$ ";
    SwapSeparators("R$ " + PyFormat(cents))
  }

  /** Worked example: 1234.50 is shown as "R$ 1.234,50". */
  lemma GroupedThousandsExample()
    ensures Grouped(1234, '.') == "1.234"
  {
    assert Digits(1) == "1";
    assert Pad3(234) == "234";
  }

  lemma ThousandsExample()
    ensures ValorFormatado(123450) == "R$ 1.234,50"
  {
    GroupedThousandsExample();
    assert CentDigits(123450) == "50";
    assert Fixed2(123450, '.', ',') == "1.234,50";
  }

  // Reading a formatted amount back: the digits, separators skipped.

  function Pow10(e: nat): (p: nat)
    ensures p >= 1
  {
    if e == 0 then 1 else 10 * Pow10(e - 1)
  }

  /** Number of decimal digits in `s`. */
  function DigitCount(s: string): nat {
    if s == [] then 0
    else DigitCount(s[..|s| - 1]) + (if IsDigit(s[|s| - 1]) then 1 else 0)
  }

  /** The number spelled by the digits of `s`, all other characters skipped. */
  function Value(s: string): nat {
    if s == [] then 0
    else if IsDigit(s[|s| - 1]) then 10 * Value(s[..|s| - 1]) + DigitValue(s[|s| - 1])
    else Value(s[..|s| - 1])
  }

  lemma MulAssoc10(v: nat, p: nat)
    ensures 10 * (v * p) == v * (10 * p)
  {
  }

  lemma {:induction false} ValueConcat(s: string, t: string)
    ensures Value(s + t) == Value(s) * Pow10(DigitCount(t)) + Value(t)
    ensures DigitCount(s + t) == DigitCount(s) + DigitCount(t)
    decreases |t|
  {
    if t == [] {
      assert s + t == s;
    } else {
      var t' := t[..|t| - 1];
      var c := t[|t| - 1];
      assert (s + t)[..|s + t| - 1] == s + t';
      assert (s + t)[|s + t| - 1] == c;
      ValueConcat(s, t');
      if IsDigit(c) {
        var v, p := Value(s), Pow10(DigitCount(t'));
        assert Value(s + t) == 10 * Value(s + t') + DigitValue(c);
        assert Value(t) == 10 * Value(t') + DigitValue(c);
        assert Pow10(DigitCount(t)) == 10 * p;
        MulAssoc10(v, p);
      }
    }
  }

  lemma {:induction false} ValueDigits(n: nat)
    ensures Value(Digits(n)) == n
    decreases n
  {
    if n >= 10 {
      ValueDigits(n / 10);
      ValueConcat(Digits(n / 10), [DigitChar(n % 10)]);
      assert [DigitChar(n % 10)][..0] == [];
    }
  }

  lemma ValueOneDigit(a: nat)
    requires a < 10
    ensures Value([DigitChar(a)]) == a && DigitCount([DigitChar(a)]) == 1
  {
    assert [DigitChar(a)][..0] == [];
  }

  lemma ValueTwoDigits(a: nat, b: nat)
    requires a < 10 && b < 10
    ensures Value([DigitChar(a), DigitChar(b)]) == 10 * a + b
    ensures DigitCount([DigitChar(a), DigitChar(b)]) == 2
  {
    assert [DigitChar(a), DigitChar(b)][..1] == [DigitChar(a)];
    ValueOneDigit(a);
  }

  lemma ValuePad3(n: nat)
    requires n < 1000
    ensures Value(Pad3(n)) == n && DigitCount(Pad3(n)) == 3
  {
    var h, t, u := n / 100, n / 10 % 10, n % 10;
    var p := Pad3(n);
    ValueTwoDigits(h, t);
    assert p[..2] == [DigitChar(h), DigitChar(t)];
    assert Value(p) == 10 * (10 * h + t) + u;
  }

  lemma NonDigitSkipped(s: string, c: char)
    requires !IsDigit(c)
    ensures Value(s + [c]) == Value(s) && DigitCount(s + [c]) == DigitCount(s)
  {
    assert (s + [c])[..|s|] == s;
  }

  lemma {:induction false} ValueGrouped(n: nat, sep: char)
    requires !IsDigit(sep)
    ensures Value(Grouped(n, sep)) == n
    decreases n
  {
    if n < 1000 {
      ValueDigits(n);
    } else {
      ValueGrouped(n / 1000, sep);
      NonDigitSkipped(Grouped(n / 1000, sep), sep);
      ValuePad3(n % 1000);
      ValueConcat(Grouped(n / 1000, sep) + [sep], Pad3(n % 1000));
    }
  }

  lemma ValueNoDigits(s: string)
    requires forall i :: 0 <= i < |s| ==> !IsDigit(s[i])
    ensures Value(s) == 0
    decreases |s|
  {
    if s != [] {
      ValueNoDigits(s[..|s| - 1]);
    }
  }

  lemma DivMod100(a: nat)
    ensures (a / 100) * 100 + (10 * (a % 100 / 10) + a % 10) == a
  {
  }

  lemma ValueSignGrouped(cents: int, thousands: char, decimal: char)
    requires !IsDigit(thousands) && !IsDigit(decimal)
    ensures Value(Sign(cents) + Grouped(Abs(cents) / 100, thousands) + [decimal]) == Abs(cents) / 100
  {
    var g := Grouped(Abs(cents) / 100, thousands);
    ValueNoDigits(Sign(cents));
    ValueGrouped(Abs(cents) / 100, thousands);
    ValueConcat(Sign(cents), g);
    NonDigitSkipped(Sign(cents) + g, decimal);
  }

  lemma ValueFixed2(cents: int, thousands: char, decimal: char)
    requires !IsDigit(thousands) && !IsDigit(decimal)
    ensures Value(Fixed2(cents, thousands, decimal)) == Abs(cents)
  {
    var a := Abs(cents);
    var head := Sign(cents) + Grouped(a / 100, thousands) + [decimal];
    var tail := CentDigits(cents);
    ValueSignGrouped(cents, thousands, decimal);
    ValueTwoDigits(a % 100 / 10, a % 10);
    ValueConcat(head, tail);
    assert Pow10(2) == 100;
    DivMod100(a);
    assert Fixed2(cents, thousands, decimal) == head + tail;
  }

  /** The displayed amount denotes exactly the amount: its digits, read in
      order with the separators skipped, are the number of centavos. */
  lemma ValorFormatadoDenotes(cents: int)
    ensures Value(ValorFormatado(cents)) == Abs(cents)
  {
    ValueNoDigits("R$ ");
    ValueFixed2(cents, '.', ',');
    ValueConcat("R$ ", Fixed2(cents, '.', ','));
  }

  /** The displayed amount carries a '-' exactly when it is negative. */
  lemma ValorFormatadoSign(cents: int)
    ensures '-' in ValorFormatado(cents) <==> cents < 0
  {
    var r := ValorFormatado(cents);
    var g := Grouped(Abs(cents) / 100, '.');
    var tail := CentDigits(cents);
    assert r == "R$ " + Sign(cents) + g + [','] + tail;
    if cents < 0 {
      assert r[3] == '-';
    } else {
      GroupedNoMinus(Abs(cents) / 100, '.');
      assert '-' !in tail;
      assert Sign(cents) == "";
      assert '-' !in "R$ " + g;
      assert '-' !in ("R$ " + g) + [','];
    }
  }

  lemma {:induction false} GroupedNoMinus(n: nat, sep: char)
    requires sep != '-'
    ensures '-' !in Grouped(n, sep)
    decreases n
  {
    if n < 1000 {
      DigitsAreDigits(n);
    } else {
      GroupedNoMinus(n / 1000, sep);
    }
  }

  /** The money texts of the receipt: the amount box, the MENSALIDADE row
      and the VALOR TOTAL row show the same `valor_formatado`; the two other
      charge rows are the fixed placeholder "R$ -". */
  datatype AmountTexts = AmountTexts(box: string, mensalidade: string,
                                     altContrato: string, regularizacao: string,
                                     total: string)

  function ReceiptAmounts(cents: int): (t: AmountTexts)
    ensures t.box == ValorFormatado(cents)
    ensures t.total == t.mensalidade == t.box
    ensures Value(t.total) == Abs(cents)
    ensures '-' in t.total <==> cents < 0
    ensures t.altContrato == t.regularizacao == "R$ -"
  {
    var valorFormatado := ValorFormatado(cents);
    ValorFormatadoDenotes(cents);
    ValorFormatadoSign(cents);
    AmountTexts(valorFormatado, valorFormatado, "R$ -", "R$ -", valorFormatado)
  }
}
