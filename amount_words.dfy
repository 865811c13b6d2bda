/** `valor_por_extenso`: an amount in reais written out in Brazilian
    Portuguese, e.g. "um real e um centavo". The cardinal-number spelling is
    the foreign `num2words(n, lang='pt_BR')`; here it is the parameter
    `words`, about which nothing is assumed. */
module AmountWords {
  import opened Text

  /** The amount as the code splits it: `inteiro = int(v)` and
      `centavos = int(round((v - inteiro) * 100))`. Both may be negative for a
      negative `v`, and `centavos` may be 100 when the fraction rounds up: the
      code has no carry step. */
  datatype Split = Split(inteiro: int, centavos: int)

  /** The split of an amount given exactly as `k` hundredths, for an input with
      at most two decimals: `int()` truncates toward zero (unlike Dafny's `/`),
      and the rounding of the fraction is then exact. */
  function SplitCents(k: int): (s: Split)
    ensures s.inteiro * 100 + s.centavos == k
    ensures -100 < s.centavos < 100
    ensures k >= 0 ==> s.inteiro >= 0 && s.centavos >= 0
    ensures k < 0 ==> s.inteiro <= 0 && s.centavos <= 0
  {
    if k >= 0 then Split(k / 100, k % 100)
    else Split(-((-k) / 100), -((-k) % 100))
  }

  /** The currency noun: singular exactly for one real. */
  function UnitNoun(inteiro: int): (r: string)
    ensures r == "real" <==> inteiro == 1
    ensures r == "reais" <==> inteiro != 1
  {
    if inteiro == 1 then "real" else "reais"
  }

  /** The subunit noun: singular exactly for one centavo. */
  function CentNoun(centavos: int): (r: string)
    ensures r == "centavo" <==> centavos == 1
    ensures r == "centavos" <==> centavos != 1
  {
    if centavos == 1 then "centavo" else "centavos"
  }

  /** `f"{ext} {moeda}"`: the spelled number, one space, the currency noun. */
  function UnitPhrase(inteiro: nat, words: nat -> string): (r: string)
    ensures |r| == |words(inteiro)| + 1 + |UnitNoun(inteiro)|
    ensures r[..|words(inteiro)|] == words(inteiro) && r[|words(inteiro)|] == ' '
    ensures r[|words(inteiro)| + 1..] == UnitNoun(inteiro)
  {
    words(inteiro) + " " + UnitNoun(inteiro)
  }

  /** `f"{extc} {cent}"`: the spelled number, one space, the subunit noun. */
  function CentPhrase(centavos: nat, words: nat -> string): (r: string)
    ensures |r| == |words(centavos)| + 1 + |CentNoun(centavos)|
    ensures r[..|words(centavos)|] == words(centavos) && r[|words(centavos)|] == ' '
    ensures r[|words(centavos)| + 1..] == CentNoun(centavos)
  {
    words(centavos) + " " + CentNoun(centavos)
  }

  /** The list `partes` the code builds: the reais phrase when the integer
      part is positive, then the centavos phrase when the cents are positive. */
  function Partes(s: Split, words: nat -> string): (p: seq<string>)
    ensures |p| == (if s.inteiro > 0 then 1 else 0) + (if s.centavos > 0 then 1 else 0)
    ensures s.inteiro > 0 ==> p[0] == UnitPhrase(s.inteiro, words)
    ensures s.centavos > 0 ==> p[|p| - 1] == CentPhrase(s.centavos, words)
  {
    (if s.inteiro > 0 then [UnitPhrase(s.inteiro, words)] else [])
    + (if s.centavos > 0 then [CentPhrase(s.centavos, words)] else [])
  }

  /** What `float(value)` makes of the input: refused (the `except`
      branch), accepted but not finite (`inf`, `nan`, `1e999`), or a finite
      number split as above. */
  datatype Parsed = Unparseable | NotFinite | Number(split: Split)

  /** How `valor_por_extenso` ends: it returns a text, or `int(v)` raises
      (`OverflowError` for an infinity, `ValueError` for a NaN), outside the
      `try`, so the exception reaches the caller. */
  datatype Outcome = Returns(text: string) | Raises

  /** What `valor_por_extenso` gives for each kind of input. */
  function Extenso(value: Parsed, words: nat -> string): (r: Outcome)
    ensures value.Unparseable? ==> r == Returns("")
    ensures value.NotFinite? ==> r == Raises
    ensures value.Number? && value.split.inteiro > 0 && value.split.centavos > 0 ==>
      r == Returns(UnitPhrase(value.split.inteiro, words) + " e " + CentPhrase(value.split.centavos, words))
    ensures value.Number? && value.split.inteiro > 0 && value.split.centavos <= 0 ==>
      r == Returns(UnitPhrase(value.split.inteiro, words))
    ensures value.Number? && value.split.inteiro <= 0 && value.split.centavos > 0 ==>
      r == Returns(CentPhrase(value.split.centavos, words))
    ensures value.Number? && value.split.inteiro <= 0 && value.split.centavos <= 0 ==>
      r == Returns("zero reais")
  {
    match value
    case Unparseable => Returns("")
    case NotFinite => Raises
    case Number(s) =>
      var partes := Partes(s, words);
      if partes == [] then Returns("zero reais") else Returns(Join(partes, " e "))
  }

  /** `valor_por_extenso` as the code runs it: `partes` grows by `append`,
      then is joined with " e " or replaced by "zero reais". */
  method ValorPorExtenso(value: Parsed, words: nat -> string) returns (r: Outcome)
    ensures r == Extenso(value, words)
  {
    if value.Unparseable? {
      return Returns("");
    }
    if value.NotFinite? {
      return Raises;
    }
    var inteiro, centavos := value.split.inteiro, value.split.centavos;
    var partes: seq<string> := [];
    if inteiro > 0 {
      var ext := words(inteiro);
      var moeda := if inteiro == 1 then "real" else "reais";
      partes := partes + [ext + " " + moeda];
    }
    if centavos > 0 {
      var extc := words(centavos);
      var cent := if centavos == 1 then "centavo" else "centavos";
      partes := partes + [extc + " " + cent];
    }
    if partes == [] {
      return Returns("zero reais");
    }
    assert partes == Partes(value.split, words);
    r := Returns(Join(partes, " e "));
  }

  /** A non-positive amount, however it splits, is written "zero reais". */
  lemma NonPositiveIsZero(k: int, words: nat -> string)
    requires k <= 0
    ensures Extenso(Number(SplitCents(k)), words) == Returns("zero reais")
  {
  }

  /** One real and one centavo: both nouns singular, joined by " e ". */
  lemma OneRealOneCentavo(words: nat -> string)
    ensures Extenso(Number(SplitCents(101)), words) == Returns(words(1) + " real e " + words(1) + " centavo")
  {
    assert SplitCents(101) == Split(1, 1);
    assert UnitPhrase(1, words) == words(1) + " real";
    assert CentPhrase(1, words) == words(1) + " centavo";
  }

  /** With no carry, cents that round to 100 are written as a hundred
      centavos beside the unchanged integer part. */
  lemma NoCarry(inteiro: nat, words: nat -> string)
    requires inteiro > 0
    ensures Extenso(Number(Split(inteiro, 100)), words)
         == Returns(UnitPhrase(inteiro, words) + " e " + words(100) + " centavos")
  {
  }
}
