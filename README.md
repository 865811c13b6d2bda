# Receipt text logic of the monthly-fee receipt generator

The receipt generator is a small local web tool (`recibo_web_app.py`). It stores
customers and renders a one-page PDF payment receipt. This project models the
deterministic text logic inside it:

- **AmountWords** (`valor_por_extenso`): writes an amount in reais out in
  Brazilian Portuguese. It takes the integer part and the cents, picks
  `real`/`reais` and `centavo`/`centavos`, and joins the present parts with
  `" e "`. With neither part positive it gives `"zero reais"`, for an
  unparseable value it gives `""`, and for a value that parses to an infinity
  or a NaN the `int()` conversion raises. The cardinal-number spelling
  (`num2words(n, lang='pt_BR')`) is a foreign library, so it enters as the
  parameter `words: nat -> string`, about which nothing is assumed.
- **Currency** (`valor_formatado`): Python's `"{:,.2f}"` numeral followed by
  the `,`/`.` exchange through the placeholder `X`. The amount is taken as an
  exact number of centavos. The main lemmas show four things. The result is
  `"R$ "`, the reais grouped by `.`, then `,` and two cent digits. Its digits
  read back to the absolute amount, and it shows `-` exactly for a
  negative number of centavos. The same string fills the amount box, the
  MENSALIDADE row and the VALOR TOTAL row.
- **WordWrap** (the words-amount block of `gerar_recibo_pdf_memoria`): the
  closing period, the greedy 90-character wrap loop, and the loop that draws
  the first two lines 12 units apart. `Wrap` is the reference definition: a
  list of lines, each tagged with how it ended (at a consumed space, a hard
  cut, or last). The loop method `WrapLines` is proved equal to its lines.
- **Download**: the file-name fragment `nome[:20].replace(' ', '_')`.
- **Text**: the Python `str` operations these pieces use (`replace` of one
  character, `rfind`, `endswith`, `join`).

Three behaviours of the code are worth spelling out, because a reader might
expect otherwise; the model follows the code in each:

- Cents that round to 100 would call for a carry into the integer part. The
  code has no carry step, and neither has the model: `Split(2, 100)` is
  written "... e cem centavos" (`AmountWords.NoCarry`).
- An unparseable amount does not make `valor_por_extenso` fail: the code
  returns the empty string, and so does the model (`Unparseable` -> `""`).
- Negative amounts are accepted: words give `"zero reais"`, and the
  formatter prints a `-` sign. The model does both.

## Model

| member | source | states |
|---|---|---|
| Text.ReplaceChar | recibo_web_app.py:142 | `replace` of one character keeps the length and changes exactly the occurrences of the old character, position by position |
| Text.RFind | recibo_web_app.py:187 | `rfind(' ')` gives -1 or an index holding a space, with no space after it |
| Text.Join | recibo_web_app.py:107 | `' e '.join` of no parts is empty; of one part it is that part; of two parts it is the first, the separator, the second; a non-empty join begins with the first part |
| AmountWords.SplitCents | recibo_web_app.py:94-95 | for an exact two-decimal amount, the integer part truncates toward zero: parts recombine to the amount, cents lie strictly between -100 and 100, and both parts share the amount's sign |
| AmountWords.UnitNoun | recibo_web_app.py:99 | the noun is `real` exactly when the integer part is 1, otherwise `reais` |
| AmountWords.CentNoun | recibo_web_app.py:103 | the noun is `centavo` exactly when the cents are 1, otherwise `centavos` |
| AmountWords.UnitPhrase | recibo_web_app.py:98-100 | the reais phrase is the spelled number, one space, then the noun chosen for the integer part |
| AmountWords.CentPhrase | recibo_web_app.py:102-104 | the centavos phrase is the spelled number, one space, then the noun chosen for the cents |
| AmountWords.Partes | recibo_web_app.py:96-104 | the list has one entry per positive part: the reais phrase first, the centavos phrase last |
| AmountWords.Extenso | recibo_web_app.py:88-107 | unparseable gives `""`; an infinity or NaN raises; both parts positive give reais phrase, `" e "`, centavos phrase in that order; one positive part gives that phrase alone; neither gives `"zero reais"` |
| AmountWords.ValorPorExtenso | recibo_web_app.py:88-107 | returning early on an unparseable or non-finite value, building `partes` by append and joining gives exactly `Extenso` |
| AmountWords.NonPositiveIsZero | recibo_web_app.py:94-106 | every zero or negative exact amount is written `"zero reais"` |
| AmountWords.OneRealOneCentavo | recibo_web_app.py:96-107 | 1.01 is written with both singular nouns joined by `" e "` |
| AmountWords.NoCarry | recibo_web_app.py:95-104 | cents of 100 are written as `words(100) + " centavos"` beside the unchanged integer part |
| Currency.PyFormat | recibo_web_app.py:142 | the `"{:,.2f}"` numeral reads back to the absolute amount in centavos, ends in `.` and two digits with no other `.` before, and contains no `X`, so the placeholder cannot clash |
| Currency.SwapSeparators | recibo_web_app.py:142 | the three-`replace` chain keeps the length, maps `,` and `X` to `.`, `.` to `,`, and keeps every other character |
| Currency.SwapInvolution | recibo_web_app.py:142 | on text without `X` the exchange undoes itself |
| Currency.SwapGrouped | recibo_web_app.py:142 | exchanging the separators of a `,`-grouped numeral gives the `.`-grouped numeral |
| Currency.SwapFixed2 | recibo_web_app.py:142 | exchanging the separators of the `"{:,.2f}"` numeral gives the Brazilian numeral (`.` thousands, `,` decimals) |
| Currency.ValorFormatado | recibo_web_app.py:142 | `valor_formatado` is `"R$ "`, the sign, the reais grouped by `.`, `,` and exactly two cent digits |
| Currency.ThousandsExample | recibo_web_app.py:142 | 1234.50 is shown as `"R$ 1.234,50"` |
| Currency.ValorFormatadoDenotes | recibo_web_app.py:142 | the digits of `valor_formatado`, read with separators skipped, are the absolute amount in centavos (the sign is `ValorFormatadoSign`'s) |
| Currency.ValorFormatadoSign | recibo_web_app.py:142 | `valor_formatado` shows `-` exactly for a negative number of centavos |
| Currency.ReceiptAmounts | recibo_web_app.py:142-224 | the amount box, the MENSALIDADE row and the VALOR TOTAL row carry the same string, `valor_formatado` itself, whose digits read back to the absolute amount and which shows `-` exactly for a negative number of centavos; the two other charge rows are `"R$ -"` |
| WordWrap.WithPeriod | recibo_web_app.py:177-178 | `Text.EndsWith` is `endswith('.')`; the text is a prefix of the result, which is at most one character longer; the result is empty only for empty text, ends in `.` otherwise, and is the text itself when that already ends in `.` |
| WordWrap.WithPeriodIdempotent | recibo_web_app.py:177-178 | adding the period twice equals adding it once |
| WordWrap.Break | recibo_web_app.py:186-193 | one iteration on a text over 90 characters: the line, what the break consumed and the remainder make up the text; the remainder is non-empty and strictly shorter for both break kinds; a space break falls on the last space of the 90-character window, and a hard cut of 90 characters happens only when the window has no space |
| WordWrap.Wrap | recibo_web_app.py:180-193 | empty text gives no lines; every line has at most 90 characters; only the final line ends as last; a hard-cut line has exactly 90 characters and no space |
| WordWrap.WrapRejoin | recibo_web_app.py:182-193 | the lines rejoined with a single space after each space break and nothing after a hard cut reconstruct the text exactly |
| WordWrap.ShortTextOneLine | recibo_web_app.py:182-185 | a text of at most 90 characters gives exactly one line, the text itself (none when empty) |
| WordWrap.TwoLines | recibo_web_app.py:186-193 | an over-long text whose remainder after the window's last space fits wraps into exactly two lines, around that space |
| WordWrap.WrapLines | recibo_web_app.py:180-193 | the `while` loop produces exactly the lines of `Wrap` |
| WordWrap.Drawn | recibo_web_app.py:196 | `lines[:2]` is a prefix of the lines of length min(that length, 2) |
| WordWrap.DrawLines | recibo_web_app.py:194-198 | at most two lines are drawn, the k-th at baseline `y0 - 12k`, in order |
| WordWrap.DrawExtenso | recibo_web_app.py:175-198 | the block draws min(number of wrapped lines, 2) lines of the period-terminated text, each at most 90 characters, the k-th wrapped line at `x` and baseline `y0 - 12k`; nothing for empty text; a text that fits is drawn whole on one line |
| Download.NameFragment | recibo_web_app.py:569 | the fragment has min(length, 20) characters, no space, and differs from `nome[:20]` only where a space became `_` |
| Download.DownloadName | recibo_web_app.py:569 | the file name is `recibo_`, the fragment, `_`, the stamp and `.pdf`, position by position, and 12 characters longer than fragment and stamp together |
| Download.DownloadNameNoSpace | recibo_web_app.py:569 | the file name contains a space exactly when the stamp does |

## Left out

- Flask routes, `flash`/`redirect`, the inline HTML and JavaScript: web plumbing with no text logic of its own.
- SQLite connection handling, `init_db` and the customer and receipt queries: database I/O.
- The ReportLab canvas and every page coordinate except the words-block baselines. The other draw calls are placements on float geometry (`mm`, `A4`) through a foreign drawing API. The words-block baselines are modelled as `real` values given by the caller.
- `num2words`: foreign library; it is the uninterpreted parameter `words`.
- AmountWords.ValorPorExtenso: takes the parsed value as input: unparseable, not finite (which makes `int(v)` raise, modelled as `Raises`), or the finite split. `float()` parsing and the float rounding of `(v - inteiro) * 100` are not modelled. Any split is admitted, including cents of 100. `SplitCents` gives the exact split for amounts with at most two decimals.
- Currency.ValorFormatado: covers amounts given as exact integer centavos. Python's float rounding in `"{:,.2f}"` and the `float(d['valor'])` failure on a bad value are not modelled, because the caller in `generate` has already checked that `float(valor)` succeeds. A value that parses to an infinity or a NaN, which the format prints as `R$ inf` or `R$ nan`, is not modelled either.
- Currency.ValorFormatadoSign: Python prints a negative zero (an input of `-0` or `-0.001`) as `R$ -0,00`. An integer number of centavos cannot express a negative zero, so the model shows `-` only for a negative number of centavos.
- The clock and entropy: the file-name timestamp `datetime.now().strftime('%Y%m%d%H%M%S')` becomes the parameter `stamp`; the default receipt date `datetime.now().strftime('%d/%m/%Y')`, used when the form leaves it empty, is not modelled; `os.urandom` for the session key is not modelled.
- The `__main__` server start.
