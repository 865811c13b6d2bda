/** The words-amount block of the receipt: the text gets a closing period,
    is broken greedily into lines of at most 90 characters, and the first two
    lines are drawn one below the other inside the box. */
module WordWrap {
  import opened Text

  const MaxCharsLine: nat := 90

  /** Vertical distance between two drawn lines. */
  const LineStep: real := 12.0

  /** The closing period: added to a non-empty text that does not already
      end in '.'. */
  function WithPeriod(s: string): (r: string)
    ensures s <= r && |r| <= |s| + 1
    ensures r == [] <==> s == []
    ensures r != [] ==> EndsWith(r, '.')
    ensures EndsWith(s, '.') ==> r == s
  {
    if s != [] && !EndsWith(s, '.') then s + "." else s
  }

  lemma WithPeriodIdempotent(s: string)
    ensures WithPeriod(WithPeriod(s)) == WithPeriod(s)
  {
  }

  /** How a line of the wrap ended: at a space, which the break consumes; by
      a hard cut of a 90-character window without a space; or as the last
      line. */
  datatype Cut = AtSpace | Hard | Last

  datatype Segment = Segment(line: string, cut: Cut)

  /** What a break removes from the text between two lines. */
  function Consumed(c: Cut): string {
    if c == AtSpace then " " else ""
  }

  function Lines(w: seq<Segment>): (ls: seq<string>)
    ensures |ls| == |w|
    ensures forall i :: 0 <= i < |w| ==> ls[i] == w[i].line
  {
    if w == [] then [] else [w[0].line] + Lines(w[1..])
  }

  /** The lines joined back, each followed by what its break consumed. */
  function Rejoin(w: seq<Segment>): string {
    if w == [] then "" else w[0].line + Consumed(w[0].cut) + Rejoin(w[1..])
  }

  /** One iteration of the wrap loop on an over-long text: the line it
      appends and the text that remains. */
  datatype Step = Step(seg: Segment, rest: string)

  /** The break is greedy: at the last space of the 90-character window,
      which it consumes, or a hard cut of a window without a space. The
      remaining text is never empty and always shorter, for both kinds. */
  function Break(text: string): (b: Step)
    requires |text| > MaxCharsLine
    ensures text == b.seg.line + Consumed(b.seg.cut) + b.rest
    ensures 0 < |b.rest| < |text|
    ensures b.seg.cut != Last
    ensures b.seg.cut == AtSpace ==>
      |b.seg.line| < MaxCharsLine && forall j :: |b.seg.line| < j < MaxCharsLine ==> text[j] != ' '
    ensures b.seg.cut == Hard ==>
      |b.seg.line| == MaxCharsLine && forall j :: 0 <= j < MaxCharsLine ==> text[j] != ' '
  {
    var part := text[..MaxCharsLine];
    var lastSpace := RFind(part, ' ');
    assert forall j :: 0 <= j < MaxCharsLine ==> text[j] == part[j];
    if lastSpace == -1 then
      assert text == part + text[MaxCharsLine..];
      Step(Segment(part, Hard), text[MaxCharsLine..])
    else
      assert text == text[..lastSpace] + " " + text[lastSpace + 1..];
      Step(Segment(text[..lastSpace], AtSpace), text[lastSpace + 1..])
  }

  /** The lines the wrap loop produces, with the kind of each break. */
  function Wrap(text: string): (w: seq<Segment>)
    ensures w == [] <==> text == []
    ensures forall i :: 0 <= i < |w| ==> |w[i].line| <= MaxCharsLine
    ensures forall i :: 0 <= i < |w| ==> (w[i].cut == Last <==> i == |w| - 1)
    ensures forall i :: 0 <= i < |w| && w[i].cut == Hard ==>
      |w[i].line| == MaxCharsLine && ' ' !in w[i].line
    decreases |text|
  {
    if text == [] then []
    else if |text| <= MaxCharsLine then [Segment(text, Last)]
    else
      var b := Break(text);
      assert b.seg.cut == Hard ==> ' ' !in b.seg.line by {
        if b.seg.cut == Hard {
          assert forall j :: 0 <= j < |b.seg.line| ==> b.seg.line[j] == text[j];
        }
      }
      [b.seg] + Wrap(b.rest)
  }

  lemma RejoinCons(s: Segment, w: seq<Segment>)
    ensures Rejoin([s] + w) == s.line + Consumed(s.cut) + Rejoin(w)
  {
    assert ([s] + w)[1..] == w;
  }

  /** Rejoining the lines, with a space where a break consumed one and
      nothing at a hard cut, gives back the text. */
  lemma {:induction false} WrapRejoin(text: string)
    ensures Rejoin(Wrap(text)) == text
    decreases |text|
  {
    if |text| > MaxCharsLine {
      var b := Break(text);
      WrapRejoin(b.rest);
      RejoinCons(b.seg, Wrap(b.rest));
    } else if text != [] {
      RejoinCons(Segment(text, Last), []);
    }
  }

  /** A text that fits on a line is that one line; an empty one gives none. */
  lemma ShortTextOneLine(text: string)
    requires |text| <= MaxCharsLine
    ensures Lines(Wrap(text)) == if text == [] then [] else [text]
  {
  }

  /** A text over the limit whose window has its last space at `k`, and whose
      remainder then fits, wraps into exactly two lines, around that space. */
  lemma TwoLines(text: string)
    requires |text| > MaxCharsLine
    requires RFind(text[..MaxCharsLine], ' ') >= 0
    requires |text| - RFind(text[..MaxCharsLine], ' ') - 1 <= MaxCharsLine
    ensures var k := RFind(text[..MaxCharsLine], ' ');
      Lines(Wrap(text)) == [text[..k], text[k + 1..]]
  {
    var k := RFind(text[..MaxCharsLine], ' ');
    var b := Break(text);
    assert b == Step(Segment(text[..k], AtSpace), text[k + 1..]);
    assert Wrap(b.rest) == [Segment(b.rest, Last)];
  }

  lemma WrapUnfold(text: string)
    requires |text| > MaxCharsLine
    ensures Lines(Wrap(text)) == [Break(text).seg.line] + Lines(Wrap(Break(text).rest))
  {
    var b := Break(text);
    assert Wrap(text) == [b.seg] + Wrap(b.rest);
    assert ([b.seg] + Wrap(b.rest))[1..] == Wrap(b.rest);
  }

  lemma WrapStepLines(before: string, done: seq<string>, line: string, after: string, all: seq<string>)
    requires |before| > MaxCharsLine
    requires line == Break(before).seg.line && after == Break(before).rest
    requires done + Lines(Wrap(before)) == all
    ensures (done + [line]) + Lines(Wrap(after)) == all
  {
    WrapUnfold(before);
  }

  /** The wrap loop of the receipt renderer. */
  method WrapLines(text: string) returns (lines: seq<string>)
    ensures lines == Lines(Wrap(text))
  {
    var extenso := text;
    lines := [];
    while extenso != []
      invariant lines + Lines(Wrap(extenso)) == Lines(Wrap(text))
      decreases |extenso|
    {
      if |extenso| <= MaxCharsLine {
        ShortTextOneLine(extenso);
        lines := lines + [extenso];
        break;
      }
      ghost var before, done := extenso, lines;
      var part := extenso[..MaxCharsLine];
      var lastSpace := RFind(part, ' ');
      if lastSpace == -1 {
        lines := lines + [part];
        extenso := extenso[MaxCharsLine..];
      } else {
        lines := lines + [extenso[..lastSpace]];
        extenso := extenso[lastSpace + 1..];
      }
      WrapStepLines(before, done, lines[|lines| - 1], extenso, Lines(Wrap(text)));
    }
  }

  /** `lines[:2]`: the lines that are drawn. */
  function Drawn(lines: seq<string>): (d: seq<string>)
    ensures |d| == Min(|lines|, 2)
    ensures d <= lines
  {
    lines[..Min(|lines|, 2)]
  }

  /** A text draw call on the canvas: the string and its baseline position. */
  datatype TextCall = TextCall(x: real, y: real, text: string)

  /** The draw loop: from the baseline `y0`, each drawn line one `LineStep`
      lower than the one before. */
  method DrawLines(lines: seq<string>, x: real, y0: real) returns (calls: seq<TextCall>)
    ensures |calls| == |Drawn(lines)| <= 2
    ensures forall k :: 0 <= k < |calls| ==>
      calls[k] == TextCall(x, y0 - LineStep * (k as real), lines[k])
  {
    var shown := Drawn(lines);
    var textY := y0;
    calls := [];
    for i := 0 to |shown|
      invariant |calls| == i
      invariant textY == y0 - LineStep * (i as real)
      invariant forall k :: 0 <= k < i ==>
        calls[k] == TextCall(x, y0 - LineStep * (k as real), lines[k])
    {
      calls := calls + [TextCall(x, textY, shown[i])];
      textY := textY - LineStep;
    }
  }

  /** The whole block: period, wrap, draw. At most two lines appear, none
      longer than 90 characters, and together with what the wrap consumed
      they begin the period-terminated text. */
  method DrawExtenso(valorExtenso: string, x: real, y0: real) returns (calls: seq<TextCall>)
    ensures |calls| == Min(|Wrap(WithPeriod(valorExtenso))|, 2)
    ensures forall k :: 0 <= k < |calls| ==> |calls[k].text| <= MaxCharsLine
    ensures forall k :: 0 <= k < |calls| ==> calls[k].text == Wrap(WithPeriod(valorExtenso))[k].line
    ensures forall k :: 0 <= k < |calls| ==> calls[k].x == x && calls[k].y == y0 - LineStep * (k as real)
    ensures valorExtenso == [] <==> calls == []
    ensures 0 < |WithPeriod(valorExtenso)| <= MaxCharsLine ==>
      calls == [TextCall(x, y0, WithPeriod(valorExtenso))]
  {
    var extenso := WithPeriod(valorExtenso);
    var lines := WrapLines(extenso);
    calls := DrawLines(lines, x, y0);
    if 0 < |extenso| <= MaxCharsLine {
      ShortTextOneLine(extenso);
    }
  }
}
