/** One redraw of the progress bar, as a pure function of the bar's fixed
    settings, the width recorded by the previous redraw and the arguments of
    `update`: the pieces `update` assembles, the width it records and the text
    `log_msg` writes. */
module Render {
  import opened Wrappers
  import opened Text
  import opened Ansi
  import opened Info

  type Positive = n: int | n >= 1 witness 1

  /** U+2501 BOX DRAWINGS HEAVY HORIZONTAL, the cell of the track. */
  const GLYPH: char := '\U{2501}'
  const BACKSPACE: char := '\U{8}'

  /** `f"{bar_prefix} " if bar_prefix else ""`: a non-empty prefix gets one
      trailing space; an empty or missing one becomes empty. */
  function NormalizePrefix(p: Option<string>): (r: string)
    ensures r == [] <==> p.None? || p.value == []
    ensures r != [] ==> |r| == |p.value| + 1 && r[..|p.value|] == p.value && r[|p.value|] == ' '
  {
    match p
    case Some(s) => if s != [] then s + " " else []
    case None => []
  }

  /** `"%{numdigits}d/%d" % (current, target)` with `numdigits` the digit count
      of `target`. */
  function Label(target: Positive, current: int): string
  {
    LeftPad(IntToDecimal(current), NumDigits(target)) + "/" + IntToDecimal(target)
  }

  /** Python's `int()` of a quotient: division truncating toward zero. */
  function TruncDiv(a: int, b: Positive): int
  {
    if a >= 0 then a / b else -((-a) / b)
  }

  /** `prog_width = int(self.width * (float(current) / self.target))`, computed
      exactly. */
  function Filled(target: Positive, width: nat, current: int): int
  {
    TruncDiv(width * current, target)
  }

  /** The green segment of `f` cells, present only when `f > 0`. */
  function FilledSegment(f: int): string
  {
    if f > 0 then Styled("32", Repeat(GLYPH, f)) else []
  }

  /** The grey segment of `width - f` cells, always present (nothing between
      its codes when `f >= width`). */
  function UnfilledSegment(f: int, width: nat): string
  {
    Styled("37", Repeat(GLYPH, width - f))
  }

  /** `"".join(_bar)`: the bold label and a space, then the two segments. */
  function Assemble(lab: string, f: int, width: nat): string
  {
    Styled("1", lab) + " " + FilledSegment(f) + UnfilledSegment(f, width)
  }

  /** `bar`. */
  function BarText(target: Positive, width: nat, current: int): string
  {
    Assemble(Label(target, current), Filled(target, width, current), width)
  }

  /** `n_special_chars`: 9 for the green segment when it is drawn, 17 always. */
  function SpecialChars(f: int): nat
  {
    (if f > 0 then 9 else 0) + 17
  }

  /** The number of track cells drawn when `f` are filled: the filled ones (if
      any) and `width - f` unfilled ones (if that is positive). */
  function Cells(f: int, width: nat): nat
  {
    (if f > 0 then f else 0) + (if width - f > 0 then width - f else 0)
  }

  /** `info or info_kwargs`: either dict is non-empty (a missing `info` is `[]`). */
  predicate InfoGiven(info: seq<Entry>, kwargs: seq<Entry>)
  {
    info != [] || kwargs != []
  }

  /** `bar_info`. */
  function InfoText(info: seq<Entry>, kwargs: seq<Entry>): string
  {
    if InfoGiven(info, kwargs) then CreateBarInfo(Merge(info, kwargs)) else []
  }

  /** What follows the bar in the message: a space and `bar_info`, if any. */
  function Suffix(info: seq<Entry>, kwargs: seq<Entry>): string
  {
    if InfoGiven(info, kwargs) then " " + InfoText(info, kwargs) else []
  }

  /** `total_width`, the value `update` stores in `_prev_width`. */
  function TotalWidth(target: Positive, width: nat, current: int, info: seq<Entry>, kwargs: seq<Entry>): int
  {
    |BarText(target, width, current)| + |InfoText(info, kwargs)| + 1
      - SpecialChars(Filled(target, width, current))
  }

  /** The blanks written after the line when the previous redraw recorded a
      larger width than this one: the difference between the two recorded
      widths. Since a recorded width leaves out the indent and the prefix and
      counts one cell too many without info text, these blanks do not always
      reach the end of the previous line (see `StaleInfoTail` and
      `StaleIndent`). */
  function Padding(prev: nat, total: int): string
  {
    if prev > total then Repeat(' ', prev - total) else []
  }

  /** The part of the message between the carriage return and the padding. */
  function Body(prefix: string, target: Positive, width: nat, current: int, info: seq<Entry>, indent: int, kwargs: seq<Entry>): string
  {
    Repeat(' ', indent) + prefix + BarText(target, width, current) + Suffix(info, kwargs)
  }

  /** `"".join(message)` for an update when the previous redraw recorded `prev`. */
  function Message(prev: nat, prefix: string, target: Positive, width: nat, current: int, info: seq<Entry>, indent: int, kwargs: seq<Entry>): string
  {
    Repeat(BACKSPACE, prev) + "\r"
      + Body(prefix, target, width, current, info, indent, kwargs)
      + Padding(prev, TotalWidth(target, width, current, info, kwargs))
  }

  /** `current == self.target if finished is None else finished`. */
  predicate LineBreak(target: Positive, current: int, finished: Option<bool>)
  {
    match finished
    case None => current == target
    case Some(b) => b
  }

  /** What `log_msg` writes: the message, then a newline if asked for. */
  function Written(message: string, lineBreak: bool): (r: string)
    ensures |r| == |message| + (if lineBreak then 1 else 0)
    ensures r[..|message|] == message
    ensures lineBreak ==> r[|message|] == '\n'
  {
    if lineBreak then message + "\n" else message
  }

  // ----- The label -----

  lemma DecimalHasNo(n: int, c: char)
    requires !IsDigit(c) && c != '-'
    ensures c !in IntToDecimal(n)
  {
    var d := if n < 0 then NatToDecimal(-n) else NatToDecimal(n);
    assert forall i :: 0 <= i < |d| ==> d[i] != c;
  }

  /** The label holds no escape character and no newline. */
  lemma LabelPlain(target: Positive, current: int)
    ensures ESC !in Label(target, current) && '\n' !in Label(target, current)
  {
    var padded := LeftPad(IntToDecimal(current), NumDigits(target));
    assert forall i :: 0 <= i < |padded| - |IntToDecimal(current)| ==> padded[i] == ' ';
    assert padded == padded[..|padded| - |IntToDecimal(current)|] + IntToDecimal(current);
    DecimalHasNo(current, ESC);
    DecimalHasNo(target, ESC);
    DecimalHasNo(current, '\n');
    DecimalHasNo(target, '\n');
  }

  /** The label is `current` right-aligned in a field as wide as `target` has
      digits, a slash and `target`, so `"{current}/{target}"` occurs in it. It
      holds no escape character and no newline. */
  lemma LabelShape(target: Positive, current: int)
    ensures Infix(IntToDecimal(current) + "/" + IntToDecimal(target), Label(target, current))
    ensures ESC !in Label(target, current) && '\n' !in Label(target, current)
  {
    var c := IntToDecimal(current);
    var t := IntToDecimal(target);
    var padded := LeftPad(c, NumDigits(target));
    var pad := padded[..|padded| - |c|];
    assert padded == pad + c;
    assert Label(target, current) == pad + (c + "/" + t) + [];
    InfixOfConcat(pad, c + "/" + t, []);
    LabelPlain(target, current);
  }

  /** For `0 <= current <= target` the label is exactly `2 * digits(target) + 1`
      characters long, whatever `current` is. */
  lemma LabelLength(target: Positive, current: int)
    requires 0 <= current <= target
    ensures |Label(target, current)| == 2 * NumDigits(target) + 1
  {
    NumDigitsMonotone(current, target);
  }

  // ----- The track -----

  /** For `0 <= current <= target` the filled count is `floor(width * current /
      target)`, lies in `[0, width]`, and filled and unfilled cells total exactly
      `width`. */
  lemma FilledInRange(target: Positive, width: nat, current: int)
    requires 0 <= current <= target
    ensures Filled(target, width, current) == width * current / target
    ensures 0 <= Filled(target, width, current) <= width
    ensures Cells(Filled(target, width, current), width) == width
  {
    ProductBounds(width, current, target);
    QuotientAtMost(width * current, width, target);
  }

  lemma ProductBounds(w: nat, c: nat, t: nat)
    requires c <= t
    ensures 0 <= w * c <= w * t
  {
    assert w * t - w * c == w * (t - c);
  }

  lemma QuotientAtMost(a: nat, w: nat, t: Positive)
    requires a <= w * t
    ensures a / t <= w
  {
    var q := a / t;
    assert q * t <= a;
    assert (q - w) * t <= a - w * t;
  }

  lemma EscCount(params: string, body: string)
    requires ESC !in params && ESC !in body
    ensures multiset(Styled(params, body))[ESC] == 2
  {
    SgrEsc(params);
    SgrEsc("0");
    CountThree(Sgr(params), body, RESET, ESC);
  }

  lemma SgrEsc(params: string)
    requires ESC !in params
    ensures multiset(Sgr(params))[ESC] == 1
  {
    CountThree([ESC, '['], params, "m", ESC);
  }

  /** The green segment is drawn exactly when some cell is filled: the bar then
      holds six escape characters (bold, reset, green, reset, grey, reset), and
      four otherwise. */
  lemma {:induction false} AssembleSegments(lab: string, f: int, width: nat)
    requires ESC !in lab
    ensures f > 0 ==> Infix(GREEN + Repeat(GLYPH, f) + RESET, Assemble(lab, f, width))
    ensures multiset(Assemble(lab, f, width))[ESC] == if f > 0 then 6 else 4
  {
    var head := Styled("1", lab);
    var green := FilledSegment(f);
    var grey := UnfilledSegment(f, width);
    EscCount("1", lab);
    RepeatExcludes(GLYPH, width - f, ESC);
    EscCount("37", Repeat(GLYPH, width - f));
    GreenEscapes(f);
    CountBar(head, green, grey, if f > 0 then 2 else 0);
    if f > 0 {
      InfixOfConcat(head + " ", green, grey);
    }
  }

  lemma GreenEscapes(f: int)
    ensures multiset(FilledSegment(f))[ESC] == if f > 0 then 2 else 0
  {
    if f > 0 {
      RepeatExcludes(GLYPH, f, ESC);
      EscCount("32", Repeat(GLYPH, f));
    }
  }

  lemma CountBar(head: string, green: string, grey: string, g: nat)
    requires multiset(head)[ESC] == 2 && multiset(green)[ESC] == g && multiset(grey)[ESC] == 2
    ensures multiset(head + " " + green + grey)[ESC] == 4 + g
  {
    CountParts(head, " ", green, grey, ESC);
  }

  /** What a terminal shows of the two segments followed by more text: the
      track cells, then what it shows of the rest. */
  lemma VisibleTrack(f: int, width: nat, rest: string)
    ensures Visible(FilledSegment(f) + (UnfilledSegment(f, width) + rest)) == Repeat(GLYPH, Cells(f, width)) + Visible(rest)
  {
    var off := Repeat(GLYPH, width - f);
    RepeatExcludes(GLYPH, width - f, ESC);
    if f > 0 {
      var on := Repeat(GLYPH, f);
      RepeatExcludes(GLYPH, f, ESC);
      RepeatAdd(GLYPH, f, width - f);
      TrackBoth(on, off, rest);
    } else {
      VisibleStyled("37", off, rest);
      assert FilledSegment(f) + (UnfilledSegment(f, width) + rest) == UnfilledSegment(f, width) + rest;
    }
  }

  /** Both segments drawn: the terminal shows the green cells, then the grey ones. */
  lemma TrackBoth(on: string, off: string, rest: string)
    requires ESC !in on && ESC !in off
    ensures Visible(Styled("32", on) + (Styled("37", off) + rest)) == on + off + Visible(rest)
  {
    VisibleStyled("37", off, rest);
    VisibleStyled("32", on, Styled("37", off) + rest);
    Regroup3(on, off, Visible(rest));
  }

  /** What a terminal shows of the assembled bar followed by more text: the
      label, a space, the track cells, then what it shows of the rest. */
  lemma VisibleAssemble(lab: string, f: int, width: nat, rest: string)
    requires ESC !in lab
    ensures Visible(Assemble(lab, f, width) + rest) == lab + " " + Repeat(GLYPH, Cells(f, width)) + Visible(rest)
  {
    var green := FilledSegment(f);
    var grey := UnfilledSegment(f, width);
    var more := green + (grey + rest);
    var cells := Repeat(GLYPH, Cells(f, width));
    VisibleTrack(f, width, rest);
    Regroup5(Styled("1", lab), " ", green, grey, rest);
    VisibleStyled("1", lab, " " + more);
    VisiblePlain(" ", more);
    Regroup5(lab, " ", cells, Visible(rest), []);
  }

  /** `n_special_chars` is exactly the number of characters of `bar` that belong
      to control sequences: what is left is the label, a space and the track
      cells. */
  lemma {:induction false} SpecialCharsAreControls(lab: string, f: int, width: nat)
    requires ESC !in lab
    ensures Visible(Assemble(lab, f, width)) == lab + " " + Repeat(GLYPH, Cells(f, width))
    ensures |Assemble(lab, f, width)| - SpecialChars(f) == |Visible(Assemble(lab, f, width))|
  {
    VisibleAssemble(lab, f, width, []);
    assert Assemble(lab, f, width) + [] == Assemble(lab, f, width);
  }

  // ----- The recorded width -----

  /** The stored width follows the code's formula, which comes to the width of
      the label, a space, the track cells, the info text and one more: the `+ 1`
      is counted whether or not there is info text. For `0 <= current <= target`
      it depends on the digits of `target`, `width` and the info text alone. */
  lemma TotalWidthValue(target: Positive, width: nat, current: int, info: seq<Entry>, kwargs: seq<Entry>)
    ensures TotalWidth(target, width, current, info, kwargs)
         == |Visible(BarText(target, width, current))| + |InfoText(info, kwargs)| + 1
    ensures TotalWidth(target, width, current, info, kwargs)
         == |Label(target, current)| + 1 + Cells(Filled(target, width, current), width) + |InfoText(info, kwargs)| + 1
    ensures 0 <= current <= target ==>
      TotalWidth(target, width, current, info, kwargs) == 2 * NumDigits(target) + width + |InfoText(info, kwargs)| + 3
  {
    LabelShape(target, current);
    SpecialCharsAreControls(Label(target, current), Filled(target, width, current), width);
    if 0 <= current <= target {
      LabelLength(target, current);
      FilledInRange(target, width, current);
    }
  }

  /** How the stored width relates to what the line shows: it leaves out the
      indent and the prefix, and it counts one cell more than is shown when there
      is no info text. */
  lemma TotalWidthVersusShown(prefix: string, target: Positive, width: nat, current: int, info: seq<Entry>, indent: int, kwargs: seq<Entry>)
    requires ESC !in prefix && ESC !in InfoText(info, kwargs)
    ensures |Visible(Body(prefix, target, width, current, info, indent, kwargs))| + (if InfoGiven(info, kwargs) then 0 else 1)
         == |Repeat(' ', indent)| + |prefix| + TotalWidth(target, width, current, info, kwargs)
  {
    var suffix := Suffix(info, kwargs);
    assert ESC !in suffix;
    LabelPlain(target, current);
    VisibleLineLength(Repeat(' ', indent), prefix, Label(target, current), Filled(target, width, current), width, suffix);
    TotalWidthValue(target, width, current, info, kwargs);
  }

  /** What a terminal shows of plain text, the bar and more plain text has the
      length of the plain parts, the label, a space and the track cells. */
  lemma VisibleLineLength(spaces: string, prefix: string, lab: string, f: int, width: nat, suffix: string)
    requires ESC !in spaces && ESC !in prefix && ESC !in lab && ESC !in suffix
    ensures |Visible(spaces + prefix + Assemble(lab, f, width) + suffix)|
         == |spaces| + |prefix| + |lab| + 1 + Cells(f, width) + |suffix|
  {
    var bar := Assemble(lab, f, width);
    VisiblePlain(suffix, []);
    EmptyRight(suffix);
    VisibleAssemble(lab, f, width, suffix);
    var shown := Visible(bar + suffix);
    assert |shown| == |lab| + 1 + Cells(f, width) + |suffix|;
    VisiblePlain(prefix, bar + suffix);
    VisiblePlain(spaces, prefix + (bar + suffix));
    Regroup4(spaces, prefix, bar, suffix);
  }

  /** Within range, the stored width does not depend on `current`: two updates
      with the same info text record the same width, so the second one writes
      no padding. */
  lemma SteadyWidth(target: Positive, width: nat, c1: int, c2: int, info: seq<Entry>, kwargs: seq<Entry>)
    requires 0 <= c1 <= target && 0 <= c2 <= target
    ensures TotalWidth(target, width, c1, info, kwargs) == TotalWidth(target, width, c2, info, kwargs)
    ensures Padding(TotalWidth(target, width, c1, info, kwargs), TotalWidth(target, width, c2, info, kwargs)) == []
  {
    TotalWidthValue(target, width, c1, info, kwargs);
    TotalWidthValue(target, width, c2, info, kwargs);
  }

  /** Dropping the info text leaves one cell of the old line on screen. After
      an in-range update with info text, an in-range update without any writes
      blanks for the difference between the two recorded widths; the body it
      shows and those blanks together cover one cell less than the previous
      body showed, so the last character of the old info text stays. */
  lemma StaleInfoTail(prefix: string, target: Positive, width: nat, c1: int, c2: int, info: seq<Entry>, indent: int)
    requires ESC !in prefix && ESC !in InfoText(info, [])
    requires info != []
    requires 0 <= c1 <= target && 0 <= c2 <= target
    ensures TotalWidth(target, width, c1, info, []) == 2 * NumDigits(target) + width + |InfoText(info, [])| + 3
    ensures TotalWidth(target, width, c2, [], []) == 2 * NumDigits(target) + width + 3
    ensures |Visible(Body(prefix, target, width, c2, [], indent, []))|
              + |Padding(TotalWidth(target, width, c1, info, []), TotalWidth(target, width, c2, [], []))|
         == |Visible(Body(prefix, target, width, c1, info, indent, []))| - 1
  {
    TotalWidthValue(target, width, c1, info, []);
    TotalWidthValue(target, width, c2, [], []);
    TotalWidthVersusShown(prefix, target, width, c1, info, indent, []);
    TotalWidthVersusShown(prefix, target, width, c2, [], indent, []);
  }

  /** A smaller indent leaves cells of the old line on screen. Two in-range
      updates with the same info record the same width, so the second writes no
      blanks, and its body is shorter than the first by the difference of the
      indents: that many cells at the end of the old line stay. */
  lemma StaleIndent(prefix: string, target: Positive, width: nat, c1: int, c2: int, info: seq<Entry>, kwargs: seq<Entry>, i1: nat, i2: nat)
    requires ESC !in prefix && ESC !in InfoText(info, kwargs)
    requires 0 <= c1 <= target && 0 <= c2 <= target && i2 <= i1
    ensures TotalWidth(target, width, c1, info, kwargs) == 2 * NumDigits(target) + width + |InfoText(info, kwargs)| + 3
    ensures TotalWidth(target, width, c2, info, kwargs) == TotalWidth(target, width, c1, info, kwargs)
    ensures |Visible(Body(prefix, target, width, c2, info, i2, kwargs))|
              + |Padding(TotalWidth(target, width, c1, info, kwargs), TotalWidth(target, width, c2, info, kwargs))|
         == |Visible(Body(prefix, target, width, c1, info, i1, kwargs))| - (i1 - i2)
  {
    TotalWidthValue(target, width, c1, info, kwargs);
    SteadyWidth(target, width, c1, c2, info, kwargs);
    TotalWidthVersusShown(prefix, target, width, c1, info, i1, kwargs);
    TotalWidthVersusShown(prefix, target, width, c2, info, i2, kwargs);
  }

  // ----- Info text -----

  /** With only one of the two dicts given, the info text is that dict's
      `create_bar_info`, and it follows the bar after one space. */
  lemma OneSidedInfo(d: seq<Entry>)
    requires UniqueKeys(d)
    ensures InfoText(d, []) == CreateBarInfo(d) && InfoText([], d) == CreateBarInfo(d)
    ensures Suffix(d, []) == Suffix([], d) == if d == [] then [] else " " + CreateBarInfo(d)
  {
    MergeEmpty(d);
  }

  /** A character no key and no value uses, other than the separators, does not
      occur in the info text. */
  lemma InfoTextAvoids(info: seq<Entry>, kwargs: seq<Entry>, c: char)
    requires c != ':' && c != ',' && c != ' '
    requires Avoids(info, c) && Avoids(kwargs, c)
    ensures c !in InfoText(info, kwargs) && c !in Suffix(info, kwargs)
  {
    MergeAvoids(info, kwargs, c);
    CreateBarInfoExcludes(Merge(info, kwargs), c);
  }

  // ----- The message -----

  /** Each redraw moves back over the previous line (one backspace per recorded
      cell, then a carriage return) and ends with just enough blanks that, with
      the new width, at least the previous width is overwritten. */
  lemma RedrawShape(prev: nat, prefix: string, target: Positive, width: nat, current: int, info: seq<Entry>, indent: int, kwargs: seq<Entry>)
    ensures var m := Message(prev, prefix, target, width, current, info, indent, kwargs);
      var tw := TotalWidth(target, width, current, info, kwargs);
      var pad := if prev > tw then prev - tw else 0;
      && |m| == prev + 1 + |Body(prefix, target, width, current, info, indent, kwargs)| + pad
      && (forall i :: 0 <= i < prev ==> m[i] == BACKSPACE)
      && m[prev] == '\r'
      && (forall i :: |m| - pad <= i < |m| ==> m[i] == ' ')
      && tw + pad >= prev
      && (prev <= tw ==> pad == 0)
  {
    var body := Body(prefix, target, width, current, info, indent, kwargs);
    var tw := TotalWidth(target, width, current, info, kwargs);
    RedrawOf(Message(prev, prefix, target, width, current, info, indent, kwargs), prev, body, tw);
  }

  /** The shape of a redraw whose body and new width are given. */
  lemma RedrawOf(m: string, prev: nat, body: string, tw: int)
    requires m == Repeat(BACKSPACE, prev) + "\r" + body + Padding(prev, tw)
    ensures var pad := if prev > tw then prev - tw else 0;
      && |m| == prev + 1 + |body| + pad
      && (forall i :: 0 <= i < prev ==> m[i] == BACKSPACE)
      && m[prev] == '\r'
      && (forall i :: |m| - pad <= i < |m| ==> m[i] == ' ')
      && tw + pad >= prev
      && (prev <= tw ==> pad == 0)
  {
    var padding := Padding(prev, tw);
    PartsShape(Repeat(BACKSPACE, prev), body, padding);
  }

  lemma NoNewlineInAssemble(lab: string, f: int, width: nat)
    requires '\n' !in lab
    ensures '\n' !in Assemble(lab, f, width)
  {
    RepeatExcludes(GLYPH, f, '\n');
    RepeatExcludes(GLYPH, width - f, '\n');
    StyledExcludes("1", lab, '\n');
    StyledExcludes("37", Repeat(GLYPH, width - f), '\n');
    if f > 0 {
      StyledExcludes("32", Repeat(GLYPH, f), '\n');
    }
    PartsExclude(Styled("1", lab), " ", FilledSegment(f), UnfilledSegment(f, width), '\n');
  }

  lemma StyledExcludes(params: string, body: string, x: char)
    requires x !in params && x !in body && x !in [ESC, '[', 'm', '0']
    ensures x !in Styled(params, body)
  {
  }

  /** No newline is written while the prefix and the info hold none. */
  lemma NoNewlineInMessage(prev: nat, prefix: string, target: Positive, width: nat, current: int, info: seq<Entry>, indent: int, kwargs: seq<Entry>)
    requires '\n' !in prefix && Avoids(info, '\n') && Avoids(kwargs, '\n')
    ensures '\n' !in Message(prev, prefix, target, width, current, info, indent, kwargs)
  {
    LabelShape(target, current);
    NoNewlineInAssemble(Label(target, current), Filled(target, width, current), width);
    InfoTextAvoids(info, kwargs, '\n');
    var tw := TotalWidth(target, width, current, info, kwargs);
    assert '\n' !in Repeat(BACKSPACE, prev) && '\n' !in Repeat(' ', indent) && '\n' !in Padding(prev, tw);
  }

  /** The line ends exactly when the update says it is finished: by default when
      `current` reaches `target`, otherwise as `finished` says. While running the
      bar stays on its line; `finished=True` ends it. */
  lemma NewlineIff(prev: nat, prefix: string, target: Positive, width: nat, current: int, info: seq<Entry>, indent: int, kwargs: seq<Entry>, finished: Option<bool>)
    requires '\n' !in prefix && Avoids(info, '\n') && Avoids(kwargs, '\n')
    ensures var out := Written(Message(prev, prefix, target, width, current, info, indent, kwargs), LineBreak(target, current, finished));
      && ('\n' in out <==> LineBreak(target, current, finished))
      && (finished == None && current != target ==> '\n' !in out)
      && (finished == None && current == target ==> '\n' in out)
      && (finished == Some(true) ==> '\n' in out)
      && (finished == Some(false) ==> '\n' !in out)
  {
    var m := Message(prev, prefix, target, width, current, info, indent, kwargs);
    NoNewlineInMessage(prev, prefix, target, width, current, info, indent, kwargs);
    var out := Written(m, LineBreak(target, current, finished));
    if LineBreak(target, current, finished) {
      assert out[|m|] == '\n';
    } else {
      assert out == m;
    }
  }

  lemma InfixInAssemble(t: string, lab: string, f: int, width: nat)
    requires Infix(t, lab)
    ensures Infix(t, Assemble(lab, f, width))
  {
    var after := RESET + " " + FilledSegment(f) + UnfilledSegment(f, width);
    assert Assemble(lab, f, width) == BOLD + lab + after;
    InfixWiden(t, BOLD, lab, after);
  }

  /** `"{current}/{target}"` occurs in the bar. */
  lemma FractionInBar(target: Positive, width: nat, current: int)
    ensures Infix(IntToDecimal(current) + "/" + IntToDecimal(target), BarText(target, width, current))
  {
    LabelShape(target, current);
    InfixInAssemble(IntToDecimal(current) + "/" + IntToDecimal(target), Label(target, current), Filled(target, width, current), width);
  }

  lemma InfixOfParts(a: string, b: string, c: string, d: string, e: string)
    ensures Infix(b, a + b + c + d + e) && Infix(c, a + b + c + d + e) && Infix(d, a + b + c + d + e)
  {
    assert a + b + c + d + e == a + b + (c + d + e);
    InfixOfConcat(a, b, c + d + e);
    assert a + b + c + d + e == (a + b) + c + (d + e);
    InfixOfConcat(a + b, c, d + e);
    InfixOfConcat(a + b + c, d, e);
  }

  lemma MessageParts(prev: nat, prefix: string, target: Positive, width: nat, current: int, info: seq<Entry>, indent: int, kwargs: seq<Entry>)
    ensures Message(prev, prefix, target, width, current, info, indent, kwargs)
         == (Repeat(BACKSPACE, prev) + "\r" + Repeat(' ', indent)) + prefix + BarText(target, width, current)
            + Suffix(info, kwargs) + Padding(prev, TotalWidth(target, width, current, info, kwargs))
  {
    Regroup(Repeat(BACKSPACE, prev), "\r", Repeat(' ', indent), prefix, BarText(target, width, current),
      Suffix(info, kwargs), Padding(prev, TotalWidth(target, width, current, info, kwargs)));
  }

  /** A piece of a piece of the line, or the info text after its space, is
      shown. */
  lemma ShownParts(back: string, prefix: string, bar: string, suffix: string, padding: string, t: string, info: string)
    requires Infix(t, bar)
    requires suffix == [] || suffix == " " + info
    requires suffix == [] ==> info == []
    ensures Infix(prefix, back + prefix + bar + suffix + padding)
    ensures Infix(t, back + prefix + bar + suffix + padding)
    ensures Infix(info, back + prefix + bar + suffix + padding)
  {
    var m := back + prefix + bar + suffix + padding;
    InfixOfParts(back, prefix, bar, suffix, padding);
    InfixTransitive(t, bar, m);
    if suffix == [] {
      assert OccursAt(info, m, 0);
    } else {
      InfixOfConcat(" ", info, []);
      assert " " + info + [] == suffix;
      InfixTransitive(info, suffix, m);
    }
  }

  /** The message shows the prefix, `"{current}/{target}"` and the info text. */
  lemma LineShows(prev: nat, prefix: string, target: Positive, width: nat, current: int, info: seq<Entry>, indent: int, kwargs: seq<Entry>)
    ensures var m := Message(prev, prefix, target, width, current, info, indent, kwargs);
      && Infix(prefix, m)
      && Infix(IntToDecimal(current) + "/" + IntToDecimal(target), m)
      && Infix(InfoText(info, kwargs), m)
  {
    MessageParts(prev, prefix, target, width, current, info, indent, kwargs);
    FractionInBar(target, width, current);
    ShownParts(Repeat(BACKSPACE, prev) + "\r" + Repeat(' ', indent), prefix, BarText(target, width, current),
      Suffix(info, kwargs), Padding(prev, TotalWidth(target, width, current, info, kwargs)),
      IntToDecimal(current) + "/" + IntToDecimal(target), InfoText(info, kwargs));
  }

  /** A given prefix occurs in the stored one. */
  lemma PrefixKept(p: Option<string>)
    ensures p.Some? ==> Infix(p.value, NormalizePrefix(p))
  {
    if p.Some? && p.value != [] {
      InfixOfConcat([], p.value, " ");
      assert [] + p.value + " " == NormalizePrefix(p);
    } else if p.Some? {
      assert OccursAt(p.value, NormalizePrefix(p), 0);
    }
  }

  /** Whatever the message shows, the written text shows. */
  lemma WrittenKeeps(t: string, m: string, lineBreak: bool)
    requires Infix(t, m)
    ensures Infix(t, Written(m, lineBreak))
  {
    assert OccursAt(m, Written(m, lineBreak), 0);
    InfixTransitive(t, m, Written(m, lineBreak));
  }

  /** What one update writes shows `"{current}/{target}"`, the prefix it was
      given and the info text; with only `info` or only keyword arguments, that
      text is `create_bar_info` of the one dict. */
  lemma OutputShows(prev: nat, p: Option<string>, target: Positive, width: nat, current: int, info: seq<Entry>, indent: int, kwargs: seq<Entry>, finished: Option<bool>)
    ensures var out := Written(Message(prev, NormalizePrefix(p), target, width, current, info, indent, kwargs), LineBreak(target, current, finished));
      && Infix(IntToDecimal(current) + "/" + IntToDecimal(target), out)
      && (p.Some? ==> Infix(p.value, out))
      && Infix(InfoText(info, kwargs), out)
      && (UniqueKeys(info) && kwargs == [] ==> Infix(CreateBarInfo(info), out))
      && (UniqueKeys(kwargs) && info == [] ==> Infix(CreateBarInfo(kwargs), out))
  {
    var prefix := NormalizePrefix(p);
    var m := Message(prev, prefix, target, width, current, info, indent, kwargs);
    var lb := LineBreak(target, current, finished);
    LineShows(prev, prefix, target, width, current, info, indent, kwargs);
    WrittenKeeps(IntToDecimal(current) + "/" + IntToDecimal(target), m, lb);
    WrittenKeeps(prefix, m, lb);
    WrittenKeeps(InfoText(info, kwargs), m, lb);
    if p.Some? {
      PrefixKept(p);
      InfixTransitive(p.value, prefix, Written(m, lb));
    }
    if UniqueKeys(info) && kwargs == [] {
      OneSidedInfo(info);
    }
    if UniqueKeys(kwargs) && info == [] {
      OneSidedInfo(kwargs);
    }
  }

  // ----- Sequence algebra -----
  // Associativity, membership and counting facts about strings laid end to end.
  // They state nothing about the progress bar: each is kept as a lemma of its
  // own so that the proofs above reason about a few opaque pieces instead of the
  // fully unfolded bar.

  /** Appending nothing leaves a string as it is. */
  lemma EmptyRight(s: string)
    ensures s + [] == s
  {
  }

  lemma CountThree(a: string, b: string, c: string, x: char)
    ensures multiset(a + b + c)[x] == multiset(a)[x] + multiset(b)[x] + multiset(c)[x]
  {
  }

  /** Counting a character in four pieces laid end to end. */
  lemma CountParts(a: string, b: string, c: string, d: string, x: char)
    ensures multiset(a + b + c + d)[x] == multiset(a)[x] + multiset(b)[x] + multiset(c)[x] + multiset(d)[x]
  {
  }

  lemma PartsExclude(a: string, b: string, c: string, d: string, x: char)
    requires x !in a && x !in b && x !in c && x !in d
    ensures x !in a + b + c + d
  {
  }

  lemma Regroup3(a: string, b: string, c: string)
    ensures a + (b + c) == a + b + c && [] + a == a
  {
  }

  lemma Regroup4(a: string, b: string, c: string, d: string)
    ensures a + b + c + d == a + (b + (c + d))
  {
  }

  /** Five pieces laid end to end, grouped from the right. */
  lemma Regroup5(a: string, b: string, c: string, d: string, e: string)
    ensures a + b + c + d + e == a + (b + (c + (d + e)))
    ensures a + (b + (c + d)) == a + b + c + d
  {
  }

  lemma Regroup(a: string, b: string, c: string, d: string, e: string, f: string, g: string)
    ensures a + b + (c + d + e + f) + g == (a + b + c) + d + e + f + g
  {
  }

  /** The positions of the pieces of a redraw: the backspaces, the carriage
      return, the body and the padding. */
  lemma PartsShape(back: string, body: string, padding: string)
    ensures var m := back + "\r" + body + padding;
      && |m| == |back| + 1 + |body| + |padding|
      && (forall i :: 0 <= i < |back| ==> m[i] == back[i])
      && m[|back|] == '\r'
      && (forall i :: |m| - |padding| <= i < |m| ==> m[i] == padding[i - (|m| - |padding|)])
  {
  }
}
