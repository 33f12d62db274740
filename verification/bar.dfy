/** The progress bar object: its fixed settings, the width its last redraw
    recorded, and the text it has written so far. */
module Bar {
  import opened Wrappers
  import opened Text
  import opened Ansi
  import opened Info
  import opened Render

  class ProgressBar {
    /** Progress is complete at `target`. */
    const target: Positive
    /** The number of cells of the track. */
    const width: nat
    /** The prefix as stored: empty, or the given prefix and a space. */
    const barPrefix: string
    /** `_prev_width`: the width recorded by the last redraw. */
    var prevWidth: nat
    /** Everything written to standard output so far, one entry per write. */
    var log: seq<string>

    constructor (target: Positive, nameonly width: nat := 20, nameonly barPrefix: Option<string> := Some(""))
      ensures this.target == target && this.width == width
      ensures this.barPrefix == NormalizePrefix(barPrefix)
      ensures prevWidth == 0 && log == []
    {
      this.target := target;
      this.width := width;
      prevWidth := 0;
      this.barPrefix := if barPrefix.Some? && barPrefix.value != [] then barPrefix.value + " " else "";
      log := [];
    }

    /** `log_msg`: write the message, followed by a newline when asked. */
    method LogMsg(message: string, nameonly lineBreak: bool := true)
      modifies this
      ensures log == old(log) + [Written(message, lineBreak)]
      ensures prevWidth == old(prevWidth)
    {
      var out := if lineBreak then Concat([message, "\n"]) else message;
      ConcatPair(message, "\n");
      log := log + [out];
    }

    /** `update`: redraw the bar for progress `current`, with optional info
        text to its right, and record the new width. */
    method Update(current: int, nameonly info: seq<Entry> := [], nameonly indent: int := 0,
                  nameonly finished: Option<bool> := None, nameonly infoKwargs: seq<Entry> := [])
      modifies this
      ensures prevWidth == TotalWidth(target, width, current, info, infoKwargs)
      ensures log == old(log) + [Written(Message(old(prevWidth), barPrefix, target, width, current, info, indent, infoKwargs),
                                         LineBreak(target, current, finished))]
      ensures prevWidth == |Label(target, current)| + 1 + Cells(Filled(target, width, current), width)
                           + |InfoText(info, infoKwargs)| + 1
      ensures 0 <= current <= target ==> prevWidth == 2 * NumDigits(target) + width + |InfoText(info, infoKwargs)| + 3
    {
      var bar, nSpecialChars := DrawBar(target, width, current);

      var message := Repeat(BACKSPACE, prevWidth) + "\r" + Repeat(' ', indent) + barPrefix + bar;

      ghost var suffix: string := [];
      var barInfo := "";
      if info != [] || infoKwargs != [] {
        barInfo := CreateBarInfo(Merge(info, infoKwargs));
        message := message + (" " + barInfo);
        suffix := " " + barInfo;
      } else {
        EmptyRight(message);
      }

      var totalWidth := |bar| + |barInfo| + 1 - nSpecialChars;

      ghost var padding: string := [];
      if prevWidth > totalWidth {
        message := message + Repeat(' ', prevWidth - totalWidth);
        padding := Repeat(' ', prevWidth - totalWidth);
      } else {
        EmptyRight(message);
      }
      UpdateAgrees(prevWidth, barPrefix, target, width, current, info, indent, infoKwargs,
                   bar, nSpecialChars, barInfo, totalWidth, suffix, padding, message);

      var lineBreak := if finished.None? then current == target else finished.value;
      prevWidth := totalWidth;
      LogMsg(message, lineBreak := lineBreak);
    }

    /** `update(c)` for each `c` of `currents` in turn, none of them the target:
        the bar stays on its line, since none of the texts written holds a
        newline, and neither does their concatenation. */
    method UpdateEach(currents: seq<int>)
      requires '\n' !in barPrefix
      requires forall i :: 0 <= i < |currents| ==> currents[i] != target
      modifies this
      ensures |log| == |old(log)| + |currents|
      ensures log[..|old(log)|] == old(log)
      ensures forall i :: |old(log)| <= i < |log| ==> '\n' !in log[i]
      ensures '\n' !in Concat(log[|old(log)|..])
    {
      var k := 0;
      while k < |currents|
        invariant 0 <= k <= |currents|
        invariant |log| == |old(log)| + k
        invariant log[..|old(log)|] == old(log)
        invariant forall i :: |old(log)| <= i < |log| ==> '\n' !in log[i]
      {
        ghost var before := log;
        ghost var out := Written(Message(prevWidth, barPrefix, target, width, currents[k], [], 0, []),
                                 LineBreak(target, currents[k], None));
        NewlineIff(prevWidth, barPrefix, target, width, currents[k], [], 0, [], None);
        Update(currents[k]);
        LogStep(old(log), before, out, log);
        k := k + 1;
      }
      ConcatExcludes(log[|old(log)|..], '\n');
    }
  }

  /** One more write without a newline keeps a log's newline-free tail so. */
  lemma LogStep(start: seq<string>, before: seq<string>, out: string, after: seq<string>)
    requires |before| >= |start| && before[..|start|] == start
    requires forall i :: |start| <= i < |before| ==> '\n' !in before[i]
    requires '\n' !in out && after == before + [out]
    ensures |after| == |before| + 1 && after[..|start|] == start
    ensures forall i :: |start| <= i < |after| ==> '\n' !in after[i]
  {
    assert after[..|start|] == before[..|start|];
  }

  /** The first half of `update`: the bar drawn for progress `current`, built
      piece by piece, and the count of the control characters it holds. */
  method DrawBar(target: Positive, width: nat, current: int) returns (bar: string, nSpecialChars: int)
    ensures bar == BarText(target, width, current)
    ensures nSpecialChars == SpecialChars(Filled(target, width, current))
    ensures nSpecialChars == |bar| - |Visible(bar)|
  {
    nSpecialChars := 0;

    var bard := Label(target, current);
    bar := Styled("1", bard) + " ";

    var progWidth := Filled(target, width, current);

    if progWidth > 0 {
      bar := bar + Styled("32", Repeat(GLYPH, progWidth));
      nSpecialChars := nSpecialChars + 9;
    } else {
      EmptyRight(bar);
    }
    bar := bar + Styled("37", Repeat(GLYPH, width - progWidth));

    nSpecialChars := nSpecialChars + 17;
    LabelShape(target, current);
    SpecialCharsAreControls(bard, progWidth, width);
  }

  /** The pieces `update` computes, one after another, agree with the redraw
      described in `Render`. */
  lemma UpdateAgrees(prev: nat, prefix: string, target: Positive, width: nat, current: int,
                     info: seq<Entry>, indent: int, kwargs: seq<Entry>,
                     bar: string, nSpecialChars: int, barInfo: string,
                     totalWidth: int, suffix: string, padding: string, message: string)
    requires bar == BarText(target, width, current)
    requires nSpecialChars == SpecialChars(Filled(target, width, current))
    requires barInfo == InfoText(info, kwargs)
    requires totalWidth == |bar| + |barInfo| + 1 - nSpecialChars
    requires suffix == Suffix(info, kwargs) && padding == Padding(prev, totalWidth)
    requires message == Repeat(BACKSPACE, prev) + "\r" + Repeat(' ', indent) + prefix + bar + suffix + padding
    ensures totalWidth == TotalWidth(target, width, current, info, kwargs)
    ensures message == Message(prev, prefix, target, width, current, info, indent, kwargs)
    ensures totalWidth == |Label(target, current)| + 1 + Cells(Filled(target, width, current), width)
                          + |InfoText(info, kwargs)| + 1
    ensures 0 <= current <= target ==> totalWidth == 2 * NumDigits(target) + width + |InfoText(info, kwargs)| + 3
  {
    TotalWidthValue(target, width, current, info, kwargs);
    MessageParts(prev, prefix, target, width, current, info, indent, kwargs);
  }
}
