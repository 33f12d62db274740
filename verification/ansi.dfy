/** The terminal control sequences the renderer writes, and what is left of a
    string once they are taken out. A control sequence here is a CSI sequence of
    ECMA-48 (section 5.4): ESC, '[', parameter bytes, then one final byte in
    '@'..'~'. The styles used are SGR sequences (ECMA-48 section 8.3.117),
    whose final byte is 'm'. */
module Ansi {

  const ESC: char := '\U{1B}'

  /** The SGR sequence with the given parameter string. */
  function Sgr(params: string): (r: string)
    ensures |r| == |params| + 3
  {
    [ESC, '['] + params + "m"
  }

  const BOLD: string := Sgr("1")
  const RESET: string := Sgr("0")
  const GREEN: string := Sgr("32")
  const GREY: string := Sgr("37")

  predicate IsParam(c: char)
  {
    '0' <= c <= '?'
  }

  predicate IsFinal(c: char)
  {
    '@' <= c <= '~'
  }

  /** What follows the final byte of a control sequence whose ESC and '[' have
      already been read (nothing, if the sequence is unterminated). */
  function SkipControl(s: string): (r: string)
    ensures |r| <= |s|
  {
    if s == [] then []
    else if IsFinal(s[0]) then s[1..]
    else SkipControl(s[1..])
  }

  /** The characters of `s` that are not part of a control sequence. */
  function Visible(s: string): (r: string)
    ensures |r| <= |s|
    decreases |s|
  {
    if s == [] then []
    else if |s| >= 2 && s[0] == ESC && s[1] == '[' then Visible(SkipControl(s[2..]))
    else [s[0]] + Visible(s[1..])
  }

  /** Text without ESC is shown as it is. */
  lemma {:induction false} VisiblePlain(p: string, rest: string)
    requires ESC !in p
    ensures Visible(p + rest) == p + Visible(rest)
  {
    if p == [] {
      assert p + rest == rest;
    } else {
      assert (p + rest)[0] == p[0] != ESC;
      assert (p + rest)[1..] == p[1..] + rest;
      VisiblePlain(p[1..], rest);
      assert p == [p[0]] + p[1..];
    }
  }

  lemma {:induction false} SkipParams(params: string, rest: string)
    requires forall i :: 0 <= i < |params| ==> IsParam(params[i])
    ensures SkipControl(params + "m" + rest) == rest
  {
    if params == [] {
      assert params + "m" + rest == ['m'] + rest;
    } else {
      assert (params + "m" + rest)[1..] == params[1..] + "m" + rest;
      SkipParams(params[1..], rest);
    }
  }

  /** An SGR sequence takes up no room on screen. */
  lemma VisibleSgr(params: string, rest: string)
    requires forall i :: 0 <= i < |params| ==> IsParam(params[i])
    ensures Visible(Sgr(params) + rest) == Visible(rest)
  {
    var s := Sgr(params) + rest;
    assert s[2..] == params + "m" + rest;
    SkipParams(params, rest);
  }

  /** `body` in the style `params`, followed by a reset to the default style. */
  function Styled(params: string, body: string): (r: string)
    ensures |r| == |params| + 3 + |body| + |RESET|
  {
    Sgr(params) + body + RESET
  }

  /** A styled piece of plain text shows as the text alone. */
  lemma VisibleStyled(params: string, body: string, rest: string)
    requires forall i :: 0 <= i < |params| ==> IsParam(params[i])
    requires ESC !in body
    ensures Visible(Styled(params, body) + rest) == body + Visible(rest)
  {
    calc {
      Visible(Styled(params, body) + rest);
      { assert Styled(params, body) + rest == Sgr(params) + (body + (RESET + rest)); }
      Visible(Sgr(params) + (body + (RESET + rest)));
      { VisibleSgr(params, body + (RESET + rest)); }
      Visible(body + (RESET + rest));
      { VisiblePlain(body, RESET + rest); }
      body + Visible(RESET + rest);
      { VisibleSgr("0", rest); }
      body + Visible(rest);
    }
  }

  lemma VisibleStyles(rest: string)
    ensures Visible(BOLD + rest) == Visible(rest)
    ensures Visible(RESET + rest) == Visible(rest)
    ensures Visible(GREEN + rest) == Visible(rest)
    ensures Visible(GREY + rest) == Visible(rest)
    ensures |BOLD| == |RESET| == 4 && |GREEN| == |GREY| == 5
  {
    VisibleSgr("1", rest);
    VisibleSgr("0", rest);
    VisibleSgr("32", rest);
    VisibleSgr("37", rest);
  }
}
