/** The introductory scroll of the IP address across the 11-column matrix: its
    offset, pass count and the flag that ends it. */
module Scroll {

  /** 100 ms between steps, in nanoseconds. */
  const ScrollSpeedNs := 1000 * 1000 * 100
  /** Columns of the pixel matrix. */
  const MatrixWidth := 11
  /** Columns per character of the text font. */
  const GlyphWidth := 5
  /** Passes shown before the scroll ends in station mode. */
  const ScrollRepeats := 2

  /** text_last_scroll, text_x_offset, text_scroll_repeat, is_text_scroll. */
  datatype ScrollState = ScrollState(lastScroll: int, xOffset: int, repeat: nat, active: bool)

  const InitialScroll := ScrollState(0, MatrixWidth, 0, true)

  /** Steps in one pass of a text of the given length: from the right edge until
      the text has left on the left and the offset wraps. */
  function PassLength(textLength: nat): nat {
    textLength * GlyphWidth + 2 * MatrixWidth + 1
  }

  /** One due step: move one column left, wrap to the right edge and count a
      pass once the text has fully left, and end the scroll after enough passes
      unless the access point is up. */
  function Step(s: ScrollState, textLength: nat, apStarted: bool): ScrollState {
    var moved := s.xOffset - 1;
    var wrapped := moved < -(textLength * GlyphWidth + MatrixWidth);
    var offset := if wrapped then MatrixWidth else moved;
    var repeat := if wrapped then s.repeat + 1 else s.repeat;
    ScrollState(s.lastScroll, offset, repeat,
      if !apStarted && repeat >= ScrollRepeats then false else s.active)
  }

  /** scroll_text: a step happens only when more than ScrollSpeedNs has passed
      since the last one; `nowAfterNs` is the clock read once the frame is drawn. */
  function ScrollText(s: ScrollState, nowNs: int, nowAfterNs: int, textLength: nat, apStarted: bool): ScrollState {
    if nowNs - s.lastScroll > ScrollSpeedNs then Step(s, textLength, apStarted).(lastScroll := nowAfterNs)
    else s
  }

  /** k due steps in a row. */
  function Steps(s: ScrollState, textLength: nat, apStarted: bool, k: nat): ScrollState {
    if k == 0 then s else Step(Steps(s, textLength, apStarted, k - 1), textLength, apStarted)
  }

  /** Not due: nothing changes. */
  lemma ScrollNotDue(s: ScrollState, nowNs: int, nowAfterNs: int, textLength: nat, apStarted: bool)
    requires nowNs - s.lastScroll <= ScrollSpeedNs
    ensures ScrollText(s, nowNs, nowAfterNs, textLength, apStarted) == s
  {
  }

  /** The offset stays between the right edge and one column past the text's end. */
  lemma StepKeepsOffsetInWindow(s: ScrollState, textLength: nat, apStarted: bool)
    requires s.xOffset <= MatrixWidth + 1
    ensures var r := Step(s, textLength, apStarted);
      -(textLength * GlyphWidth + MatrixWidth) <= r.xOffset <= MatrixWidth
  {
  }

  /** In access-point mode the scroll never ends. */
  lemma {:induction false} ApScrollsForever(s: ScrollState, textLength: nat, k: nat)
    ensures Steps(s, textLength, true, k).active == s.active
  {
    if k > 0 {
      ApScrollsForever(s, textLength, k - 1);
    }
  }

  /** From boot, each pass takes PassLength steps and bumps the pass count; in
      station mode the scroll ends exactly at the end of the second pass. */
  lemma {:induction false} StepsFromBoot(textLength: nat, apStarted: bool, k: nat)
    requires k <= 2 * PassLength(textLength)
    ensures var p, s := PassLength(textLength), Steps(InitialScroll, textLength, apStarted, k);
      && (k < p ==> s == ScrollState(0, MatrixWidth - k, 0, true))
      && (p <= k < 2 * p ==> s == ScrollState(0, MatrixWidth - (k - p), 1, true))
      && (k == 2 * p ==> s == ScrollState(0, MatrixWidth, 2, apStarted))
  {
    if k > 0 {
      StepsFromBoot(textLength, apStarted, k - 1);
    }
  }
}
