/** `measureWidth` / `measureHeight` of the three widgets.

    The measure-spec decoding, text measurement and density conversion are
    platform code: their results are parameters. `measured` is the truncated
    `measureText` width of the counter, `textHeight` the truncated
    `-ascent + descent`, and the dp constants are their pixel values (the
    source's `dip2px` yields a whole number of pixels). */
module Measure {

  datatype Mode = Exactly | AtMost | Unspecified

  /** The width the counter text takes: only a positive count is measured. */
  function TextWidth(count: int, measured: nat): (tw: nat)
    ensures count <= 0 ==> tw == 0
    ensures count > 0 ==> tw == measured
  {
    if count > 0 then measured else 0
  }

  /** Respect the spec: EXACTLY imposes its size, AT_MOST caps the wanted one. */
  function Fit(mode: Mode, specSize: int, wanted: int): (r: int)
    ensures mode == Exactly ==> r == specSize
    ensures mode == Unspecified ==> r == wanted
    ensures mode == AtMost ==> r <= specSize && r <= wanted && (r == specSize || r == wanted)
  {
    match mode
    case Exactly => specSize
    case AtMost => if wanted < specSize then wanted else specSize
    case Unspecified => wanted
  }

  /** `FrodoVoteButton.measureWidth`: icon, text and horizontal padding, plus
      the text margin only when there is text to show. */
  function VoteButtonWidth(mode: Mode, specSize: int, count: int, measured: nat,
                           iconWidth: nat, paddingLeft: nat, paddingRight: nat, textMargin: nat): int
  {
    if mode == Exactly then specSize
    else
      var tw := TextWidth(count, measured);
      var base := iconWidth + tw + paddingLeft + paddingRight;
      Fit(mode, specSize, if tw > 0 then base + textMargin else base)
  }

  /** `measureWidth` of both text views. The sum of icon, text, padding and
      margin the source computes first is overwritten: the width is the
      emit-point circle's diameter plus the text. */
  function TextViewWidth(mode: Mode, specSize: int, count: int, measured: nat,
                         iconWidth: nat, paddingLeft: nat, paddingRight: nat, textMargin: nat,
                         pointsMaxRadius: nat, pointRadius: nat): int
  {
    if mode == Exactly then specSize
    else
      Fit(mode, specSize, (pointsMaxRadius + pointRadius) * 2 + TextWidth(count, measured))
  }

  /** `FrodoVoteButton.measureHeight`: text height plus vertical padding, at
      least the icon's height. */
  function VoteButtonHeight(mode: Mode, specSize: int, textHeight: int,
                            paddingTop: nat, paddingBottom: nat, iconHeight: nat): int
  {
    if mode == Exactly then specSize
    else
      var h := textHeight + paddingTop + paddingBottom;
      Fit(mode, specSize, if h >= iconHeight then h else iconHeight)
  }

  /** `measureHeight` of both text views: at least the emit-point circle. */
  function TextViewHeight(mode: Mode, specSize: int, textHeight: int,
                          paddingTop: nat, paddingBottom: nat,
                          pointsMaxRadius: nat, pointRadius: nat): int
  {
    if mode == Exactly then specSize
    else
      var h := textHeight + paddingTop + paddingBottom;
      var d := (pointRadius + pointsMaxRadius) * 2;
      Fit(mode, specSize, if h >= d then h else d)
  }

  // ---------------------------------------------------------------------

  /** The vote button: EXACTLY returns the spec size, AT_MOST is the
      unconstrained width capped by the spec size, and the unconstrained width
      is icon plus padding, plus text and margin exactly when a positive count
      has a non-empty rendering. */
  lemma VoteButtonWidthLaws(specSize: int, count: int, measured: nat,
                            iconWidth: nat, paddingLeft: nat, paddingRight: nat, textMargin: nat)
    ensures VoteButtonWidth(Exactly, specSize, count, measured, iconWidth, paddingLeft, paddingRight, textMargin) == specSize
    ensures var u := VoteButtonWidth(Unspecified, specSize, count, measured, iconWidth, paddingLeft, paddingRight, textMargin);
            var a := VoteButtonWidth(AtMost, specSize, count, measured, iconWidth, paddingLeft, paddingRight, textMargin);
            && a == (if u < specSize then u else specSize)
            && (count > 0 && measured > 0 ==> u == iconWidth + paddingLeft + paddingRight + measured + textMargin)
            && (count <= 0 || measured == 0 ==> u == iconWidth + paddingLeft + paddingRight)
  {
  }

  /** Unconstrained, the vote button is wide enough for the counter text it
      draws at paddingLeft + icon + margin. */
  lemma VoteButtonTextFits(specSize: int, count: int, measured: nat,
                           iconWidth: nat, paddingLeft: nat, paddingRight: nat, textMargin: nat)
    requires count > 0 && measured > 0
    ensures paddingLeft + iconWidth + textMargin + measured
            <= VoteButtonWidth(Unspecified, specSize, count, measured, iconWidth, paddingLeft, paddingRight, textMargin)
  {
  }

  /** A negative count is drawn (the renderer hides only 0) but measured as
      no text at all: the width is that of count 0. */
  lemma NegativeCountUnmeasured(mode: Mode, specSize: int, count: int, measured: nat,
                                iconWidth: nat, paddingLeft: nat, paddingRight: nat, textMargin: nat)
    requires count < 0
    ensures VoteButtonWidth(mode, specSize, count, measured, iconWidth, paddingLeft, paddingRight, textMargin)
         == VoteButtonWidth(mode, specSize, 0, measured, iconWidth, paddingLeft, paddingRight, textMargin)
         == Fit(mode, specSize, iconWidth + paddingLeft + paddingRight)
  {
  }

  /** The text views' width ignores icon width, padding and text margin, is
      the circle's diameter plus the text when unconstrained, and stays within
      the spec size under AT_MOST. */
  lemma TextViewWidthLaws(mode: Mode, specSize: int, count: int, measured: nat,
                          iconWidth: nat, paddingLeft: nat, paddingRight: nat, textMargin: nat,
                          iconWidth': nat, paddingLeft': nat, paddingRight': nat, textMargin': nat,
                          pointsMaxRadius: nat, pointRadius: nat)
    ensures TextViewWidth(mode, specSize, count, measured, iconWidth, paddingLeft, paddingRight, textMargin, pointsMaxRadius, pointRadius)
         == TextViewWidth(mode, specSize, count, measured, iconWidth', paddingLeft', paddingRight', textMargin', pointsMaxRadius, pointRadius)
    ensures mode == Unspecified ==>
              TextViewWidth(mode, specSize, count, measured, iconWidth, paddingLeft, paddingRight, textMargin, pointsMaxRadius, pointRadius)
              == 2 * (pointsMaxRadius + pointRadius) + TextWidth(count, measured)
    ensures mode == AtMost ==>
              TextViewWidth(mode, specSize, count, measured, iconWidth, paddingLeft, paddingRight, textMargin, pointsMaxRadius, pointRadius)
              <= specSize
  {
  }

  /** Unless capped, each widget is at least as tall as its text with padding,
      and at least as tall as the icon (vote button) or the emit circle (text
      views); AT_MOST never exceeds the spec size. */
  lemma HeightLaws(mode: Mode, specSize: int, textHeight: int, paddingTop: nat, paddingBottom: nat,
                   iconHeight: nat, pointsMaxRadius: nat, pointRadius: nat)
    ensures var b := VoteButtonHeight(mode, specSize, textHeight, paddingTop, paddingBottom, iconHeight);
            && (mode == Unspecified ==> b >= iconHeight && b >= textHeight + paddingTop + paddingBottom)
            && (mode == AtMost ==> b <= specSize && (b == specSize || b >= iconHeight))
            && (mode == Exactly ==> b == specSize)
    ensures var t := TextViewHeight(mode, specSize, textHeight, paddingTop, paddingBottom, pointsMaxRadius, pointRadius);
            && (mode == Unspecified ==> t >= 2 * (pointsMaxRadius + pointRadius) && t >= textHeight + paddingTop + paddingBottom)
            && (mode == AtMost ==> t <= specSize && (t == specSize || t >= 2 * (pointsMaxRadius + pointRadius)))
            && (mode == Exactly ==> t == specSize)
  {
  }
}
