/** `RippleButton`: a touch starts a ripple from the touch point; a ripple that
    plays to its end activates the button, the next touch deactivates it.

    The ripple animator is an abstract track: its start, update, natural end
    and cancel are events, and a cancel calls the listener's cancel callback
    and then its end callback. The source builds a new animator and listener
    for every ripple; a fresh listener's `isCanceled` starts false, which the
    single `cancelled` field models. */
module Ripple {
  import Geometry

  datatype Notice = RippleStart | RippleCancel | RippleEnd

  datatype Button = Button(
    activated: bool,
    rippling: bool,       // isRippling
    running: bool,        // the current ripple animator is running
    cancelled: bool,      // the current listener's isCanceled
    startX: real,
    startY: real,
    maxRadiusSq: real,    // square of the current animator's end radius
    radius: real)         // mRippleRadius

  datatype Event =
    | Down(x: real, y: real, width: real, height: real)   // ACTION_DOWN in a view of that measured size
    | OtherTouch                                          // any other touch action
    | Update(value: real)
    | Finish
    | CancelRipple
    | SetStartPos(x: real, y: real)                       // setRippleStartPos
    | StartRippleCall(width: real, height: real)          // startRipple, called directly

  datatype Outcome = Outcome(button: Button, notices: seq<Notice>)

  const Initial := Button(false, false, false, false, 0.0, 0.0, 0.0, 0.0)

  /** Ripple drawn only while rippling; background in the ripple colour iff activated. */
  datatype Render = Render(drawRipple: bool, rippleBackground: bool)

  function RenderOf(b: Button): (r: Render)
    ensures r.drawRipple <==> b.rippling
    ensures r.rippleBackground <==> b.activated
  {
    Render(b.rippling, b.activated)
  }

  /** `onAnimationEnd`: unless cancelled, activate and report the end; in
      every case the ripple is over. */
  function ListenerEnd(b: Button): Outcome {
    if b.cancelled then Outcome(b.(rippling := false), [])
    else Outcome(b.(activated := true, rippling := false), [RippleEnd])
  }

  /** `cancelRipple`: only a running animator is cancelled, and the cancel
      callback is followed by the end callback. */
  function Cancel(b: Button): (o: Outcome)
    ensures !b.running ==> o == Outcome(b, [])
    ensures b.running ==> !o.button.running && !o.button.rippling && o.notices == [RippleCancel]
    ensures o.button.activated == b.activated
  {
    if !b.running then Outcome(b, [])
    else
      var c := b.(running := false, cancelled := true, rippling := false);
      var e := ListenerEnd(c);
      Outcome(e.button, [RippleCancel] + e.notices)
  }

  /** `startRipple`: cancel any running ripple, rebuild the animator for the
      current bounds, start it. */
  function StartRipple(b: Button, width: real, height: real): (o: Outcome)
    requires width >= 0.0 && height >= 0.0
    ensures o.button.running && o.button.rippling && !o.button.cancelled
    ensures o.button.activated == b.activated
    ensures o.button.maxRadiusSq == Geometry.RippleButtonMaxRadiusSq(b.startX, b.startY, width, height)
    ensures o.notices == (if b.running then [RippleCancel, RippleStart] else [RippleStart])
  {
    var c := Cancel(b);
    var built := c.button.(cancelled := false,
                           maxRadiusSq := Geometry.RippleButtonMaxRadiusSq(b.startX, b.startY, width, height));
    Outcome(built.(running := true, cancelled := false, rippling := true), c.notices + [RippleStart])
  }

  /** A ripple is only ever sized for a view of non-negative measured size. */
  predicate Sized(e: Event) {
    && (e.Down? ==> e.width >= 0.0 && e.height >= 0.0)
    && (e.StartRippleCall? ==> e.width >= 0.0 && e.height >= 0.0)
  }

  /** The events a user's touches and the animator produce; the public
      `startRipple` and `setRippleStartPos` are calls from application code. */
  predicate Touch(e: Event) {
    !e.StartRippleCall? && !e.SetStartPos?
  }

  /** `onTouchEvent`, the animator's callbacks and the public calls. Only a
      press does anything among the touches: it deactivates an activated
      button, and otherwise records the touch point and starts a ripple. */
  function Step(b: Button, e: Event): Outcome
    requires Sized(e)
  {
    match e
    case Down(x, y, w, h) =>
      if b.activated then Outcome(b.(activated := false), [])
      else StartRipple(b.(startX := x, startY := y), w, h)
    case OtherTouch => Outcome(b, [])
    case Update(v) => if b.running then Outcome(b.(radius := v), []) else Outcome(b, [])
    case Finish => if b.running then ListenerEnd(b.(running := false)) else Outcome(b, [])
    case CancelRipple => Cancel(b)
    case SetStartPos(x, y) => Outcome(b.(startX := x, startY := y), [])
    case StartRippleCall(w, h) => StartRipple(b, w, h)
  }

  // ---------------------------------------------------------------------

  /** Rippling exactly while the animator runs, and a running ripple's
      listener is never marked cancelled. */
  predicate Consistent(b: Button) {
    && b.rippling == b.running
    && (b.running ==> !b.cancelled)
  }

  /** `Consistent`, and an activated button has no ripple running. */
  predicate Valid(b: Button) {
    Consistent(b) && (b.activated ==> !b.running)
  }

  /** Every event keeps `Consistent`; touches and animator callbacks also
      keep `Valid`, since a press on an activated button starts nothing. */
  lemma StepPreservesValid(b: Button, e: Event)
    requires Consistent(b) && Sized(e)
    ensures Consistent(Step(b, e).button)
    ensures Valid(b) && Touch(e) ==> Valid(Step(b, e).button)
  {
  }

  /** The public `startRipple` does not look at activation: called on an
      activated button it runs a ripple over the activated background. */
  lemma StartRippleIgnoresActivation(b: Button, w: real, h: real)
    requires Consistent(b) && b.activated && w >= 0.0 && h >= 0.0
    ensures var r := Step(b, StartRippleCall(w, h)).button;
            && r.activated && r.running && !Valid(r)
            && RenderOf(r).drawRipple && RenderOf(r).rippleBackground
  {
  }

  /** What is drawn follows the machine: the ripple is drawn exactly while
      its animator runs and, in states touches reach, never on an activated
      button, whose background is in the ripple colour instead. */
  lemma RenderShowsRipple(b: Button)
    requires Consistent(b)
    ensures RenderOf(b).drawRipple <==> b.running
    ensures Valid(b) ==> (RenderOf(b).rippleBackground ==> !RenderOf(b).drawRipple)
  {
  }

  /** A press on an activated button deactivates it and starts nothing. A
      press otherwise starts a ripple from the touch point, sized for the view,
      after cancelling a running one. */
  lemma DownLaws(b: Button, x: real, y: real, w: real, h: real)
    requires Valid(b) && w >= 0.0 && h >= 0.0
    ensures b.activated ==> Step(b, Down(x, y, w, h)) == Outcome(b.(activated := false), [])
    ensures !b.activated ==>
              var o := Step(b, Down(x, y, w, h));
              && o.button.running && o.button.rippling && !o.button.activated
              && o.button.startX == x && o.button.startY == y
              && o.button.maxRadiusSq == Geometry.RippleButtonMaxRadiusSq(x, y, w, h)
              && o.notices == (if b.running then [RippleCancel, RippleStart] else [RippleStart])
  {
  }

  /** A ripple that plays out activates the button and reports its end once;
      a cancelled one reports only the cancel, and the end callback that
      follows neither activates nor reports an end. */
  lemma EndVersusCancel(b: Button)
    requires Valid(b) && b.running
    ensures Step(b, Finish).button.activated && Step(b, Finish).notices == [RippleEnd]
    ensures !Step(b, Finish).button.rippling
    ensures !Step(b, CancelRipple).button.activated && Step(b, CancelRipple).notices == [RippleCancel]
    ensures !Step(b, CancelRipple).button.rippling
  {
  }

  /** `cancelRipple` twice is `cancelRipple` once. */
  lemma CancelIdempotent(b: Button)
    ensures Cancel(Cancel(b).button) == Outcome(Cancel(b).button, [])
  {
  }

  /** Touch, then let the ripple play out, then touch again: the button is
      back to unactivated with no ripple, having reported start and end. */
  lemma TouchCycle(b: Button, x: real, y: real, w: real, h: real, x2: real, y2: real)
    requires Valid(b) && !b.activated && w >= 0.0 && h >= 0.0
    ensures var o1 := Step(b, Down(x, y, w, h));
            var o2 := Step(o1.button, Finish);
            var o3 := Step(o2.button, Down(x2, y2, w, h));
            && o2.button.activated
            && !o3.button.activated && !o3.button.running && !o3.button.rippling
            && o2.notices == [RippleEnd] && o3.notices == []
  {
  }
}
