# MagicButton in Dafny

A model of the animated toggle widgets of MagicButton, an Android widget
library, and of the small utility arithmetic they ship with:

- `FrodoVoteButton`, `FrodoVoteTextView` and `FrodoLikeTextView` share one
  four-state toggle: UNVOTE, VOTING, VOTED and UNVOTING, or the LIKE names for
  the like widget. A tap changes the counter at once and notifies the
  application. It then starts an animator set. When the set plays to its end,
  the widget settles into the final status. When it is cancelled, the change
  is rolled back. `cancelAll` cancels every running set.
- `RippleButton` starts a ripple from the touch point. A ripple that plays
  out activates the button, and the next press deactivates it. Application
  code can also call `setRippleStartPos` and `startRipple` directly; the
  latter does not check activation.
- `UIUtils` holds two pure computations. `getWordCount` gives a display
  weight: it visits every UTF-16 code unit and adds 1 for a Latin-1 code point
  and 2 otherwise, so a character outside the Basic Multilingual Plane (a
  surrogate pair) weighs 4. `setRatingBar` computes an integer star rating.

Modules:

- `Keyframes` (keyframes.dfy): a sequential animator set as a list of timed
  segments. It holds the widgets' tables: the vote icon motion, the bounce,
  the ripple and the emit points.
- `Toggle` (toggle.dfy): the shared state machine, parameterised by the
  variant. Its animator sets are abstract tracks whose start, update, end and
  cancel are events. Cancelling a running set calls the listener's cancel
  callback and then its end callback, as the platform does.
- `ToggleLaws` (toggle_laws.dfy): rollback, settling, idempotence and the
  invariant tying transient statuses to running sets.
- `Geometry` (geometry.dfy): ripple radii and emit-point angles.
- `Measure` (measure.dfy): `measureWidth` and `measureHeight` of the three
  widgets.
- `Ripple` (ripple.dfy): the `RippleButton` machine.
- `UIUtils` (uiutils.dfy): the pure arithmetic of `UIUtils`. Java `char`s are
  UTF-16 code units.
- `JavaInt` (javaint.dfy): Java `int` arithmetic, that is 32-bit wrap-around
  and division truncating toward zero. The widgets' counter, the word count
  and the rating are all Java `int`s and use it.
- `Wrappers` (wrappers.dfy): `Option` and `Result`.

Inputs the source reads from the platform are parameters:

- text measurements;
- measure-spec mode and size;
- padding;
- bitmap sizes;
- pixel values of dp constants;
- easing curves.

## Model

| member | source | states |
|---|---|---|
| Toggle.ApplyStatus | app/src/main/java/me/yimu/magicbutton/FrodoVoteButton.java:123-134 | `setStatus` stores the given status and never touches the count, the enabled flag, the variant or any animator set. What a final status changes is stated by `ToggleLaws.SetFinalStatusResets`. |
| Toggle.StartTrack | app/src/main/java/me/yimu/magicbutton/FrodoVoteButton.java:275-280 | Starting a set makes it run, and its listener's start callback clears the cancel flag. The other sets and the status, count, enabled flag, marker and geometry are left as they were. |
| Toggle.TapStep | app/src/main/java/me/yimu/magicbutton/FrodoVoteButton.java:386-406 | A tap does nothing when disabled or when a vote is in flight. From UNVOTE it goes to VOTING with the `int` count plus one (wrapping), notifies the vote, and runs the settling set. From VOTED it goes to UNVOTING with the `int` count minus one, notifies the cancel, and runs the unvote set. From UNVOTE both the effect and the icon vote set start; from VOTED only the unvote set starts and the others are left as they were. The vote button turns its text white on a vote, and its background white and text gray on an unvote. The text views only swap the icon. A tap never changes the enabled flag, the variant or the geometry. |
| ToggleLaws.RenderShowsActivation | app/src/main/java/me/yimu/magicbutton/FrodoVoteButton.java:410-426 | In every coherent state the ripple or emit points are drawn exactly while the settling activation set runs. The counter text is drawn exactly when the count is non-zero. |
| ToggleLaws.ResetIconForgetsMotion | app/src/main/java/me/yimu/magicbutton/FrodoVoteTextView.java:113-117 | `resetIcon` gives a result independent of the incoming rotation and scale, and on the text views of the alpha too. It keeps the radius, and a second reset changes nothing. |
| ToggleLaws.CountWrapsAtMax | app/src/main/java/me/yimu/magicbutton/FrodoVoteButton.java:390-392 | A vote at the largest `int` count wraps to the smallest. That count is drawn but measured as taking no text width. |
| ToggleLaws.InitCoherent | app/src/main/java/me/yimu/magicbutton/FrodoVoteTextView.java:43-64 | The initial widget satisfies the status/animator invariant, with nothing running. |
| ToggleLaws.CancelTrackStops | app/src/main/java/me/yimu/magicbutton/FrodoVoteButton.java:157-167 | Cancelling a set stops it and leaves the other sets as they were. |
| ToggleLaws.TrailingEndHarmless | app/src/main/java/me/yimu/magicbutton/FrodoVoteButton.java:273-294 | The end callback that follows a cancel changes nothing, thanks to the `isCancel` flag. |
| ToggleLaws.UnlistenedCancelOnlyStops | app/src/main/java/me/yimu/magicbutton/FrodoVoteButton.java:187-205 | Cancelling a set without a listener only stops it. This covers the vote button's ripple and the text views' icon vote set. |
| ToggleLaws.CancelActivationRollsBack | app/src/main/java/me/yimu/magicbutton/FrodoVoteButton.java:355-376 | A cancelled activation gives UNVOTE with the count decremented. A cancelled unvote gives VOTED with the count incremented. Both are `int` arithmetic. Either way the icon geometry is reset. |
| ToggleLaws.FinishSettles | app/src/main/java/me/yimu/magicbutton/FrodoVoteTextView.java:203-230 | A listened set that plays out settles to VOTED or UNVOTE, keeps the count, resets the icon geometry and stops. |
| ToggleLaws.CancelAllStopsEverything | app/src/main/java/me/yimu/magicbutton/FrodoVoteTextView.java:160-170 | After `cancelAll` no set is running. |
| ToggleLaws.CancelAllIdempotent | app/src/main/java/me/yimu/magicbutton/FrodoLikeTextView.java:159-169 | A second `cancelAll` changes nothing. |
| ToggleLaws.CancelAllRollsBack | app/src/main/java/me/yimu/magicbutton/FrodoVoteButton.java:157-167 | From any coherent state, `cancelAll` returns the status to its pre-tap value and subtracts the pending +1/-1 from the `int` count. A settled widget keeps its marker and geometry. The widget stays coherent and idle. |
| ToggleLaws.CancelAllWhileVoting | app/src/main/java/me/yimu/magicbutton/FrodoVoteTextView.java:218-224 | `cancelAll` during a vote gives UNVOTE, one vote fewer, the unvoted marker and neutral geometry. |
| ToggleLaws.CancelAllWhileUnvoting | app/src/main/java/me/yimu/magicbutton/FrodoVoteTextView.java:367-373 | `cancelAll` during an unvote gives VOTED, one vote more, the voted marker and neutral geometry. |
| ToggleLaws.CancelAllWhenSettled | app/src/main/java/me/yimu/magicbutton/FrodoVoteTextView.java:160-170 | `cancelAll` on a settled widget changes neither status, count, marker nor geometry. |
| ToggleLaws.TapThenCancelAllRestores | app/src/main/java/me/yimu/magicbutton/FrodoVoteTextView.java:383-405 | A tap followed by `cancelAll` restores the original status and count, with neutral icon geometry and nothing running. |
| ToggleLaws.TapThenFinishSettles | app/src/main/java/me/yimu/magicbutton/FrodoLikeTextView.java:365-387 | A tap whose settling set plays out ends in the opposite final status. The `int` count changes by one, the marker is settled and the geometry is neutral. |
| ToggleLaws.StepPreservesCoherent | app/src/main/java/me/yimu/magicbutton/FrodoVoteButton.java:386-406 | Taps, updates, natural ends, cancels, count and enabled changes, and `cancelAll` keep VOTING and UNVOTING tied to their running sets. |
| ToggleLaws.TapPreservesCoherent | app/src/main/java/me/yimu/magicbutton/FrodoVoteTextView.java:383-405 | A tap keeps VOTING and UNVOTING tied to their running sets. |
| ToggleLaws.FinishPreservesCoherent | app/src/main/java/me/yimu/magicbutton/FrodoVoteTextView.java:211-216 | A set playing to its end keeps VOTING and UNVOTING tied to their running sets. |
| ToggleLaws.RunPreservesCoherent | app/src/main/java/me/yimu/magicbutton/FrodoVoteTextView.java:383-405 | Any sequence of such events keeps the invariant. |
| ToggleLaws.TransientIgnoresTaps | app/src/main/java/me/yimu/magicbutton/FrodoLikeTextView.java:365-387 | Any number of taps while LIKING or UNLIKING (VOTING or UNVOTING) changes nothing and notifies nobody. |
| ToggleLaws.SetTransientStatusOnlyStatus | app/src/main/java/me/yimu/magicbutton/FrodoLikeTextView.java:127-136 | `setStatus` with a transient status changes only the status. |
| ToggleLaws.SetFinalStatusResets | app/src/main/java/me/yimu/magicbutton/FrodoVoteTextView.java:128-137 | `setStatus` with a final status resets rotation and scale and selects the settled marker. It keeps the count. |
| ToggleLaws.AdditiveRollback | app/src/main/java/me/yimu/magicbutton/FrodoVoteButton.java:289-294 | The rollback is relative: after tap, `setVotedCount(n)` and `cancelAll`, the count is n-1 (as an `int`) and the status UNVOTE. |
| ToggleLaws.CountCanGoNegative | app/src/main/java/me/yimu/magicbutton/FrodoVoteButton.java:398-400 | Unvoting at count 0 leaves count -1, and -1 is drawn. |
| ToggleLaws.UpdateOnlyGeometry | app/src/main/java/me/yimu/magicbutton/FrodoVoteButton.java:213-219 | An animator update writes only the icon/ripple geometry, and only while its set runs. |
| ToggleLaws.VoteIconUpdatesFollowTables | app/src/main/java/me/yimu/magicbutton/FrodoVoteButton.java:207-302 | On the vote widgets, the icon set's five children write rotation and scale exactly on the rotation table 0, 20, -20, 0 and the scale table 1.0, 1.3, 1.0, 1.1, 1.0. |
| ToggleLaws.BounceUpdatesFollowTable | app/src/main/java/me/yimu/magicbutton/FrodoLikeTextView.java:232-282 | The like icon set and every unvote set write only the scale, on the bounce table 1.0, 1.2, 1.0, 1.1, 1.0. |
| ToggleLaws.PointsUpdatesFollowTables | app/src/main/java/me/yimu/magicbutton/FrodoVoteTextView.java:181-202 | The points set writes the emit radius from its first child. From its second it writes the truncated alpha, which stays within 0..255. |
| Keyframes.PlaysSegment | app/src/main/java/me/yimu/magicbutton/FrodoVoteButton.java:302 | In a sequential set, while child i plays, the channel has that child's own value at its own elapsed time. |
| Keyframes.ValueAtStart | app/src/main/java/me/yimu/magicbutton/FrodoVoteTextView.java:299 | At time 0 a set shows its first child's start value. |
| Keyframes.ValueAtBoundary | app/src/main/java/me/yimu/magicbutton/FrodoVoteTextView.java:351 | At the boundary between two children, the value is both the first one's end and the next one's start. |
| Keyframes.ValueAtEnd | app/src/main/java/me/yimu/magicbutton/FrodoLikeTextView.java:281 | After the total duration the channel holds the last child's end value. |
| Keyframes.SegmentValueAtEnds | app/src/main/java/me/yimu/magicbutton/FrodoVoteButton.java:249-260 | A child animator starts at its `from` value and ends at its `to` value. |
| Keyframes.Fraction | app/src/main/java/me/yimu/magicbutton/FrodoVoteButton.java:249-251 | Progress through a child is within [0, 1]. It is 0 before the child starts, 1 once its duration has passed, and elapsed/duration in between. |
| Keyframes.FractionMonotone | app/src/main/java/me/yimu/magicbutton/FrodoVoteButton.java:249-251 | Progress never goes backwards: a later moment is at least as far through the same child. |
| Keyframes.IntValue | app/src/main/java/me/yimu/magicbutton/FrodoVoteTextView.java:193-200 | The integer alpha animator's value is the truncation of the interpolated real value. |
| Keyframes.VoteMotionShape | app/src/main/java/me/yimu/magicbutton/FrodoVoteTextView.java:233-300 | The vote icon set runs 50, 200, 100, 100 and 100 ms, 550 ms in all. Rotation and scale are continuous and return to 0 and 1.0. |
| Keyframes.BounceShape | app/src/main/java/me/yimu/magicbutton/FrodoVoteButton.java:305-354 | The bounce runs 200, 100, 100 and 100 ms, 500 ms in all. It is continuous and starts and ends at scale 1.0. |
| Keyframes.PointsShape | app/src/main/java/me/yimu/magicbutton/FrodoLikeTextView.java:180-201 | The points set grows the radius from minimum to maximum in 400 ms and then fades the alpha from 255 to 0 in 400 ms. The final integer alpha is 0. |
| Keyframes.RippleShape | app/src/main/java/me/yimu/magicbutton/FrodoVoteButton.java:195-197 | The vote button's ripple grows from the minimum to the maximum radius in 400 ms. |
| Geometry.ISqrt | app/src/main/java/me/yimu/magicbutton/FrodoVoteButton.java:191-193 | The integer square root is the largest r with r*r <= n. |
| Geometry.RippleAnchor | app/src/main/java/me/yimu/magicbutton/FrodoVoteButton.java:189 | The ripple centre is the icon centre, using integer halving of the icon width and the measured height. |
| Geometry.VoteButtonMaxRadius | app/src/main/java/me/yimu/magicbutton/FrodoVoteButton.java:187-195 | The vote button's maximum ripple radius is the truncated distance from the centre to the top-right corner. |
| Geometry.RippleButtonMaxRadiusSq | app/src/main/java/me/yimu/magicbutton/RippleButton.java:144-148 | The squared maximum radius of `RippleButton` is at least the squared distance to each corner, and equals one of them: the farthest corner. |
| Geometry.EmitAngles | app/src/main/java/me/yimu/magicbutton/FrodoVoteTextView.java:455-458 | The emit loop visits exactly 0, 45, ..., 315 degrees in increasing order, eight angles below 360. |
| Geometry.EmitPoints | app/src/main/java/me/yimu/magicbutton/FrodoVoteTextView.java:448-460 | Eight emit points are drawn, one per angle, all at the animated radius and alpha. |
| Measure.Fit | app/src/main/java/me/yimu/magicbutton/FrodoVoteButton.java:495-511 | EXACTLY imposes the spec size, AT_MOST takes the smaller of wanted and spec size, and any other mode takes the wanted size. |
| Measure.VoteButtonWidthLaws | app/src/main/java/me/yimu/magicbutton/FrodoVoteButton.java:491-515 | The vote button's width is the spec size under EXACTLY and the capped unconstrained width under AT_MOST. Unconstrained, it is icon plus padding, plus text and margin exactly when there is text. |
| Measure.VoteButtonTextFits | app/src/main/java/me/yimu/magicbutton/FrodoVoteButton.java:466-515 | Unconstrained, the vote button is wide enough for its text drawn after icon and margin. |
| Measure.NegativeCountUnmeasured | app/src/main/java/me/yimu/magicbutton/FrodoVoteButton.java:501-502 | A negative count is measured like count 0, although it is drawn. |
| Measure.TextViewWidthLaws | app/src/main/java/me/yimu/magicbutton/FrodoVoteTextView.java:474-498 | The text views' width ignores icon, padding and margin. Unconstrained, it is the emit circle's diameter plus the text width. AT_MOST never exceeds the spec size. |
| Measure.HeightLaws | app/src/main/java/me/yimu/magicbutton/FrodoVoteButton.java:517-537 | Unconstrained, each widget is at least its padded text height and at least the icon or emit-circle diameter. AT_MOST never exceeds the spec size. EXACTLY is the spec size. |
| Ripple.RenderShowsRipple | app/src/main/java/me/yimu/magicbutton/RippleButton.java:104-133 | In every consistent state the ripple is drawn exactly while its animator runs. In states that touches reach, it is never drawn on an activated button, whose background is in the ripple colour instead. |
| Ripple.Cancel | app/src/main/java/me/yimu/magicbutton/RippleButton.java:215-219 | `cancelRipple` does nothing without a running ripple. Otherwise it stops the ripple, reports only the cancel, and never changes activation. |
| Ripple.StartRipple | app/src/main/java/me/yimu/magicbutton/RippleButton.java:209-213 | `startRipple` cancels a running ripple, sizes the new one for the current bounds, starts it and reports the start. |
| Ripple.StepPreservesValid | app/src/main/java/me/yimu/magicbutton/RippleButton.java:160-198 | Every event, the public `startRipple` and `setRippleStartPos` included, keeps two facts: rippling exactly while the animator runs, and a running listener never marked cancelled. Touches and animator callbacks also keep a third: no ripple while activated. |
| Ripple.StartRippleIgnoresActivation | app/src/main/java/me/yimu/magicbutton/RippleButton.java:209-213 | A direct `startRipple` on an activated button runs a ripple anyway: the ripple is drawn over the activated background. |
| Ripple.DownLaws | app/src/main/java/me/yimu/magicbutton/RippleButton.java:222-233 | A press on an activated button only deactivates it. Otherwise it starts a ripple from the touch point, sized for the view. |
| Ripple.EndVersusCancel | app/src/main/java/me/yimu/magicbutton/RippleButton.java:174-193 | A ripple that plays out activates the button and reports its end once. A cancelled one reports only the cancel and does not activate. |
| Ripple.CancelIdempotent | app/src/main/java/me/yimu/magicbutton/RippleButton.java:215-219 | A second `cancelRipple` does nothing. |
| Ripple.TouchCycle | app/src/main/java/me/yimu/magicbutton/RippleButton.java:222-233 | Press, let the ripple play out, press again: the button is activated, then deactivated with nothing running and no extra report. |
| UIUtils.CodePointAt | app/src/main/java/me/yimu/magicbutton/UIUtils.java:116 | `codePointAt` yields a value below 0x110000. A high/low surrogate pair yields a supplementary code point. |
| UIUtils.CodePointLatin1 | app/src/main/java/me/yimu/magicbutton/UIUtils.java:116-117 | The code point read at i is Latin-1 exactly when the unit at i is. |
| UIUtils.GetWordCount | app/src/main/java/me/yimu/magicbutton/UIUtils.java:112-125 | `getWordCount` returns the sum of the per-unit weights, 1 for a Latin-1 unit and 2 otherwise, wrapped to a 32-bit `int`. Below 2^31 it is the sum itself. |
| UIUtils.WeightBounds | app/src/main/java/me/yimu/magicbutton/UIUtils.java:112-125 | The word count lies between the length and twice the length. |
| UIUtils.WeightAppend | app/src/main/java/me/yimu/magicbutton/UIUtils.java:112-125 | The word count of a concatenation is the sum of the word counts. |
| UIUtils.WeightIsLengthIffLatin1 | app/src/main/java/me/yimu/magicbutton/UIUtils.java:117-121 | The word count equals the length exactly when every unit is Latin-1. |
| UIUtils.SurrogatePairWeighsFour | app/src/main/java/me/yimu/magicbutton/UIUtils.java:115-122 | A supplementary character weighs 4, because the loop also visits its low surrogate. |
| JavaInt.Wrap32 | app/src/main/java/me/yimu/magicbutton/UIUtils.java:153 | Java `int` arithmetic: the result is congruent modulo 2^32 and unchanged when in range. |
| JavaInt.WrapAdd | app/src/main/java/me/yimu/magicbutton/UIUtils.java:113-124 | Wrapping an intermediate sum changes nothing, so a running `int` total is the wrapped exact total. |
| JavaInt.IncDecInverse | app/src/main/java/me/yimu/magicbutton/FrodoVoteButton.java:289-294 | On `int`s, one vote added and then taken back, or the reverse, returns the original count, even across the wrap. |
| JavaInt.TruncDiv | app/src/main/java/me/yimu/magicbutton/UIUtils.java:153 | Java `int` division truncates toward zero: the remainder has the dividend's sign and is smaller than the divisor in magnitude. |
| UIUtils.Rating | app/src/main/java/me/yimu/magicbutton/UIUtils.java:149-154 | `setRatingBar` fails exactly when max is 0, which is Java's division by zero. |
| UIUtils.RatingIsFloorQuotient | app/src/main/java/me/yimu/magicbutton/UIUtils.java:153 | Without overflow and with a non-negative average, the rating is the floor of average*5/max. It lies in 0..5 when average <= max. |
| UIUtils.RatingTruncatesTowardZero | app/src/main/java/me/yimu/magicbutton/UIUtils.java:153 | A negative product is truncated, not floored: max 2 and average -1 give -2. |
| UIUtils.RatingOverflows | app/src/main/java/me/yimu/magicbutton/UIUtils.java:153 | A large average wraps the product: max 1 and average 500000000 give -1794967296. |

## Left out

- Drawing is left out: canvas, paint, bitmaps, clipping, round borders, the
  cos/sin placement of the emit points, and text baselines. Rendering is
  reduced to what is drawn (`RenderOf`): marker, geometry, whether the effect
  shows, and the counter text.
- Floating point is left out. Animated values, radii and touch coordinates
  are reals. Java `float` rounding, `Math.pow` and `Math.sqrt` are not
  modelled.
- Ripple.StepPreservesValid: promises "no ripple while activated" only for
  touches and animator callbacks. A direct `startRipple` breaks it, as
  `Ripple.StartRippleIgnoresActivation` shows.
- Ripple.RenderShowsRipple: promises "never drawn on an activated button"
  only in states where no ripple runs while activated. A direct `startRipple`
  leaves that set of states.
- Geometry.RippleButtonMaxRadiusSq: states the `RippleButton` radius squared,
  because the float square root is library code.
- Geometry.VoteButtonMaxRadius: takes `(int) Math.sqrt` of an exact integer
  to be the integer square root.
- The easing formulas are left out. The decelerate curve and the default
  curve of a bare `ValueAnimator` are platform code. The model assumes only
  that they map 0 to 0 and 1 to 1.
- Animation timing is left out: frame scheduling, `postInvalidate`,
  `requestLayout` and update frequency. Updates, natural ends and cancels are
  events in any order the platform could deliver them.
- The vote button posts its ripple start to the message queue so that it runs
  after layout. The model starts the ripple immediately after the icon set.
- The vote button rebuilds its ripple animator on every `onMeasure`, which
  drops a running ripple's animator object. That is not modelled; one ripple
  track stands for the current animator.
- `cancelAll` on a vote button that was never measured dereferences a null
  ripple animator. This is not modelled: the ripple track always exists.
- Restarting a running set is modelled as start again (start callback, flag
  cleared). The platform's restart is library code.
- A widget without an application listener is modelled as a listener that
  ignores `Activated` and `Deactivated`.
- `MeasureSpec` decoding, `measureText`, `ascent` and `descent` are parameters
  of the measure functions. So are `dip2px`/`sp2px` and the density they read.
- The `UIUtils` platform wrappers are left out, because they only call into
  Android: display size and density, status bar height, dp/px conversions,
  text-per-line and ellipsis checks, rounded bitmaps, and drawable tinting.
- The `RatingBar` calls of `setRatingBar` (set stars, indicator, max) are left
  out; only the integer rating it computes is modelled. The conversion of
  that integer to `float` is exact for the ratings a bar can show and is not
  modelled.
- `RippleButton.onClick` is left out: its body is commented out in the
  source.
- `RippleButton`'s configurable colours, duration and border are left out.
  They only affect drawing.
