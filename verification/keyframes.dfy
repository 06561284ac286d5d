/** Keyframe tables of the widgets' animator sets.

    Every `AnimatorSet.playSequentially(...)` of the three like/vote widgets is
    a list of timed segments; a segment interpolates one channel (rotation,
    scale, radius, alpha) from `from` to `to` over `duration` milliseconds
    through an easing curve. A channel that a child animator does not write is
    given a held segment (`from == to`) so that every channel of a set has one
    segment per child animator and all channels share the set's timeline.

    Easing: the linear curve is concrete; the platform's decelerate curve and
    the default curve of a bare `ValueAnimator` are library code, so they are
    taken as a parameter of which only `e(0) = 0` and `e(1) = 1` is assumed. */
module Keyframes {

  datatype Easing = Linear | Decelerate | Default

  /** One child animator of a sequential set, seen as one channel. */
  datatype Segment = Segment(duration: nat, from: real, to: real, easing: Easing)

  /** The easing curves the platform supplies for the non-linear easings. */
  type Curve = (Easing, real) -> real

  /** Every curve starts at 0 and ends at 1. */
  predicate Anchored(curve: Curve) {
    forall e :: curve(e, 0.0) == 0.0 && curve(e, 1.0) == 1.0
  }

  function Eased(curve: Curve, e: Easing, x: real): real {
    if e == Linear then x else curve(e, x)
  }

  function Lerp(from: real, to: real, f: real): real {
    from + f * (to - from)
  }

  /** Linear progress through a segment of `duration` ms after `elapsed` ms,
      clamped to [0, 1]; a zero-length segment is complete at once. */
  function Fraction(elapsed: real, duration: nat): (f: real)
    ensures 0.0 <= f <= 1.0
    ensures duration > 0 && elapsed <= 0.0 ==> f == 0.0
    ensures elapsed >= duration as real ==> f == 1.0
    ensures 0.0 < elapsed < duration as real ==> f * duration as real == elapsed
  {
    if duration == 0 || elapsed >= duration as real then 1.0
    else if elapsed <= 0.0 then 0.0
    else elapsed / duration as real
  }

  /** Progress never goes backwards: a later moment is at least as far
      through the same segment. */
  lemma FractionMonotone(a: real, b: real, duration: nat)
    requires a <= b
    ensures Fraction(a, duration) <= Fraction(b, duration)
  {
    if duration > 0 && 0.0 < a && b < duration as real {
      QuotientMonotone(a, b, duration as real);
    }
  }

  lemma QuotientMonotone(a: real, b: real, d: real)
    requires a <= b && d > 0.0
    ensures a / d <= b / d
  {
    assert b / d - a / d == (b - a) / d;
  }

  /** Value of one segment `elapsed` ms after it started. */
  function SegmentValue(s: Segment, elapsed: real, curve: Curve): real {
    Lerp(s.from, s.to, Eased(curve, s.easing, Fraction(elapsed, s.duration)))
  }

  function TotalDuration(segs: seq<Segment>): nat {
    if segs == [] then 0 else segs[0].duration + TotalDuration(segs[1..])
  }

  function Durations(segs: seq<Segment>): (ds: seq<nat>)
    ensures |ds| == |segs|
    ensures forall i :: 0 <= i < |segs| ==> ds[i] == segs[i].duration
  {
    if segs == [] then [] else [segs[0].duration] + Durations(segs[1..])
  }

  /** Time at which segment `i` of a sequential set starts. */
  function StartTime(segs: seq<Segment>, i: nat): nat
    requires i <= |segs|
  {
    TotalDuration(segs[..i])
  }

  /** Every child animator has a positive duration. */
  predicate Positive(segs: seq<Segment>) {
    forall i :: 0 <= i < |segs| ==> segs[i].duration > 0
  }

  /** Each segment starts where the previous one ended. */
  predicate Continuous(segs: seq<Segment>) {
    forall i :: 0 <= i < |segs| - 1 ==> segs[i].to == segs[i + 1].from
  }

  /** The channel value `t` ms after the set started, as the sequential set
      plays it: a segment owns the instants up to and including its end; before
      the start the first segment's start value holds, after the end the last
      segment's end value. */
  function ValueAt(segs: seq<Segment>, t: real, curve: Curve): real
    requires |segs| > 0
    decreases |segs|
  {
    var s := segs[0];
    if |segs| == 1 || t <= s.duration as real then SegmentValue(s, t, curve)
    else ValueAt(segs[1..], t - s.duration as real, curve)
  }

  lemma SegmentValueAtEnds(s: Segment, curve: Curve)
    requires Anchored(curve)
    ensures SegmentValue(s, s.duration as real, curve) == s.to
    ensures s.duration > 0 ==> SegmentValue(s, 0.0, curve) == s.from
  {
    assert curve(s.easing, 1.0) == 1.0;
    assert curve(s.easing, 0.0) == 0.0;
  }

  lemma StartTimeStep(segs: seq<Segment>, i: nat)
    requires 0 < i <= |segs|
    ensures StartTime(segs, i) == segs[0].duration + StartTime(segs[1..], i - 1)
  {
    assert segs[..i][1..] == segs[1..][..i - 1];
  }

  /** Inside segment `i` the set plays that segment: `u` ms into it (for
      0 < u <= duration, or any u <= duration for the first one) the channel has
      the segment's own value. */
  lemma {:induction false} PlaysSegment(segs: seq<Segment>, i: nat, u: real, curve: Curve)
    requires Positive(segs)
    requires i < |segs|
    requires u <= segs[i].duration as real
    requires i > 0 ==> u > 0.0
    ensures ValueAt(segs, StartTime(segs, i) as real + u, curve) == SegmentValue(segs[i], u, curve)
    decreases i
  {
    if i == 0 {
      assert segs[..0] == [];
    } else {
      StartTimeStep(segs, i);
      var rest := segs[1..];
      assert Positive(rest) by {
        forall k | 0 <= k < |rest| ensures rest[k].duration > 0 {
          assert rest[k] == segs[k + 1];
        }
      }
      assert rest[i - 1] == segs[i];
      PlaysSegment(rest, i - 1, u, curve);
      var t := StartTime(segs, i) as real + u;
      assert t > segs[0].duration as real;
      assert t - segs[0].duration as real == StartTime(rest, i - 1) as real + u;
    }
  }

  /** At t = 0 the set shows its first start value. */
  lemma ValueAtStart(segs: seq<Segment>, curve: Curve)
    requires Anchored(curve)
    requires |segs| > 0 && Positive(segs)
    ensures ValueAt(segs, 0.0, curve) == segs[0].from
  {
    PlaysSegment(segs, 0, 0.0, curve);
    assert segs[..0] == [];
    SegmentValueAtEnds(segs[0], curve);
  }

  /** At a boundary between two child animators the value is the end of the
      one and the start of the next: no jump. */
  lemma ValueAtBoundary(segs: seq<Segment>, i: nat, curve: Curve)
    requires Anchored(curve)
    requires Positive(segs) && Continuous(segs)
    requires 0 < i < |segs|
    ensures ValueAt(segs, StartTime(segs, i) as real, curve) == segs[i - 1].to
    ensures ValueAt(segs, StartTime(segs, i) as real, curve) == segs[i].from
  {
    var d := segs[i - 1].duration;
    PlaysSegment(segs, i - 1, d as real, curve);
    assert segs[..i] == segs[..i - 1] + [segs[i - 1]];
    TotalDurationAppend(segs[..i - 1], segs[i - 1]);
    SegmentValueAtEnds(segs[i - 1], curve);
  }

  lemma {:induction false} TotalDurationAppend(segs: seq<Segment>, s: Segment)
    ensures TotalDuration(segs + [s]) == TotalDuration(segs) + s.duration
  {
    if segs == [] {
      assert [] + [s] == [s];
    } else {
      assert (segs + [s])[1..] == segs[1..] + [s];
      TotalDurationAppend(segs[1..], s);
    }
  }

  /** When the set has run its full length the channel holds the last end value. */
  lemma ValueAtEnd(segs: seq<Segment>, curve: Curve)
    requires Anchored(curve)
    requires |segs| > 0 && Positive(segs)
    ensures ValueAt(segs, TotalDuration(segs) as real, curve) == segs[|segs| - 1].to
  {
    var n := |segs|;
    PlaysSegment(segs, n - 1, segs[n - 1].duration as real, curve);
    assert segs[..n] == segs;
    assert segs == segs[..n - 1] + [segs[n - 1]];
    TotalDurationAppend(segs[..n - 1], segs[n - 1]);
    SegmentValueAtEnds(segs[n - 1], curve);
  }

  // ---------------------------------------------------------------------
  // The tables of the three widgets.

  /** Child animators of the vote icon set of the two vote widgets, as the
      source constructs them (`ofFloat` ranges): steps 2 and 3 animate a unit
      progress that the update listeners map onto rotation and scale. */
  const VoteIconAnimators: seq<Segment> := [
    Segment(50, 0.0, 20.0, Linear),
    Segment(200, 0.0, 1.0, Decelerate),
    Segment(100, 0.0, 1.0, Linear),
    Segment(100, 1.0, 1.1, Linear),
    Segment(100, 1.1, 1.0, Linear)
  ]

  /** Rotation channel of the vote icon motion: 0 -> 20 -> -20 -> 0, then held. */
  const VoteRotation: seq<Segment> := [
    Segment(50, 0.0, 20.0, Linear),
    Segment(200, 20.0, -20.0, Decelerate),
    Segment(100, -20.0, 0.0, Linear),
    Segment(100, 0.0, 0.0, Linear),
    Segment(100, 0.0, 0.0, Linear)
  ]

  /** Scale channel of the vote icon motion: held, then 1.0 -> 1.3 -> 1.0 -> 1.1 -> 1.0. */
  const VoteScale: seq<Segment> := [
    Segment(50, 1.0, 1.0, Linear),
    Segment(200, 1.0, 1.3, Decelerate),
    Segment(100, 1.3, 1.0, Linear),
    Segment(100, 1.0, 1.1, Linear),
    Segment(100, 1.1, 1.0, Linear)
  ]

  /** The scale-only bounce: the unvote/unlike set of all three widgets and the
      like set of the like widget. Each child animates scale directly. */
  const BounceScale: seq<Segment> := [
    Segment(200, 1.0, 1.2, Linear),
    Segment(100, 1.2, 1.0, Linear),
    Segment(100, 1.0, 1.1, Linear),
    Segment(100, 1.1, 1.0, Linear)
  ]

  /** The vote button's ripple: one decelerating segment from the 5dp minimum
      to the bounds-dependent maximum radius. */
  function RippleRadius(minRadius: real, maxRadius: real): seq<Segment> {
    [Segment(400, minRadius, maxRadius, Decelerate)]
  }

  /** Emit-point radius channel of the points set: grows, then held while the
      alpha child plays. */
  function PointsRadius(minRadius: real, maxRadius: real): seq<Segment> {
    [Segment(400, minRadius, maxRadius, Decelerate), Segment(400, maxRadius, maxRadius, Linear)]
  }

  /** Emit-point alpha channel of the points set: held at full, then fades
      255 -> 0 under the default curve of a bare animator. */
  const PointsAlpha: seq<Segment> := [
    Segment(400, 255.0, 255.0, Linear),
    Segment(400, 255.0, 0.0, Default)
  ]

  /** The integer animator behind the alpha fade truncates toward zero; its
      values are non-negative here, so truncation is the floor. */
  function IntValue(v: real): (r: int)
    requires v >= 0.0
    ensures r as real <= v < r as real + 1.0
  {
    v.Floor
  }

  lemma VoteMotionShape(curve: Curve)
    requires Anchored(curve)
    ensures Durations(VoteRotation) == [50, 200, 100, 100, 100]
    ensures Durations(VoteScale) == Durations(VoteRotation)
    ensures Durations(VoteIconAnimators) == Durations(VoteRotation)
    ensures TotalDuration(VoteRotation) == 550 && TotalDuration(VoteScale) == 550
    ensures Continuous(VoteRotation) && Continuous(VoteScale)
    ensures ValueAt(VoteRotation, 0.0, curve) == 0.0 && ValueAt(VoteScale, 0.0, curve) == 1.0
    ensures ValueAt(VoteRotation, 550.0, curve) == 0.0 && ValueAt(VoteScale, 550.0, curve) == 1.0
  {
    assert Positive(VoteRotation) && Positive(VoteScale);
    ValueAtStart(VoteRotation, curve);
    ValueAtStart(VoteScale, curve);
    ValueAtEnd(VoteRotation, curve);
    ValueAtEnd(VoteScale, curve);
  }

  lemma BounceShape(curve: Curve)
    requires Anchored(curve)
    ensures Durations(BounceScale) == [200, 100, 100, 100]
    ensures TotalDuration(BounceScale) == 500
    ensures Continuous(BounceScale)
    ensures ValueAt(BounceScale, 0.0, curve) == 1.0
    ensures ValueAt(BounceScale, 500.0, curve) == 1.0
  {
    assert Positive(BounceScale);
    ValueAtStart(BounceScale, curve);
    ValueAtEnd(BounceScale, curve);
  }

  /** The points set: radius grows over the first 400 ms, alpha fades over the
      next 400 ms, 800 ms in all; at the end the points are fully transparent. */
  lemma PointsShape(minRadius: real, maxRadius: real, curve: Curve)
    requires Anchored(curve)
    ensures Durations(PointsRadius(minRadius, maxRadius)) == [400, 400]
    ensures Durations(PointsAlpha) == [400, 400]
    ensures TotalDuration(PointsRadius(minRadius, maxRadius)) == 800
    ensures Continuous(PointsRadius(minRadius, maxRadius)) && Continuous(PointsAlpha)
    ensures ValueAt(PointsRadius(minRadius, maxRadius), 0.0, curve) == minRadius
    ensures ValueAt(PointsRadius(minRadius, maxRadius), 400.0, curve) == maxRadius
    ensures ValueAt(PointsAlpha, 400.0, curve) == 255.0
    ensures ValueAt(PointsAlpha, 800.0, curve) == 0.0
    ensures IntValue(ValueAt(PointsAlpha, 800.0, curve)) == 0
  {
    var r := PointsRadius(minRadius, maxRadius);
    assert Positive(r) && Positive(PointsAlpha);
    ValueAtStart(r, curve);
    ValueAtBoundary(r, 1, curve);
    ValueAtBoundary(PointsAlpha, 1, curve);
    ValueAtEnd(PointsAlpha, curve);
  }

  lemma RippleShape(minRadius: real, maxRadius: real, curve: Curve)
    requires Anchored(curve)
    ensures TotalDuration(RippleRadius(minRadius, maxRadius)) == 400
    ensures ValueAt(RippleRadius(minRadius, maxRadius), 0.0, curve) == minRadius
    ensures ValueAt(RippleRadius(minRadius, maxRadius), 400.0, curve) == maxRadius
  {
    var r := RippleRadius(minRadius, maxRadius);
    ValueAtStart(r, curve);
    ValueAtEnd(r, curve);
  }
}
