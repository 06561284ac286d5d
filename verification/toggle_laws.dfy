/** Laws of the toggle: rollback on cancel, settling on natural end, the
    harmless trailing end callback, idempotent `cancelAll`, and the invariant
    that ties the transient statuses to the running animator sets. */
module ToggleLaws {
  import opened Wrappers
  import opened Toggle
  import opened JavaInt
  import M = Measure
  import K = Keyframes

  /** Reachable without the application forcing a status: VOTING exactly
      while the settling activation set runs, UNVOTING exactly while the unvote
      set runs, and a running set is never marked cancelled. */
  predicate Coherent(w: Widget) {
    && (w.status == Voting <==> Running(w, ActivationTrack(w.variant)))
    && (w.status == Unvoting <==> Running(w, IconUnvote))
    && (w.effect.running ==> !w.effect.cancelled)
    && (w.iconVote.running ==> !w.iconVote.cancelled)
    && (w.iconUnvote.running ==> !w.iconUnvote.cancelled)
  }

  /** The optimistic change not yet settled: +1 while voting, -1 while unvoting. */
  function Pending(s: Status): int {
    match s
    case Voting => 1
    case Unvoting => -1
    case _ => 0
  }

  /** The status a rollback returns to. */
  function RolledBack(s: Status): Status {
    match s
    case Voting => Unvote
    case Unvoting => Voted
    case _ => s
  }

  /** The marker `setStatus` selects for a final status. */
  function SettledMarker(v: Variant, m: Marker, s: Status): Marker {
    if s == Voted then
      if v == VoteButton then m.(bg := MainGray, text := White) else m.(icon := Filled)
    else
      if v == VoteButton then m.(bg := White, text := TextGray) else m.(icon := Plain)
  }

  /** Events the widget and its animators produce on their own, as opposed to
      the application forcing a status or starting an animation directly. */
  predicate Internal(e: Event) {
    !e.SetStatus? && !e.StartVote? && !e.StartUnvote?
  }

  // ---------------------------------------------------------------------
  // Single tracks.

  lemma InitCoherent(v: Variant)
    ensures Coherent(Init(v)) && Idle(Init(v))
  {
  }

  /** Cancelling a set stops it and leaves the other sets as they were. */
  lemma CancelTrackStops(w: Widget, t: Track)
    ensures !Running(CancelTrack(w, t), t)
    ensures forall u :: u != t ==> AnimOf(CancelTrack(w, t), u) == AnimOf(w, u)
    ensures CancelTrack(w, t).variant == w.variant && CancelTrack(w, t).enabled == w.enabled
  {
  }

  /** The end callback that follows a cancel changes nothing: the listener's
      flag makes the cancel callback's rollback final. */
  lemma TrailingEndHarmless(w: Widget, t: Track)
    requires Running(w, t)
    ensures CancelTrack(w, t) == ListenerCancel(WithAnim(w, t, AnimOf(w, t).(running := false)), t)
  {
    var c := ListenerCancel(WithAnim(w, t, AnimOf(w, t).(running := false)), t);
    assert AnimOf(c, t).cancelled;
  }

  /** A set without a listener (the vote button's ripple, the text views' icon
      vote set) can be cancelled without touching status, count or visuals. */
  lemma UnlistenedCancelOnlyStops(w: Widget, t: Track)
    requires !HasListener(w.variant, t) && Running(w, t)
    ensures CancelTrack(w, t) == WithAnim(w, t, Anim(false, true))
  {
  }

  /** A cancelled activation returns to UNVOTE with the vote taken back; a
      cancelled deactivation returns to VOTED with the vote given back. */
  lemma CancelActivationRollsBack(w: Widget, t: Track)
    requires Running(w, t) && HasListener(w.variant, t) && !AnimOf(w, t).cancelled
    ensures t == IconUnvote ==> CancelTrack(w, t).status == Voted && CancelTrack(w, t).count == Wrap32(w.count + 1)
    ensures t != IconUnvote ==> CancelTrack(w, t).status == Unvote && CancelTrack(w, t).count == Wrap32(w.count - 1)
    ensures CancelTrack(w, t).geometry == ResetIcon(w.variant, w.geometry)
  {
    TrailingEndHarmless(w, t);
  }

  /** A set with a listener that plays to its end settles the status and
      resets the icon geometry; the count is untouched. */
  lemma FinishSettles(w: Widget, t: Track)
    requires Running(w, t) && HasListener(w.variant, t) && !AnimOf(w, t).cancelled
    ensures FinishTrack(w, t).status == (if t == IconUnvote then Unvote else Voted)
    ensures FinishTrack(w, t).count == w.count
    ensures FinishTrack(w, t).geometry == ResetIcon(w.variant, w.geometry)
    ensures !Running(FinishTrack(w, t), t)
  {
  }

  // ---------------------------------------------------------------------
  // cancelAll.

  /** After `cancelAll` nothing runs. */
  lemma CancelAllStopsEverything(w: Widget)
    ensures Idle(CancelAllTracks(w))
  {
    var a := CancelTrack(w, Effect);
    CancelTrackStops(w, Effect);
    var b := CancelTrack(a, IconVote);
    CancelTrackStops(a, IconVote);
    CancelTrackStops(b, IconUnvote);
  }

  /** A second `cancelAll` right after the first is a no-op. */
  lemma CancelAllIdempotent(w: Widget)
    ensures CancelAllTracks(CancelAllTracks(w)) == CancelAllTracks(w)
  {
    CancelAllStopsEverything(w);
  }

  /** From any coherent state, `cancelAll` restores the pre-optimistic status
      and count: an in-flight vote or unvote is rolled back, a settled widget
      keeps its status, count, visuals and geometry. */
  lemma CancelAllRollsBack(w: Widget)
    requires Coherent(w)
    ensures Idle(CancelAllTracks(w)) && Coherent(CancelAllTracks(w))
    ensures CancelAllTracks(w).status == RolledBack(w.status)
    ensures CancelAllTracks(w).count == Wrap32(w.count - Pending(w.status))
    ensures CancelAllTracks(w).enabled == w.enabled
    ensures w.status in {Voting, Unvoting} ==>
              && CancelAllTracks(w).geometry == ResetIcon(w.variant, w.geometry)
              && CancelAllTracks(w).marker == SettledMarker(w.variant, w.marker, RolledBack(w.status))
    ensures w.status in {Unvote, Voted} ==>
              CancelAllTracks(w).marker == w.marker && CancelAllTracks(w).geometry == w.geometry
  {
    CancelAllStopsEverything(w);
    if w.status == Voting {
      CancelAllWhileVoting(w);
    } else if w.status == Unvoting {
      CancelAllWhileUnvoting(w);
    } else {
      CancelAllWhenSettled(w);
    }
  }

  lemma CancelAllWhileVoting(w: Widget)
    requires Coherent(w) && w.status == Voting
    ensures CancelAllTracks(w).status == Unvote
    ensures CancelAllTracks(w).count == Wrap32(w.count - 1)
    ensures CancelAllTracks(w).enabled == w.enabled
    ensures CancelAllTracks(w).geometry == ResetIcon(w.variant, w.geometry)
    ensures CancelAllTracks(w).marker == SettledMarker(w.variant, w.marker, Unvote)
  {
    var v := w.variant;
    var a := CancelTrack(w, Effect);
    var b := CancelTrack(a, IconVote);
    CancelActivationRollsBack(w, ActivationTrack(v));
    if v == VoteButton {
      assert !HasListener(v, Effect);
      assert a.status == Voting && a.count == w.count && a.geometry == w.geometry && a.marker == w.marker;
      assert a.iconVote == w.iconVote;
      CancelActivationRollsBack(a, IconVote);
      assert !b.iconUnvote.running;
    } else {
      assert a.status == Unvote && a.count == Wrap32(w.count - 1);
      assert !HasListener(v, IconVote);
      assert !a.iconUnvote.running;
    }
  }

  lemma CancelAllWhileUnvoting(w: Widget)
    requires Coherent(w) && w.status == Unvoting
    ensures CancelAllTracks(w).status == Voted
    ensures CancelAllTracks(w).count == Wrap32(w.count + 1)
    ensures CancelAllTracks(w).enabled == w.enabled
    ensures CancelAllTracks(w).geometry == ResetIcon(w.variant, w.geometry)
    ensures CancelAllTracks(w).marker == SettledMarker(w.variant, w.marker, Voted)
  {
    var v := w.variant;
    var a := CancelTrack(w, Effect);
    var b := CancelTrack(a, IconVote);
    assert !Running(w, ActivationTrack(v));
    assert a.status == Unvoting && a.count == w.count && a.marker == w.marker && a.geometry == w.geometry;
    assert b.status == Unvoting && b.count == w.count && b.marker == w.marker && b.geometry == w.geometry;
    assert b.iconUnvote == w.iconUnvote;
    CancelActivationRollsBack(b, IconUnvote);
  }

  lemma CancelAllWhenSettled(w: Widget)
    requires Coherent(w) && w.status in {Unvote, Voted}
    ensures CancelAllTracks(w).status == w.status && CancelAllTracks(w).count == w.count
    ensures CancelAllTracks(w).enabled == w.enabled
    ensures CancelAllTracks(w).marker == w.marker && CancelAllTracks(w).geometry == w.geometry
  {
    assert !Running(w, ActivationTrack(w.variant)) && !w.iconUnvote.running;
  }

  // ---------------------------------------------------------------------
  // Tap followed by cancel or by natural completion.

  /** The rollback the application relies on: a tap followed by `cancelAll`
      gives back the original status and count, with nothing left running. */
  lemma TapThenCancelAllRestores(w: Widget)
    requires Coherent(w) && w.enabled && w.status in {Unvote, Voted}
    ensures CancelAllTracks(TapStep(w).widget).status == w.status
    ensures CancelAllTracks(TapStep(w).widget).count == w.count
    ensures Idle(CancelAllTracks(TapStep(w).widget))
    ensures CancelAllTracks(TapStep(w).widget).geometry.rotation == 0.0
    ensures CancelAllTracks(TapStep(w).widget).geometry.scale == 1.0
  {
    StepPreservesCoherent(w, Tap);
    CancelAllRollsBack(TapStep(w).widget);
    IncDecInverse(w.count);
  }

  /** A vote tap whose settling set plays out ends VOTED with the extra vote
      kept and neutral geometry; an unvote tap likewise ends UNVOTE. */
  lemma TapThenFinishSettles(w: Widget)
    requires Coherent(w) && w.enabled && w.status in {Unvote, Voted}
    ensures var t := if w.status == Unvote then ActivationTrack(w.variant) else IconUnvote;
            var r := FinishTrack(TapStep(w).widget, t);
            && r.status == (if w.status == Unvote then Voted else Unvote)
            && r.count == Wrap32(w.count + (if w.status == Unvote then 1 else -1))
            && r.geometry.rotation == 0.0 && r.geometry.scale == 1.0
            && (w.variant != VoteButton ==> r.geometry.alpha == 255)
            && r.marker == SettledMarker(w.variant, TapStep(w).widget.marker, r.status)
  {
    var t := if w.status == Unvote then ActivationTrack(w.variant) else IconUnvote;
    FinishSettles(TapStep(w).widget, t);
  }

  // ---------------------------------------------------------------------
  // The invariant.

  /** Every event the widget and its animators produce keeps the transient
      statuses tied to their running sets. */
  lemma StepPreservesCoherent(w: Widget, e: Event)
    requires Coherent(w) && Internal(e)
    ensures Coherent(Step(w, e).widget)
  {
    match e
    case Tap => TapPreservesCoherent(w);
    case Update(_, _, _) =>
    case Finish(t) => FinishPreservesCoherent(w, t);
    case Cancel(t) =>
      CancelTrackStops(w, t);
      if Running(w, t) && HasListener(w.variant, t) { CancelActivationRollsBack(w, t); }
    case SetCount(_) =>
    case SetEnabled(_) =>
    case CancelAll => CancelAllRollsBack(w);
    case _ =>
  }

  lemma TapPreservesCoherent(w: Widget)
    requires Coherent(w)
    ensures Coherent(TapStep(w).widget)
  {
  }

  lemma FinishPreservesCoherent(w: Widget, t: Track)
    requires Coherent(w)
    ensures Coherent(FinishTrack(w, t))
  {
  }

  lemma {:induction false} RunPreservesCoherent(w: Widget, es: seq<Event>)
    requires Coherent(w)
    requires forall i :: 0 <= i < |es| ==> Internal(es[i])
    ensures Coherent(Run(w, es).widget)
    decreases |es|
  {
    if es != [] {
      StepPreservesCoherent(w, es[0]);
      RunPreservesCoherent(Step(w, es[0]).widget, es[1..]);
    }
  }

  /** Taps are ignored while a vote or unvote is in flight, whatever the
      animators are doing. */
  lemma {:induction false} TransientIgnoresTaps(w: Widget, n: nat)
    requires w.status in {Voting, Unvoting}
    ensures Run(w, seq(n, _ => Tap)) == Outcome(w, [])
    decreases n
  {
    if n > 0 {
      var es := seq(n, _ => Tap);
      assert es[0] == Tap;
      assert es[1..] == seq(n - 1, _ => Tap);
      TransientIgnoresTaps(w, n - 1);
    }
  }

  // ---------------------------------------------------------------------
  // What the application can do to it.

  /** `setStatus(VOTING|UNVOTING)` changes only the status field. */
  lemma SetTransientStatusOnlyStatus(w: Widget, s: Status)
    requires s in {Voting, Unvoting}
    ensures Step(w, SetStatus(s)).widget == w.(status := s)
  {
  }

  /** `setStatus(UNVOTE|VOTED)` also resets rotation and scale and selects the
      settled colours or icon; it leaves count and running sets alone. */
  lemma SetFinalStatusResets(w: Widget, s: Status)
    requires s in {Unvote, Voted}
    ensures Step(w, SetStatus(s)).widget.geometry.rotation == 0.0
    ensures Step(w, SetStatus(s)).widget.geometry.scale == 1.0
    ensures Step(w, SetStatus(s)).widget.marker == SettledMarker(w.variant, w.marker, s)
    ensures Step(w, SetStatus(s)).widget.count == w.count
    ensures Step(w, SetStatus(s)).widget == ApplyStatus(w, s)
  {
  }

  /** `resetIcon` forgets the icon motion: its result does not depend on the
      rotation and scale it is given (nor, on the text views, on the alpha),
      it keeps the ripple or emit radius, and a second reset changes nothing. */
  lemma ResetIconForgetsMotion(v: Variant, g: IconGeometry, rotation: real, scale: real, alpha: int)
    ensures ResetIcon(v, g.(rotation := rotation, scale := scale)) == ResetIcon(v, g)
    ensures v != VoteButton ==> ResetIcon(v, g.(alpha := alpha)) == ResetIcon(v, g)
    ensures ResetIcon(v, ResetIcon(v, g)) == ResetIcon(v, g)
    ensures ResetIcon(v, g).radius == g.radius
  {
  }

  /** The rollback is additive, not a restore: a count pushed by the
      application while a vote is in flight is itself decremented by a later
      `cancelAll`. */
  lemma AdditiveRollback(w: Widget, n: Int32)
    requires Coherent(w) && w.enabled && w.status == Unvote
    ensures Run(w, [Tap, SetCount(n), CancelAll]).widget.count == Wrap32(n - 1)
    ensures Run(w, [Tap, SetCount(n), CancelAll]).widget.status == Unvote
  {
    var w1 := TapStep(w).widget;
    StepPreservesCoherent(w, Tap);
    var w2 := w1.(count := n);
    CancelAllRollsBack(w2);
    var es := [Tap, SetCount(n), CancelAll];
    assert es[1..] == [SetCount(n), CancelAll];
    assert es[1..][1..] == [CancelAll];
    assert [CancelAll][1..] == [];
    assert Run(w2, [CancelAll]).widget == CancelAllTracks(w2);
    assert Run(w1, [SetCount(n), CancelAll]).widget == Run(w2, [CancelAll]).widget;
    assert Run(w, es).widget == Run(w1, [SetCount(n), CancelAll]).widget;
  }

  /** Nothing keeps the counter non-negative: an unvote tap at count 0 shows -1. */
  lemma CountCanGoNegative(w: Widget)
    requires w.enabled && w.status == Voted && w.count == 0
    ensures TapStep(w).widget.count == -1
    ensures RenderOf(TapStep(w).widget).text == Some(-1)
  {
  }

  /** The counter is a Java `int`: a vote at the largest count wraps to the
      smallest, which is drawn, but measured as taking no text width. */
  lemma CountWrapsAtMax(w: Widget, measured: nat)
    requires w.enabled && w.status == Unvote && w.count == 0x7FFF_FFFF
    ensures TapStep(w).widget.count == -0x8000_0000
    ensures RenderOf(TapStep(w).widget).text == Some(-0x8000_0000)
    ensures M.TextWidth(TapStep(w).widget.count, measured) == 0
  {
    MaxWrapsToMin();
  }

  /** What is drawn follows the machine: in every coherent state the ripple
      or emit points are drawn exactly while the settling activation set runs,
      and the counter text exactly when the count is non-zero. */
  lemma RenderShowsActivation(w: Widget)
    requires Coherent(w)
    ensures RenderOf(w).drawEffect <==> Running(w, ActivationTrack(w.variant))
    ensures RenderOf(w).drawEffect ==> !Idle(w)
    ensures RenderOf(w).text.Some? <==> w.count != 0
  {
  }

  /** An animator update writes only the geometry, and only while its set runs. */
  lemma UpdateOnlyGeometry(w: Widget, t: Track, child: nat, x: real)
    ensures Step(w, Update(t, child, x)).widget.(geometry := w.geometry) == w
    ensures !Running(w, t) ==> Step(w, Update(t, child, x)).widget == w
    ensures Step(w, Update(t, child, x)).notices == []
  {
  }

  // ---------------------------------------------------------------------
  // The update listeners realise the keyframe tables.

  /** On the two vote widgets, child `i` of the icon vote set delivering its
      own animator's value at progress `f` puts rotation and scale exactly on
      the rotation and scale channels of the vote motion at that progress:
      the unit progress of children 2 and 3 maps onto 20 -> -20 -> 0 degrees
      and 1.0 -> 1.3 -> 1.0. */
  lemma VoteIconUpdatesFollowTables(v: Variant, i: nat, f: real, g: IconGeometry)
    requires v != LikeTextView && i < 5
    ensures var a := K.VoteIconAnimators[i];
            var r := UpdateGeometry(v, IconVote, i, K.Lerp(a.from, a.to, f), g);
            && (i <= 2 ==> r.rotation == K.Lerp(K.VoteRotation[i].from, K.VoteRotation[i].to, f))
            && (i >= 1 ==> r.scale == K.Lerp(K.VoteScale[i].from, K.VoteScale[i].to, f))
            && r.radius == g.radius && r.alpha == g.alpha
  {
  }

  /** The like widget's icon set and every widget's unvote set write the
      bounce scale channel. */
  lemma BounceUpdatesFollowTable(v: Variant, t: Track, i: nat, f: real, g: IconGeometry)
    requires t == IconUnvote || (t == IconVote && v == LikeTextView)
    requires i < 4
    ensures var s := K.BounceScale[i];
            var r := UpdateGeometry(v, t, i, K.Lerp(s.from, s.to, f), g);
            r == g.(scale := K.Lerp(s.from, s.to, f))
  {
  }

  /** The text views' points set writes the emit radius from its first child
      and the truncated alpha from its second. */
  lemma PointsUpdatesFollowTables(v: Variant, minRadius: real, maxRadius: real, f: real, g: IconGeometry)
    requires v != VoteButton
    requires 0.0 <= f <= 1.0
    ensures var s := K.PointsRadius(minRadius, maxRadius)[0];
            UpdateGeometry(v, Effect, 0, K.Lerp(s.from, s.to, f), g).radius == K.Lerp(minRadius, maxRadius, f)
    ensures var s := K.PointsAlpha[1];
            var x := K.IntValue(K.Lerp(s.from, s.to, f));
            UpdateGeometry(v, Effect, 1, x as real, g) == g.(alpha := x)
    ensures var x := K.IntValue(K.Lerp(255.0, 0.0, f)); 0 <= x <= 255
  {
  }
}
