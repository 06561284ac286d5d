/** The tap-driven toggle shared by `FrodoVoteButton`, `FrodoVoteTextView` and
    `FrodoLikeTextView`.

    A widget holds a four-valued status, an optimistic counter, an enabled
    flag, a visual marker (background/text colour or icon bitmap) and the
    geometry its animators write. Its three animator sets are abstract tracks
    whose start, update, natural end and cancel are events. As on the platform,
    cancelling a running set calls the set listener's cancel callback and then
    its end callback; each listener keeps an `isCancel` flag so that the
    trailing end callback does nothing.

    The like widget uses the same machine under LIKE naming: UNLIKE, LIKING,
    LIKED and UNLIKING are `Unvote`, `Voting`, `Voted` and `Unvoting`, and
    `onLike`/`onCancelLike` are `Activated`/`Deactivated`. */
module Toggle {
  import opened Wrappers
  import opened JavaInt

  datatype Variant = VoteButton | VoteTextView | LikeTextView

  datatype Status = Unvote | Voting | Voted | Unvoting

  /** `Effect` is the vote button's ripple animator and the text views' points
      set; `IconVote` and `IconUnvote` are the icon motion sets. */
  datatype Track = Effect | IconVote | IconUnvote

  datatype Colour = Transparent | White | MainGray | TextGray | MainGreen

  /** `Plain` is ic_vote / ic_menu_like, `Filled` is ic_voted / ic_menu_liked. */
  datatype Icon = Plain | Filled

  datatype Marker = Marker(bg: Colour, text: Colour, icon: Icon)

  /** Values the update listeners write: icon rotation (degrees) and scale,
      the ripple or emit-point radius, and the emit-point alpha. */
  datatype IconGeometry = IconGeometry(rotation: real, scale: real, radius: real, alpha: int)

  /** One animator set as its listener sees it. */
  datatype Anim = Anim(running: bool, cancelled: bool)

  datatype Widget = Widget(
    variant: Variant,
    status: Status,
    count: Int32,          // a Java int: arithmetic on it wraps
    enabled: bool,
    marker: Marker,
    geometry: IconGeometry,
    effect: Anim,
    iconVote: Anim,
    iconUnvote: Anim)

  /** Calls made on the application's listener (`onVote`/`onLike` and
      `onCancelVote`/`onCancelLike`). A widget without a listener is one whose
      listener ignores them. */
  datatype Notice = Activated | Deactivated

  datatype Event =
    | Tap
    | Update(track: Track, child: nat, value: real)
    | Finish(track: Track)
    | Cancel(track: Track)
    | SetStatus(status: Status)
    | SetCount(count: Int32)
    | SetEnabled(enabled: bool)
    | CancelAll
    | StartVote
    | StartUnvote

  datatype Outcome = Outcome(widget: Widget, notices: seq<Notice>)

  const Stopped := Anim(false, false)

  function InitialMarker(v: Variant): Marker {
    match v
    case VoteButton => Marker(Transparent, TextGray, Plain)
    case VoteTextView => Marker(Transparent, TextGray, Plain)
    case LikeTextView => Marker(Transparent, MainGreen, Plain)
  }

  /** A freshly constructed widget: UNVOTE, count 0, votable, geometry reset.
      The vote button starts with ripple radius -1 and has no alpha (kept at 255). */
  function Init(v: Variant): (w: Widget)
    ensures w.status == Unvote && w.count == 0 && w.enabled
    ensures !w.effect.running && !w.iconVote.running && !w.iconUnvote.running
  {
    var radius := if v == VoteButton then -1.0 else 0.0;
    Widget(v, Unvote, 0, true, InitialMarker(v), IconGeometry(0.0, 1.0, radius, 255),
           Stopped, Stopped, Stopped)
  }

  function AnimOf(w: Widget, t: Track): Anim {
    match t
    case Effect => w.effect
    case IconVote => w.iconVote
    case IconUnvote => w.iconUnvote
  }

  function WithAnim(w: Widget, t: Track, a: Anim): (r: Widget)
    ensures AnimOf(r, t) == a
    ensures forall u :: u != t ==> AnimOf(r, u) == AnimOf(w, u)
    ensures r.status == w.status && r.count == w.count && r.enabled == w.enabled
    ensures r.marker == w.marker && r.geometry == w.geometry && r.variant == w.variant
  {
    match t
    case Effect => w.(effect := a)
    case IconVote => w.(iconVote := a)
    case IconUnvote => w.(iconUnvote := a)
  }

  predicate Running(w: Widget, t: Track) {
    AnimOf(w, t).running
  }

  /** No animator set is running. */
  predicate Idle(w: Widget) {
    !w.effect.running && !w.iconVote.running && !w.iconUnvote.running
  }

  /** The set whose listener settles an activation: the icon set on the vote
      button, the points set on the two text views. */
  function ActivationTrack(v: Variant): Track {
    if v == VoteButton then IconVote else Effect
  }

  /** Whether the set carries a start/end/cancel listener. The vote button's
      ripple animator and the text views' icon vote set have none. */
  predicate HasListener(v: Variant, t: Track) {
    t == IconUnvote || t == ActivationTrack(v)
  }

  /** `resetIcon`: rotation 0, scale 1; the text views also restore alpha 255. */
  function ResetIcon(v: Variant, g: IconGeometry): (r: IconGeometry)
    ensures r.rotation == 0.0 && r.scale == 1.0 && r.radius == g.radius
    ensures r.alpha == if v == VoteButton then g.alpha else 255
  {
    if v == VoteButton then g.(rotation := 0.0, scale := 1.0)
    else g.(rotation := 0.0, scale := 1.0, alpha := 255)
  }

  /** `setStatus`: a final status also resets the icon geometry and selects
      the colours (vote button) or icon bitmap (text views); a transient
      status only changes the status. */
  function ApplyStatus(w: Widget, s: Status): (r: Widget)
    ensures r.status == s && r.count == w.count && r.enabled == w.enabled
    ensures r.variant == w.variant
    ensures forall t :: AnimOf(r, t) == AnimOf(w, t)
  {
    var v := w.variant;
    match s
    case Unvote =>
      var m := if v == VoteButton then w.marker.(bg := White, text := TextGray)
               else w.marker.(icon := Plain);
      w.(status := s, marker := m, geometry := ResetIcon(v, w.geometry))
    case Voted =>
      var m := if v == VoteButton then w.marker.(bg := MainGray, text := White)
               else w.marker.(icon := Filled);
      w.(status := s, marker := m, geometry := ResetIcon(v, w.geometry))
    case _ => w.(status := s)
  }

  // ---------------------------------------------------------------------
  // The set listeners.

  /** `onAnimationStart`: clear the cancel flag. */
  function ListenerStart(w: Widget, t: Track): Widget {
    WithAnim(w, t, AnimOf(w, t).(cancelled := false))
  }

  /** `onAnimationCancel`: set the cancel flag and roll the optimistic change
      back — an interrupted activation returns to UNVOTE with one vote fewer,
      an interrupted deactivation to VOTED with one vote more. */
  function ListenerCancel(w: Widget, t: Track): Widget {
    var f := WithAnim(w, t, AnimOf(w, t).(cancelled := true));
    if !HasListener(w.variant, t) then f
    else if t == IconUnvote then ApplyStatus(f, Voted).(count := Wrap32(f.count + 1))
    else ApplyStatus(f, Unvote).(count := Wrap32(f.count - 1))
  }

  /** `onAnimationEnd`: unless the set was cancelled, settle into the final
      status. */
  function ListenerEnd(w: Widget, t: Track): Widget {
    if !HasListener(w.variant, t) || AnimOf(w, t).cancelled then w
    else if t == IconUnvote then ApplyStatus(w, Unvote)
    else ApplyStatus(w, Voted)
  }

  // ---------------------------------------------------------------------
  // Animator set operations.

  /** `start()`: the set runs and its listener's start callback fires. A set
      that is already running is restarted the same way. */
  function StartTrack(w: Widget, t: Track): (r: Widget)
    ensures Running(r, t) && !AnimOf(r, t).cancelled
    ensures forall u :: u != t ==> AnimOf(r, u) == AnimOf(w, u)
    ensures r.status == w.status && r.count == w.count && r.enabled == w.enabled
    ensures r.marker == w.marker && r.geometry == w.geometry && r.variant == w.variant
  {
    ListenerStart(WithAnim(w, t, AnimOf(w, t).(running := true)), t)
  }

  /** The set plays to its end: the end callback alone fires. */
  function FinishTrack(w: Widget, t: Track): Widget {
    if !Running(w, t) then w
    else ListenerEnd(WithAnim(w, t, AnimOf(w, t).(running := false)), t)
  }

  /** `cancel()` on a running set: the cancel callback, then the end callback.
      Cancelling a set that is not running does nothing. */
  function CancelTrack(w: Widget, t: Track): Widget {
    if !Running(w, t) then w
    else ListenerEnd(ListenerCancel(WithAnim(w, t, AnimOf(w, t).(running := false)), t), t)
  }

  /** `cancelAll`: cancel each set that is running, ripple/points first. */
  function CancelAllTracks(w: Widget): Widget {
    CancelTrack(CancelTrack(CancelTrack(w, Effect), IconVote), IconUnvote)
  }

  /** `startVoteAnimation`. The vote button first turns its text white; its
      ripple start is deferred by the source until after layout and is taken
      here to happen right after the icon set starts. */
  function StartVoteAnimation(w: Widget): Widget {
    if w.variant == VoteButton then
      StartTrack(StartTrack(w.(marker := w.marker.(text := White)), IconVote), Effect)
    else
      StartTrack(StartTrack(w, Effect), IconVote)
  }

  /** `startUnVoteAnimation`. The vote button first restores its unvoted colours. */
  function StartUnvoteAnimation(w: Widget): Widget {
    if w.variant == VoteButton then
      StartTrack(w.(marker := w.marker.(bg := White, text := TextGray)), IconUnvote)
    else
      StartTrack(w, IconUnvote)
  }

  /** `onClick`. */
  function TapStep(w: Widget): (r: Outcome)
    ensures !w.enabled ==> r == Outcome(w, [])
    ensures w.status in {Voting, Unvoting} ==> r == Outcome(w, [])
    ensures w.enabled && w.status == Unvote ==>
              && r.widget.status == Voting && r.widget.count == Wrap32(w.count + 1)
              && r.notices == [Activated]
              && Running(r.widget, ActivationTrack(w.variant))
              && (w.variant != VoteButton ==> r.widget.marker.icon == Filled)
    ensures w.enabled && w.status == Voted ==>
              && r.widget.status == Unvoting && r.widget.count == Wrap32(w.count - 1)
              && r.notices == [Deactivated]
              && Running(r.widget, IconUnvote)
              && (w.variant != VoteButton ==> r.widget.marker.icon == Plain)
    // Activation starts both the effect and the icon vote set; deactivation
    // starts only the icon unvote set.
    ensures w.enabled && w.status == Unvote ==>
              && Running(r.widget, Effect) && Running(r.widget, IconVote)
              && AnimOf(r.widget, IconUnvote) == AnimOf(w, IconUnvote)
    ensures w.enabled && w.status == Voted ==>
              && AnimOf(r.widget, Effect) == AnimOf(w, Effect)
              && AnimOf(r.widget, IconVote) == AnimOf(w, IconVote)
    // The vote button recolours its text (and, on unvote, its background);
    // the text views swap only the icon bitmap.
    ensures w.enabled && w.status == Unvote && w.variant == VoteButton ==>
              r.widget.marker == w.marker.(text := White)
    ensures w.enabled && w.status == Voted && w.variant == VoteButton ==>
              r.widget.marker == w.marker.(bg := White, text := TextGray)
    ensures w.enabled && w.status in {Unvote, Voted} && w.variant != VoteButton ==>
              r.widget.marker.bg == w.marker.bg && r.widget.marker.text == w.marker.text
    // A tap never touches the enabled flag, the variant or the geometry.
    ensures r.widget.enabled == w.enabled && r.widget.variant == w.variant
    ensures r.widget.geometry == w.geometry
  {
    if !w.enabled then Outcome(w, [])
    else if w.status == Unvote then
      var icon := if w.variant == VoteButton then w.marker.icon else Filled;
      var w1 := w.(status := Voting, count := Wrap32(w.count + 1), marker := w.marker.(icon := icon));
      Outcome(StartVoteAnimation(w1), [Activated])
    else if w.status == Voted then
      var icon := if w.variant == VoteButton then w.marker.icon else Plain;
      var w1 := w.(status := Unvoting, count := Wrap32(w.count - 1), marker := w.marker.(icon := icon));
      Outcome(StartUnvoteAnimation(w1), [Deactivated])
    else Outcome(w, [])
  }

  /** What the update listener of child animator `child` of a set writes when
      that child delivers `x`. The vote icon set's second and third children
      animate a unit progress mapped onto rotation and scale together; the
      like widget's icon set is the scale-only bounce. The alpha child is an
      integer animator, so the value it delivers is integral. */
  function UpdateGeometry(v: Variant, t: Track, child: nat, x: real, g: IconGeometry): IconGeometry {
    match t
    case Effect =>
      if child == 0 then g.(radius := x)
      else if child == 1 && v != VoteButton then g.(alpha := x.Floor)
      else g
    case IconVote =>
      if v == LikeTextView then (if child < 4 then g.(scale := x) else g)
      else if child == 0 then g.(rotation := x)
      else if child == 1 then g.(rotation := 20.0 - x * 40.0, scale := 1.0 + x * 0.3)
      else if child == 2 then g.(rotation := -20.0 + x * 20.0, scale := 1.3 - x * 0.3)
      else if child < 5 then g.(scale := x)
      else g
    case IconUnvote =>
      if child < 4 then g.(scale := x) else g
  }

  function Step(w: Widget, e: Event): Outcome {
    match e
    case Tap => TapStep(w)
    case Update(t, child, x) =>
      if Running(w, t) then Outcome(w.(geometry := UpdateGeometry(w.variant, t, child, x, w.geometry)), [])
      else Outcome(w, [])
    case Finish(t) => Outcome(FinishTrack(w, t), [])
    case Cancel(t) => Outcome(CancelTrack(w, t), [])
    case SetStatus(s) => Outcome(ApplyStatus(w, s), [])
    case SetCount(n) => Outcome(w.(count := n), [])
    case SetEnabled(b) => Outcome(w.(enabled := b), [])
    case CancelAll => Outcome(CancelAllTracks(w), [])
    case StartVote => Outcome(StartVoteAnimation(w), [])
    case StartUnvote => Outcome(StartUnvoteAnimation(w), [])
  }

  /** Runs a sequence of events, collecting the listener calls in order. */
  function Run(w: Widget, es: seq<Event>): Outcome
    decreases |es|
  {
    if es == [] then Outcome(w, [])
    else
      var o := Step(w, es[0]);
      var rest := Run(o.widget, es[1..]);
      Outcome(rest.widget, o.notices + rest.notices)
  }

  // ---------------------------------------------------------------------
  // What the renderer is given.

  datatype Render = Render(marker: Marker, geometry: IconGeometry, drawEffect: bool, text: Option<int>)

  /** The ripple (vote button) or the emit points (text views) are drawn only
      while VOTING; the counter text is drawn only when the count is not 0. */
  function RenderOf(w: Widget): (r: Render)
    ensures r.drawEffect <==> w.status == Voting
    ensures r.text == None <==> w.count == 0
    ensures r.text != None ==> r.text.value == w.count
  {
    Render(w.marker, w.geometry, w.status == Voting, if w.count == 0 then None else Some(w.count))
  }
}
