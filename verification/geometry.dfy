/** Ripple radii and emit-point angles.

    Pixel quantities are integers where the source computes them as integers.
    Touch coordinates of the ripple button are floats in the source and reals
    here; its square root is stated on squared distances. */
module Geometry {

  /** Integer square root: the largest r with r*r <= n. For the magnitudes a
      view can have, `(int) Math.sqrt(n)` of an exact integer n is this value. */
  method ISqrt(n: nat) returns (r: nat)
    ensures r * r <= n < (r + 1) * (r + 1)
  {
    r := 0;
    while (r + 1) * (r + 1) <= n
      invariant r * r <= n
      decreases n - r * r
    {
      r := r + 1;
    }
  }

  /** The vote button's ripple centre: the icon's centre, with the source's
      integer halving. */
  function RippleAnchor(paddingLeft: nat, iconWidth: nat, measuredHeight: nat): (p: (int, int))
    ensures p.0 * 2 <= 2 * paddingLeft + iconWidth < p.0 * 2 + 2
    ensures p.1 * 2 <= measuredHeight < p.1 * 2 + 2
  {
    (paddingLeft + iconWidth / 2, measuredHeight / 2)
  }

  /** `FrodoVoteButton.initRippleAnimator`: the maximum ripple radius is the
      truncated distance from the anchor to the top-right corner. */
  method VoteButtonMaxRadius(paddingLeft: nat, iconWidth: nat, measuredWidth: nat, measuredHeight: nat)
    returns (r: nat)
    ensures var p := RippleAnchor(paddingLeft, iconWidth, measuredHeight);
            var dx := measuredWidth - p.0;
            var dy := p.1;
            r * r <= dx * dx + dy * dy < (r + 1) * (r + 1)
  {
    var p := RippleAnchor(paddingLeft, iconWidth, measuredHeight);
    var dx := measuredWidth - p.0;
    var dy := p.1;
    var n := dx * dx + dy * dy;
    assert n >= 0;
    r := ISqrt(n);
  }

  function Max(a: real, b: real): real {
    if a >= b then a else b
  }

  function Sq(a: real): real {
    a * a
  }

  /** Squared distance from (x, y) to (cx, cy). */
  function DistSq(x: real, y: real, cx: real, cy: real): real {
    Sq(cx - x) + Sq(cy - y)
  }

  /** `RippleButton.initRippleAnimator`, squared: the ripple grows to the
      farthest corner of the width x height view from the touch point. The
      result bounds the squared distance to every corner and is one of them. */
  function RippleButtonMaxRadiusSq(x: real, y: real, width: real, height: real): (r: real)
    requires width >= 0.0 && height >= 0.0
    ensures r >= DistSq(x, y, 0.0, 0.0) && r >= DistSq(x, y, width, 0.0)
    ensures r >= DistSq(x, y, 0.0, height) && r >= DistSq(x, y, width, height)
    ensures r == DistSq(x, y, 0.0, 0.0) || r == DistSq(x, y, width, 0.0)
         || r == DistSq(x, y, 0.0, height) || r == DistSq(x, y, width, height)
  {
    var w := Max(x, width - x);
    var h := Max(y, height - y);
    MaxOfSplitBoundsSquares(x, width);
    MaxOfSplitBoundsSquares(y, height);
    Sq(w) + Sq(h)
  }

  /** For a + b = total >= 0, the larger of a and b has the larger square, and
      that square is the square of one of the two distances to the ends. */
  lemma MaxOfSplitBoundsSquares(a: real, total: real)
    requires total >= 0.0
    ensures Sq(Max(a, total - a)) >= Sq(0.0 - a) && Sq(Max(a, total - a)) >= Sq(total - a)
    ensures Sq(Max(a, total - a)) == Sq(0.0 - a) || Sq(Max(a, total - a)) == Sq(total - a)
  {
    var m := Max(a, total - a);
    if a >= total - a {
      assert Sq(m) == Sq(0.0 - a);
      AbsBoundSquares(total - a, m);
    } else {
      AbsBoundSquares(0.0 - a, m);
    }
  }

  /** -m <= x <= m implies x*x <= m*m. */
  lemma AbsBoundSquares(x: real, m: real)
    requires -m <= x <= m
    ensures Sq(x) <= Sq(m)
  {
    if x >= 0.0 {
      assert x * x <= x * m;
      assert x * m <= m * m;
    } else {
      assert (-x) * (-x) <= (-x) * m;
      assert (-x) * m <= m * m;
    }
  }

  /** The angles of the emit loop `for (d = from; d < 360; d += 45)`. */
  function AnglesFrom(d: nat): (r: seq<int>)
    requires d % 45 == 0 && d <= 360
    ensures |r| == (360 - d) / 45
    ensures forall i :: 0 <= i < |r| ==> r[i] == d + 45 * i
    decreases 360 - d
  {
    if d >= 360 then [] else [d] + AnglesFrom(d + 45)
  }

  /** The eight emit directions, 0, 45, ..., 315 degrees. */
  function EmitAngles(): (r: seq<int>)
    ensures |r| == 8
    ensures forall i :: 0 <= i < 8 ==> r[i] == 45 * i
    ensures forall i, j :: 0 <= i < j < 8 ==> r[i] < r[j]
    ensures forall i :: 0 <= i < 8 ==> 0 <= r[i] < 360 && r[i] % 45 == 0
  {
    AnglesFrom(0)
  }

  datatype EmitPoint = EmitPoint(angle: int, radius: real, alpha: int)

  /** The points drawn by `drawEmitPoints`: one per emit angle, all at the
      animated radius and alpha. */
  function EmitPoints(radius: real, alpha: int): (ps: seq<EmitPoint>)
    ensures |ps| == 8
    ensures forall i :: 0 <= i < 8 ==> ps[i].angle == 45 * i
    ensures forall i :: 0 <= i < 8 ==> ps[i].radius == radius && ps[i].alpha == alpha
  {
    var angles := EmitAngles();
    seq(8, i requires 0 <= i < 8 => EmitPoint(angles[i], radius, alpha))
  }
}
