/** The lane tracker of lane.py: a width-plausibility gate, the car-position formula, and the
    `Lane` record whose age, frame counter, smoothed geometry and throttled display values are
    updated once per frame.

    The tracker is given twice: `LaneState` with the functions `Initial`, `Insane`, `Step` and
    `Run` is the abstract state machine, and the class `Lane` updates its fields in place as the
    source does, each method promising that its new state is the state machine's step from the old. */
module LaneTracking {
  import opened Wrappers
  import opened Geometry

  const MaxAge: int := 50
  const TextChangeAfterFrames: int := 10

  /** A radius of curvature in metres; a straight fit (leading coefficient exactly zero) makes the
      source divide by zero, which numpy turns into infinity. */
  datatype Radius = Metres(m: real) | Infinite

  /** `find_curvature(leftx, rightx, ploty)`: it refits in world units with np.polyfit and applies the
      radius formula; both are floating-point library work, so the estimate is a parameter. */
  type CurvatureFn = (seq<real>, seq<real>, seq<real>) -> Radius

  /** The plausibility gate on the lane width: the gap at index 0 of the samples must lie in
      [290, 800] and the gap at the last index in [490, 700], all bounds inclusive. */
  predicate IsSane(leftX: seq<real>, rightX: seq<real>)
    requires |leftX| > 0 && |rightX| > 0
  {
    var dLower := rightX[0] - leftX[0];
    var dUpper := rightX[|rightX| - 1] - leftX[|leftX| - 1];
    dLower >= 290.0 && dLower <= 800.0 && dUpper >= 490.0 && dUpper <= 700.0
  }

  /** The boundary cases of the gate: every bound is inclusive. A lower gap of 289 or 801, or an
      upper gap of 489 or 701, is always rejected; the smallest gaps 290 and 490 together, and the
      largest gaps 800 and 700 together, are accepted. */
  lemma SanityBoundaries(leftX: seq<real>, rightX: seq<real>)
    requires |leftX| > 0 && |rightX| > 0
    ensures rightX[0] - leftX[0] == 289.0 ==> !IsSane(leftX, rightX)
    ensures rightX[0] - leftX[0] == 801.0 ==> !IsSane(leftX, rightX)
    ensures rightX[|rightX| - 1] - leftX[|leftX| - 1] == 489.0 ==> !IsSane(leftX, rightX)
    ensures rightX[|rightX| - 1] - leftX[|leftX| - 1] == 701.0 ==> !IsSane(leftX, rightX)
    ensures rightX[0] - leftX[0] == 800.0 && rightX[|rightX| - 1] - leftX[|leftX| - 1] == 700.0
            ==> IsSane(leftX, rightX)
    ensures rightX[0] - leftX[0] == 290.0 && rightX[|rightX| - 1] - leftX[|leftX| - 1] == 490.0
            ==> IsSane(leftX, rightX)
  {
  }

  /** Offset of the car from the lane centre in metres: positive when the image centre (the car)
      lies to the right of the lane centre, zero exactly when the two coincide. */
  function RelativeCarPosition(laneCenter: real, imageCenter: real): (r: real)
    ensures r == 0.0 <==> laneCenter == imageCenter
    ensures r > 0.0 <==> imageCenter > laneCenter
    ensures r < 0.0 <==> imageCenter < laneCenter
  {
    // metres per pixel along x: a 3.7 m lane is 700 pixels wide
    (imageCenter - laneCenter) * (3.7 / 700.0)
  }

  /** The points of the lane polygon: the left samples top to bottom, then the right samples bottom
      to top (`np.hstack` of the left points and the `np.flipud` of the right points). */
  function LanePoints(leftX: seq<real>, rightX: seq<real>, plotY: seq<real>): (ps: seq<Point>)
    requires |leftX| == |plotY| && |rightX| == |plotY|
    ensures |ps| == 2 * |plotY|
    ensures forall i {:trigger ps[i]} :: 0 <= i < |ps| ==>
      ps[i] == if i < |plotY| then Point(leftX[i], plotY[i])
               else Point(rightX[2 * |plotY| - 1 - i], plotY[2 * |plotY| - 1 - i])
  {
    var left := Zip(leftX, plotY);
    var zipped := Zip(rightX, plotY);
    var right := Reverse(zipped);
    forall i | 0 <= i < |plotY| ensures right[i] == Point(rightX[|plotY| - 1 - i], plotY[|plotY| - 1 - i]) {
      assert zipped[|plotY| - 1 - i] == Point(rightX[|plotY| - 1 - i], plotY[|plotY| - 1 - i]);
    }
    left + right
  }

  /** The blend weight 0.8^age given to the previous estimate. */
  function BlendWeight(age: nat): real
  {
    Pow(4.0 / 5.0, age)
  }

  /** For every age from 1 on the weight lies strictly between 0 and 1 and strictly decreases with
      the age, so an older estimate is trusted less. */
  lemma BlendWeightDecreasing(age: nat)
    requires age >= 1
    ensures 0.0 < BlendWeight(age) < 1.0
    ensures BlendWeight(age + 1) < BlendWeight(age)
  {
    PowInUnit(4.0 / 5.0, age);
  }

  /** The arguments of one `Lane.update` call. */
  datatype Observation = Observation(
    leftX: seq<real>, rightX: seq<real>, plotY: seq<real>, leftPoly: Poly, rightPoly: Poly)

  /** What `update` needs to run without a numpy error: sample arrays of equal, non-zero length. */
  predicate WellFormed(o: Observation)
  {
    |o.leftX| == |o.plotY| && |o.rightX| == |o.plotY| && |o.plotY| > 0
  }

  predicate SaneObservation(o: Observation)
    requires WellFormed(o)
  {
    IsSane(o.leftX, o.rightX)
  }

  /** The fields of a `Lane`; `None` stands for the source's `None` before the first sane update. */
  datatype LaneState = LaneState(
    age: int,
    frame: int,
    imageCenterX: real,
    points: Option<seq<Point>>,
    leftPoly: Option<Poly>,
    rightPoly: Option<Poly>,
    centerX: Option<real>,
    radius: Option<Radius>,
    relativePosition: Option<real>,
    displayRadius: Option<Radius>,
    displayRelativePosition: Option<real>)

  predicate IsValidState(t: LaneState)
  {
    t.age < MaxAge
  }

  predicate IsUpToDateState(t: LaneState)
  {
    t.age == 1
  }

  predicate Seeded(t: LaneState)
  {
    t.points.Some? && t.leftPoly.Some? && t.rightPoly.Some? && t.centerX.Some? && t.radius.Some?
    && t.relativePosition.Some? && t.displayRadius.Some? && t.displayRelativePosition.Some?
  }

  predicate Unseeded(t: LaneState)
  {
    t.points.None? && t.leftPoly.None? && t.rightPoly.None? && t.centerX.None? && t.radius.None?
    && t.relativePosition.None? && t.displayRadius.None? && t.displayRelativePosition.None?
  }

  /** The tracker's invariant: age in [1, MaxAge], frame in [0, 10), and either every estimate is
      present or none is, the latter only in the untouched initial state. */
  predicate Inv(t: LaneState)
  {
    1 <= t.age <= MaxAge && 0 <= t.frame < TextChangeAfterFrames
    && (Seeded(t) || (Unseeded(t) && t.age == MaxAge && t.frame == 0))
  }

  /** The smoothed points, when present, have the shape of an observation with n samples per side. */
  predicate PointsFit(t: LaneState, n: nat)
  {
    t.points.Some? ==> |t.points.value| == 2 * n
  }

  /** A valid lane has the shape of the observation it will be blended with. */
  predicate Blendable(t: LaneState, o: Observation)
  {
    IsValidState(t) ==> t.points.Some? && |t.points.value| == 2 * |o.plotY|
  }

  /** `Lane(image_shape)` for an image `imageWidth` pixels wide. */
  function Initial(imageWidth: int): (t: LaneState)
    ensures Inv(t) && !IsValidState(t) && !IsUpToDateState(t)
    ensures t.age == MaxAge && t.frame == 0 && Unseeded(t)
    ensures t.imageCenterX * 2.0 == imageWidth as real
  {
    LaneState(MaxAge, 0, imageWidth as real / 2.0, None, None, None, None, None, None, None, None)
  }

  /** The frame counter after an accepted frame: `(frame + 1) % TEXT_CHANGE_AFTER_FRAMES`. */
  function NextFrame(frame: int): (f: int)
    ensures 0 <= f < TextChangeAfterFrames
  {
    (frame + 1) % TextChangeAfterFrames
  }

  /** `update_insane`: the estimate ages by one, capped at MaxAge. */
  function Insane(t: LaneState): LaneState
  {
    t.(age := if t.age + 1 < MaxAge then t.age + 1 else MaxAge)
  }

  /** The first half of the sane branch of `update`: a valid lane blends its points and fits
      toward the observation, an invalid one adopts the observation's. */
  function Refit(t: LaneState, o: Observation): LaneState
    requires Inv(t) && WellFormed(o) && Blendable(t, o)
  {
    var incoming := LanePoints(o.leftX, o.rightX, o.plotY);
    if IsValidState(t) then
      var a := BlendWeight(t.age);
      t.(points := Some(BlendPoints(a, t.points.value, incoming)),
         leftPoly := Some(BlendPoly(a, t.leftPoly.value, o.leftPoly)),
         rightPoly := Some(BlendPoly(a, t.rightPoly.value, o.rightPoly)))
    else
      t.(points := Some(incoming), leftPoly := Some(o.leftPoly), rightPoly := Some(o.rightPoly))
  }

  /** The second half: recompute curvature, centre and offset, refresh the displayed values on
      the first frame of a period, count the frame and mark the lane up to date. */
  function Remeasure(t: LaneState, leftX: seq<real>, rightX: seq<real>, plotY: seq<real>,
                     curvature: CurvatureFn): LaneState
    requires |leftX| == |plotY| && |rightX| == |plotY| && |plotY| > 0
  {
    var n := |plotY|;
    var radius := curvature(leftX, rightX, plotY);
    var centerX := (leftX[n - 1] + rightX[n - 1]) / 2.0;
    var position := RelativeCarPosition(centerX, t.imageCenterX);
    t.(age := 1, frame := NextFrame(t.frame),
       centerX := Some(centerX), radius := Some(radius), relativePosition := Some(position),
       displayRadius := if t.frame == 0 then Some(radius) else t.displayRadius,
       displayRelativePosition := if t.frame == 0 then Some(position) else t.displayRelativePosition)
  }

  /** The sane branch of `update`. */
  function SaneUpdate(t: LaneState, o: Observation, curvature: CurvatureFn): LaneState
    requires Inv(t) && WellFormed(o) && Blendable(t, o)
  {
    Remeasure(Refit(t, o), o.leftX, o.rightX, o.plotY, curvature)
  }

  /** `update(left_plot_x, right_plot_x, plot_y, left_poly, right_poly)` as a state transition. */
  function Step(t: LaneState, o: Observation, curvature: CurvatureFn): (r: LaneState)
    requires Inv(t) && WellFormed(o) && Blendable(t, o)
    ensures Inv(r)
    ensures PointsFit(t, |o.plotY|) ==> PointsFit(r, |o.plotY|)
    ensures r.imageCenterX == t.imageCenterX
  {
    if SaneObservation(o) then SaneUpdate(t, o, curvature) else Insane(t)
  }

  /** A rejected update only ages the estimate: every other field, the geometry and the display
      values included, keeps its value. */
  lemma InsaneUpdateOnlyAges(t: LaneState, o: Observation, curvature: CurvatureFn)
    requires Inv(t) && WellFormed(o) && Blendable(t, o) && !SaneObservation(o)
    ensures Step(t, o, curvature) == Insane(t)
    ensures Step(t, o, curvature) == t.(age := if t.age + 1 < MaxAge then t.age + 1 else MaxAge)
  {
  }

  /** A sane update leaves the lane up to date (age 1), advances the frame counter modulo 10,
      takes the lane centre from the last raw samples (not the blended ones), derives the car
      position from it, and refreshes the display values exactly when the counter was 0. */
  lemma SaneUpdateEffects(t: LaneState, o: Observation, curvature: CurvatureFn)
    requires Inv(t) && WellFormed(o) && Blendable(t, o) && SaneObservation(o)
    ensures var r := Step(t, o, curvature);
      var n := |o.plotY|;
      IsUpToDateState(r) && IsValidState(r) && Seeded(r)
      && r.frame == NextFrame(t.frame)
      && r.centerX == Some((o.leftX[n - 1] + o.rightX[n - 1]) / 2.0)
      && r.radius == Some(curvature(o.leftX, o.rightX, o.plotY))
      && r.relativePosition == Some(RelativeCarPosition(r.centerX.value, t.imageCenterX))
      && (t.frame == 0 ==> r.displayRadius == r.radius && r.displayRelativePosition == r.relativePosition)
      && (t.frame != 0 ==>
            r.displayRadius == t.displayRadius && r.displayRelativePosition == t.displayRelativePosition)
  {
  }

  /** A stale lane adopts a sane observation as it is: no blending. */
  lemma StaleLaneAdopts(t: LaneState, o: Observation, curvature: CurvatureFn)
    requires Inv(t) && WellFormed(o) && Blendable(t, o) && SaneObservation(o) && !IsValidState(t)
    ensures var r := Step(t, o, curvature);
      r.points == Some(LanePoints(o.leftX, o.rightX, o.plotY))
      && r.leftPoly == Some(o.leftPoly) && r.rightPoly == Some(o.rightPoly)
  {
  }

  /** A valid lane blends a sane observation into its estimate with weight a = 0.8^age in (0, 1):
      every coordinate of every point and every coefficient of both quadratics ends up between its
      previous value and the incoming one. */
  lemma ValidLaneBlends(t: LaneState, o: Observation, curvature: CurvatureFn)
    requires Inv(t) && WellFormed(o) && Blendable(t, o) && SaneObservation(o) && IsValidState(t)
    ensures var r := Step(t, o, curvature);
      var a := BlendWeight(t.age);
      var incoming := LanePoints(o.leftX, o.rightX, o.plotY);
      0.0 < a < 1.0
      && r.points == Some(BlendPoints(a, t.points.value, incoming))
      && r.leftPoly == Some(BlendPoly(a, t.leftPoly.value, o.leftPoly))
      && r.rightPoly == Some(BlendPoly(a, t.rightPoly.value, o.rightPoly))
      && (forall i :: 0 <= i < |incoming| ==>
            Between(r.points.value[i].x, t.points.value[i].x, incoming[i].x)
            && Between(r.points.value[i].y, t.points.value[i].y, incoming[i].y))
      && PolyBetween(r.leftPoly.value, t.leftPoly.value, o.leftPoly)
      && PolyBetween(r.rightPoly.value, t.rightPoly.value, o.rightPoly)
  {
    var a := BlendWeight(t.age);
    BlendWeightDecreasing(t.age);
    var incoming := LanePoints(o.leftX, o.rightX, o.plotY);
    var blended := BlendPoints(a, t.points.value, incoming);
    forall i | 0 <= i < |incoming|
      ensures Between(blended[i].x, t.points.value[i].x, incoming[i].x)
      ensures Between(blended[i].y, t.points.value[i].y, incoming[i].y)
    {
      LerpBetween(a, t.points.value[i].x, incoming[i].x);
      LerpBetween(a, t.points.value[i].y, incoming[i].y);
    }
    PolyBlendBetween(a, t.leftPoly.value, o.leftPoly);
    PolyBlendBetween(a, t.rightPoly.value, o.rightPoly);
  }

  predicate PolyBetween(q: Poly, prev: Poly, next: Poly)
  {
    forall i :: 0 <= i < 3 ==> Between(q[i], prev[i], next[i])
  }

  lemma PolyBlendBetween(a: real, prev: Poly, next: Poly)
    requires 0.0 < a < 1.0
    ensures PolyBetween(BlendPoly(a, prev, next), prev, next)
  {
    forall i | 0 <= i < 3 ensures Between(BlendPoly(a, prev, next)[i], prev[i], next[i]) {
      LerpBetween(a, prev[i], next[i]);
    }
  }

  /** Every observation has n samples per side. */
  predicate AllShaped(obs: seq<Observation>, n: nat)
  {
    forall i :: 0 <= i < |obs| ==> WellFormed(obs[i]) && |obs[i].plotY| == n
  }

  /** The state after feeding the observations to `update` in order, as one video does. */
  function Run(t: LaneState, obs: seq<Observation>, n: nat, curvature: CurvatureFn): (r: LaneState)
    requires Inv(t) && PointsFit(t, n) && AllShaped(obs, n)
    ensures Inv(r) && PointsFit(r, n)
    ensures r.imageCenterX == t.imageCenterX
    decreases |obs|
  {
    if obs == [] then t
    else
      var prev := Run(t, obs[..|obs| - 1], n, curvature);
      Step(prev, obs[|obs| - 1], curvature)
  }

  predicate AllInsane(obs: seq<Observation>)
  {
    forall i :: 0 <= i < |obs| ==> WellFormed(obs[i]) && !SaneObservation(obs[i])
  }

  predicate AllSane(obs: seq<Observation>)
  {
    forall i :: 0 <= i < |obs| ==> WellFormed(obs[i]) && SaneObservation(obs[i])
  }

  /** N rejected frames in a row raise the age to min(age + N, MaxAge) and change nothing else. */
  lemma {:induction false} RunInsane(t: LaneState, obs: seq<Observation>, n: nat, curvature: CurvatureFn)
    requires Inv(t) && PointsFit(t, n) && AllShaped(obs, n) && AllInsane(obs)
    ensures Run(t, obs, n, curvature)
         == t.(age := if t.age + |obs| < MaxAge then t.age + |obs| else MaxAge)
    decreases |obs|
  {
    if obs != [] {
      var init := obs[..|obs| - 1];
      assert AllShaped(init, n) && AllInsane(init) by {
        forall i | 0 <= i < |init| ensures init[i] == obs[i] { }
      }
      RunInsane(t, init, n, curvature);
    }
  }

  /** The number of observations among `obs` that pass the gate. */
  function SaneCount(obs: seq<Observation>): (k: nat)
    ensures k <= |obs|
    decreases |obs|
  {
    if obs == [] then 0
    else
      var last := obs[|obs| - 1];
      SaneCount(obs[..|obs| - 1]) + if WellFormed(last) && SaneObservation(last) then 1 else 0
  }

  /** When every observation passes the gate, all of them are counted. */
  lemma {:induction false} SaneCountAllSane(obs: seq<Observation>, n: nat)
    requires AllShaped(obs, n) && AllSane(obs)
    ensures SaneCount(obs) == |obs|
    decreases |obs|
  {
    if obs != [] {
      SanePrefix(obs, n, |obs| - 1);
      SaneCountAllSane(obs[..|obs| - 1], n);
    }
  }

  lemma ShapedPrefix(obs: seq<Observation>, n: nat, j: nat)
    requires AllShaped(obs, n) && j <= |obs|
    ensures AllShaped(obs[..j], n)
  {
    assert forall i :: 0 <= i < j ==> obs[..j][i] == obs[i];
  }

  /** The frame counter after k accepted frames, one `NextFrame` at a time. */
  function FrameAfter(frame: int, k: nat): int
  {
    if k == 0 then frame else NextFrame(FrameAfter(frame, k - 1))
  }

  /** Counting k accepted frames one at a time is adding k modulo 10. */
  lemma {:induction false} FrameAfterIsSum(frame: int, k: nat)
    requires 0 <= frame < TextChangeAfterFrames
    ensures FrameAfter(frame, k) == (frame + k) % TextChangeAfterFrames
  {
    if k > 0 {
      FrameAfterIsSum(frame, k - 1);
      ModSucc(frame + k - 1);
    }
  }

  /** After N accepted frames the frame counter has advanced by N modulo 10 and the lane is up to date. */
  lemma {:induction false} RunSaneFrame(t: LaneState, obs: seq<Observation>, n: nat, curvature: CurvatureFn)
    requires Inv(t) && PointsFit(t, n) && AllShaped(obs, n) && AllSane(obs)
    ensures Run(t, obs, n, curvature).frame == FrameAfter(t.frame, |obs|)
    ensures |obs| > 0 ==> IsUpToDateState(Run(t, obs, n, curvature))
    decreases |obs|
  {
    if obs != [] {
      SanePrefix(obs, n, |obs| - 1);
      RunSaneFrame(t, obs[..|obs| - 1], n, curvature);
      SaneUpdateEffects(Run(t, obs[..|obs| - 1], n, curvature), obs[|obs| - 1], curvature);
    }
  }

  /** In any run, accepted and rejected frames mixed, the counter has advanced once per accepted
      frame: a rejected frame leaves it where it was. */
  lemma {:induction false} RunFrame(t: LaneState, obs: seq<Observation>, n: nat, curvature: CurvatureFn)
    requires Inv(t) && PointsFit(t, n) && AllShaped(obs, n)
    ensures Run(t, obs, n, curvature).frame == FrameAfter(t.frame, SaneCount(obs))
    decreases |obs|
  {
    if obs != [] {
      var init := obs[..|obs| - 1];
      var last := obs[|obs| - 1];
      ShapedPrefix(obs, n, |obs| - 1);
      RunFrame(t, init, n, curvature);
      var prev := Run(t, init, n, curvature);
      if SaneObservation(last) {
        SaneUpdateEffects(prev, last, curvature);
      } else {
        InsaneUpdateOnlyAges(prev, last, curvature);
      }
    }
  }

  lemma SanePrefix(obs: seq<Observation>, n: nat, j: nat)
    requires AllShaped(obs, n) && AllSane(obs) && j <= |obs|
    ensures AllShaped(obs[..j], n) && AllSane(obs[..j])
  {
    assert forall i :: 0 <= i < j ==> obs[..j][i] == obs[i];
  }

  lemma ModSucc(k: nat)
    ensures (k % TextChangeAfterFrames + 1) % TextChangeAfterFrames == (k + 1) % TextChangeAfterFrames
  {
  }

  /** The display values are throttled: in any run, frame j overwrites them with its fresh radius
      and position exactly when it passes the gate and the counter, advanced once per accepted
      frame before it, reads 0 (from a new lane: the 1st, 11th, 21st, ... accepted frame); every
      other frame, rejected or not, keeps them. */
  lemma DisplayThrottled(t: LaneState, obs: seq<Observation>, n: nat, curvature: CurvatureFn, j: nat)
    requires Inv(t) && PointsFit(t, n) && AllShaped(obs, n) && j < |obs|
    ensures AllShaped(obs[..j], n)
    ensures var before := Run(t, obs[..j], n, curvature);
      var after := Step(before, obs[j], curvature);
      var refresh := SaneObservation(obs[j]) && FrameAfter(t.frame, SaneCount(obs[..j])) == 0;
      && (SaneObservation(obs[j]) ==> after.radius == Some(curvature(obs[j].leftX, obs[j].rightX, obs[j].plotY)))
      && (refresh ==>
            after.displayRadius == after.radius && after.displayRelativePosition == after.relativePosition)
      && (!refresh ==>
            after.displayRadius == before.displayRadius
            && after.displayRelativePosition == before.displayRelativePosition)
  {
    ShapedPrefix(obs, n, j);
    RunFrame(t, obs[..j], n, curvature);
    var before := Run(t, obs[..j], n, curvature);
    if SaneObservation(obs[j]) {
      SaneUpdateEffects(before, obs[j], curvature);
    } else {
      InsaneUpdateOnlyAges(before, obs[j], curvature);
    }
  }

  /** The live tracker of lane.py; its fields are the source's attributes. */
  class Lane {
    /** `image_shape`: the frame's height and width. */
    const imageHeight: nat
    const imageWidth: nat
    var age: int
    var frame: int
    const imageCenterX: real
    var points: Option<seq<Point>>
    var leftPoly: Option<Poly>
    var rightPoly: Option<Poly>
    var centerX: Option<real>
    var radius: Option<Radius>
    var relativePosition: Option<real>
    var displayRadius: Option<Radius>
    var displayRelativePosition: Option<real>

    ghost function State(): LaneState
      reads this
    {
      LaneState(age, frame, imageCenterX, points, leftPoly, rightPoly, centerX, radius,
                relativePosition, displayRadius, displayRelativePosition)
    }

    ghost predicate Valid()
      reads this
    {
      Inv(State())
    }

    /** `Lane(image_shape)` for an image of the given height and width. */
    constructor (imageHeight: nat, imageWidth: nat)
      ensures this.imageHeight == imageHeight && this.imageWidth == imageWidth
      ensures Valid() && State() == Initial(imageWidth)
      ensures !IsValid() && !IsUpToDate()
    {
      this.imageHeight, this.imageWidth := imageHeight, imageWidth;
      age := MaxAge;
      frame := 0;
      imageCenterX := imageWidth as real / 2.0;
      points, leftPoly, rightPoly := None, None, None;
      centerX, radius, relativePosition := None, None, None;
      displayRadius, displayRelativePosition := None, None;
    }

    /** `is_up_to_date`: a lane updated by the latest frame is in particular valid. */
    predicate IsUpToDate()
      reads this
      ensures IsUpToDate() <==> IsUpToDateState(State())
      ensures IsUpToDate() ==> IsValid()
    {
      age == 1
    }

    /** `is_valid`: the guard of the renderer; a valid lane has every estimate it draws. */
    predicate IsValid()
      reads this
      ensures IsValid() <==> IsValidState(State())
      ensures Valid() && IsValid() ==> points.Some? && displayRadius.Some? && displayRelativePosition.Some?
    {
      age < MaxAge
    }

    /** `update`: gate, then adopt or blend, recompute the measurements, count the frame. */
    method Update(leftX: seq<real>, rightX: seq<real>, plotY: seq<real>, newLeftPoly: Poly,
                  newRightPoly: Poly, curvature: CurvatureFn)
      requires Valid()
      requires |leftX| == |plotY| && |rightX| == |plotY| && |plotY| > 0
      requires IsValid() ==> points.Some? && |points.value| == 2 * |plotY|
      modifies this
      ensures Valid()
      ensures State() == Step(old(State()),
                Observation(leftX, rightX, plotY, newLeftPoly, newRightPoly), curvature)
    {
      if IsSane(leftX, rightX) {
        UpdateSane(leftX, rightX, plotY, newLeftPoly, newRightPoly, curvature);
      } else {
        UpdateInsane();
      }
    }

    /** The sane branch of `update`: adopt or blend the fit, then recompute the measurements. */
    method UpdateSane(leftX: seq<real>, rightX: seq<real>, plotY: seq<real>, newLeftPoly: Poly,
                      newRightPoly: Poly, curvature: CurvatureFn)
      requires Valid()
      requires |leftX| == |plotY| && |rightX| == |plotY| && |plotY| > 0 && IsSane(leftX, rightX)
      requires IsValid() ==> points.Some? && |points.value| == 2 * |plotY|
      modifies this
      ensures Valid()
      ensures State() == SaneUpdate(old(State()),
                Observation(leftX, rightX, plotY, newLeftPoly, newRightPoly), curvature)
    {
      RefitPolys(leftX, rightX, plotY, newLeftPoly, newRightPoly);
      Measure(leftX, rightX, plotY, curvature);
    }

    /** Blend the stored points and fits toward the observation, or adopt the observation's. This
        is only the first half of a sane `update`: on a pristine lane it leaves the points set but
        the centre unset, outside `Valid()`, until `Measure` follows. */
    method RefitPolys(leftX: seq<real>, rightX: seq<real>, plotY: seq<real>, newLeftPoly: Poly,
                      newRightPoly: Poly)
      requires Valid()
      requires |leftX| == |plotY| && |rightX| == |plotY| && |plotY| > 0
      requires IsValid() ==> points.Some? && |points.value| == 2 * |plotY|
      modifies this
      ensures State() == Refit(old(State()),
                Observation(leftX, rightX, plotY, newLeftPoly, newRightPoly))
    {
      var incoming := LanePoints(leftX, rightX, plotY);
      if IsValid() {
        var a := BlendWeight(age);
        points := Some(BlendPoints(a, points.value, incoming));
        leftPoly := Some(BlendPoly(a, leftPoly.value, newLeftPoly));
        rightPoly := Some(BlendPoly(a, rightPoly.value, newRightPoly));
      } else {
        points := Some(incoming);
        leftPoly := Some(newLeftPoly);
        rightPoly := Some(newRightPoly);
      }
    }

    /** Recompute curvature, centre and offset, refresh the display, count the frame. */
    method Measure(leftX: seq<real>, rightX: seq<real>, plotY: seq<real>, curvature: CurvatureFn)
      requires |leftX| == |plotY| && |rightX| == |plotY| && |plotY| > 0
      modifies this
      ensures State() == Remeasure(old(State()), leftX, rightX, plotY, curvature)
    {
      radius := Some(curvature(leftX, rightX, plotY));
      centerX := Some((leftX[|leftX| - 1] + rightX[|rightX| - 1]) / 2.0);
      relativePosition := Some(RelativeCarPosition(centerX.value, imageCenterX));
      if frame == 0 {
        displayRadius := radius;
        displayRelativePosition := relativePosition;
      }
      frame := NextFrame(frame);
      age := 1;
    }

    /** `update_insane`: age by one, capped at MaxAge; nothing else changes. */
    method UpdateInsane()
      requires Valid()
      modifies this
      ensures Valid()
      ensures State() == Insane(old(State()))
      ensures age == if old(age) + 1 < MaxAge then old(age) + 1 else MaxAge
    {
      age := if age + 1 < MaxAge then age + 1 else MaxAge;
    }
  }
}
