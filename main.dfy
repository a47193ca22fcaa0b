/** The per-frame pipeline of `main.py`: the output file name of a processed video, and the
    dispatch of one frame's lane search to the tracker. */
module Pipeline {
  import opened Wrappers
  import opened Geometry
  import opened LaneTracking
  import opened LaneFinding

  // ---------------------------------------------------------------------------------------
  // `str.split('.')` and `'.'.join(...)`
  // ---------------------------------------------------------------------------------------

  /** The index of the first '.' at or after `i`, or |s| when there is none. */
  function DotFrom(s: string, i: nat): (k: nat)
    requires i <= |s|
    ensures i <= k <= |s|
    ensures forall j :: i <= j < k ==> s[j] != '.'
    ensures k < |s| ==> s[k] == '.'
    decreases |s| - i
  {
    if i == |s| then i
    else if s[i] == '.' then i
    else DotFrom(s, i + 1)
  }

  /** The index of the first '.', or |s| when there is none. */
  function FirstDot(s: string): (k: nat)
    ensures k <= |s|
    ensures k == |s| <==> '.' !in s
  {
    DotFrom(s, 0)
  }

  /** `s[i..].split('.')`: the dot-free pieces of `s[i..]` between its dots. */
  function SplitFrom(s: string, i: nat): (parts: seq<string>)
    requires i <= |s|
    ensures |parts| >= 1
    decreases |s| - i
  {
    var k := DotFrom(s, i);
    if k == |s| then [s[i..]] else [s[i..k]] + SplitFrom(s, k + 1)
  }

  /** `s.split('.')`. */
  function Split(s: string): (parts: seq<string>)
    ensures |parts| >= 1
  {
    SplitFrom(s, 0)
  }

  /** `'.'.join(parts)`. */
  function Join(parts: seq<string>): string
  {
    if |parts| == 0 then ""
    else if |parts| == 1 then parts[0]
    else parts[0] + "." + Join(parts[1..])
  }

  lemma JoinCons(p: string, rest: seq<string>)
    requires |rest| >= 1
    ensures Join([p] + rest) == p + "." + Join(rest)
  {
    assert ([p] + rest)[1..] == rest;
  }

  /** No piece of a split contains a dot. */
  lemma {:induction false} SplitDotFree(s: string, i: nat)
    requires i <= |s|
    ensures forall p :: p in SplitFrom(s, i) ==> '.' !in p
    decreases |s| - i
  {
    var k := DotFrom(s, i);
    if k < |s| {
      SplitDotFree(s, k + 1);
    }
    assert '.' !in s[i..k] by {
      forall c | c in s[i..k] ensures c != '.' {
        var j :| 0 <= j < k - i && s[i..k][j] == c;
        assert s[i + j] == c;
      }
    }
  }

  /** Joining the pieces of a split gives the text back. */
  lemma {:induction false} JoinSplitFrom(s: string, i: nat)
    requires i <= |s|
    ensures Join(SplitFrom(s, i)) == s[i..]
    decreases |s| - i
  {
    var k := DotFrom(s, i);
    if k < |s| {
      var rest := SplitFrom(s, k + 1);
      calc {
        Join(SplitFrom(s, i));
        { assert SplitFrom(s, i) == [s[i..k]] + rest; }
        Join([s[i..k]] + rest);
        { JoinCons(s[i..k], rest); }
        s[i..k] + "." + Join(rest);
        { JoinSplitFrom(s, k + 1); }
        s[i..k] + "." + s[k + 1..];
        { assert s[i..] == s[i..k] + [s[k]] + s[k + 1..]; }
        s[i..];
      }
    } else {
      assert SplitFrom(s, i) == [s[i..]];
    }
  }

  /** `'.'.join(s.split('.')) == s`. */
  lemma JoinSplit(s: string)
    ensures Join(Split(s)) == s
  {
    JoinSplitFrom(s, 0);
  }

  /** `get_out_file_name`: `_out` appended to the first dot-separated piece. */
  function OutFileName(fileName: string): string
  {
    var parts := Split(fileName);
    Join([parts[0] + "_out"] + parts[1..])
  }

  /** The name with `_out` inserted before its first dot, or at its end when it has none. */
  lemma OutFileNameInserts(fileName: string)
    ensures OutFileName(fileName)
         == fileName[..FirstDot(fileName)] + "_out" + fileName[FirstDot(fileName)..]
  {
    var k := FirstDot(fileName);
    var parts := Split(fileName);
    if k < |fileName| {
      JoinSplitFrom(fileName, k + 1);
      assert parts[1..] == SplitFrom(fileName, k + 1);
      JoinCons(parts[0] + "_out", SplitFrom(fileName, k + 1));
      assert fileName[k..] == [fileName[k]] + fileName[k + 1..];
    } else {
      assert fileName[..k] == fileName;
    }
  }

  /** The result is 4 characters longer than the name, keeps everything from the first dot on,
      and is the name followed by `_out` when the name has no dot. */
  lemma OutFileNameShape(fileName: string)
    ensures |OutFileName(fileName)| == |fileName| + 4
    ensures OutFileName(fileName)[..FirstDot(fileName)] == fileName[..FirstDot(fileName)]
    ensures OutFileName(fileName)[FirstDot(fileName) + 4..] == fileName[FirstDot(fileName)..]
    ensures '.' !in fileName ==> OutFileName(fileName) == fileName + "_out"
  {
    OutFileNameInserts(fileName);
    var k := FirstDot(fileName);
    var out := OutFileName(fileName);
    assert out == (fileName[..k] + "_out") + fileName[k..];
    assert k == |fileName| ==> fileName[..k] == fileName && fileName[k..] == "";
  }

  // ---------------------------------------------------------------------------------------
  // `process_image`
  // ---------------------------------------------------------------------------------------

  /** The outputs of a search line up as the tracker expects: 30 samples per side. */
  predicate Shaped(r: Result<SearchOutput, SearchError>)
  {
    r.Success? ==>
      |r.value.plotY| == SampleCount && |r.value.leftFitX| == SampleCount
      && |r.value.rightFitX| == SampleCount
  }

  /** The observation `update` receives from a successful search: left samples, right samples,
      sample rows, left fit, right fit. */
  function Observe(out: SearchOutput): Observation
  {
    Observation(out.leftFitX, out.rightFitX, out.plotY, out.leftFit, out.rightFit)
  }

  /** The `try`/`except` of `process_image` as a state transition: a successful search is passed
      to `update`, a failed one becomes one `update_insane`. */
  function Dispatch(t: LaneState, r: Result<SearchOutput, SearchError>, curvature: CurvatureFn)
    : (next: LaneState)
    requires Inv(t) && PointsFit(t, SampleCount) && Shaped(r)
    ensures Inv(next) && PointsFit(next, SampleCount)
    ensures next.imageCenterX == t.imageCenterX
  {
    match r
    case Success(out) => Step(t, Observe(out), curvature)
    case Failure(_) => Insane(t)
  }

  /** A failed search ages the lane by exactly one step, capped at MaxAge, and changes nothing
      else; in particular it never makes a stale lane valid. */
  lemma FailureOnlyAges(t: LaneState, e: SearchError, curvature: CurvatureFn)
    requires Inv(t) && PointsFit(t, SampleCount)
    ensures Dispatch(t, Failure(e), curvature)
         == t.(age := if t.age + 1 < MaxAge then t.age + 1 else MaxAge)
    ensures !IsValidState(t) ==> !IsValidState(Dispatch(t, Failure(e), curvature))
  {
  }

  /** An all-zero mask at least 2 columns wide ages the lane by exactly one step, capped at
      MaxAge, and changes nothing else. */
  lemma ZeroMaskAges(t: LaneState, mask: seq<seq<bool>>, width: nat, fit: FitFn, curvature: CurvatureFn)
    requires Inv(t) && PointsFit(t, SampleCount) && IsGrid(mask, width) && width >= 2
    requires forall y, x :: 0 <= y < |mask| && 0 <= x < |mask[y]| ==> !mask[y][x]
    ensures Shaped(Search(mask, width, fit))
    ensures Dispatch(t, Search(mask, width, fit), curvature)
         == t.(age := if t.age + 1 < MaxAge then t.age + 1 else MaxAge)
  {
    ZeroMaskFails(mask, width, fit);
    FailureOnlyAges(t, NoGoodData, curvature);
  }

  /** A successful search whose samples pass the sanity check leaves the lane up to date, with
      the raw samples' centre as its centre. */
  lemma SaneSuccessRefreshes(t: LaneState, out: SearchOutput, curvature: CurvatureFn)
    requires Inv(t) && PointsFit(t, SampleCount) && Shaped(Success(out))
    requires IsSane(out.leftFitX, out.rightFitX)
    ensures IsUpToDateState(Dispatch(t, Success(out), curvature))
    ensures Dispatch(t, Success(out), curvature).centerX
         == Some((out.leftFitX[SampleCount - 1] + out.rightFitX[SampleCount - 1]) / 2.0)
  {
    SaneUpdateEffects(t, Observe(out), curvature);
  }

  /** Every search the pipeline runs has the shape the tracker expects. */
  lemma SearchShaped(mask: seq<seq<bool>>, width: nat, fit: FitFn)
    requires IsGrid(mask, width)
    ensures Shaped(Search(mask, width, fit))
  {
    if Search(mask, width, fit).Success? {
      SearchSuccess(mask, width, fit);
    }
  }

  /** `process_image` on a frame whose thresholded, warped mask is given: create a lane when
      none is passed, search the mask, and update the lane with the outcome. The warp keeps the
      frame's size (camera.py:105), so a new lane takes the mask's height and width as the frame's
      shape. */
  method ProcessImage(lane: Lane?, mask: seq<seq<bool>>, width: nat, fit: FitFn, curvature: CurvatureFn)
    returns (l: Lane)
    requires IsGrid(mask, width)
    requires lane != null ==> lane.Valid() && PointsFit(lane.State(), SampleCount)
    modifies lane
    ensures lane != null ==> l == lane
    ensures lane == null ==> fresh(l) && l.imageHeight == |mask| && l.imageWidth == width
    ensures l.Valid() && PointsFit(l.State(), SampleCount)
    ensures Shaped(Search(mask, width, fit))
    ensures lane != null ==> l.State() == Dispatch(old(lane.State()), Search(mask, width, fit), curvature)
    ensures lane == null ==> l.State() == Dispatch(Initial(width), Search(mask, width, fit), curvature)
  {
    if lane == null {
      l := new Lane(|mask|, width);
    } else {
      l := lane;
    }
    SearchShaped(mask, width, fit);
    var r := FindLanePolynomials(mask, width, fit);
    match r {
      case Success(out) =>
        l.Update(out.leftFitX, out.rightFitX, out.plotY, out.leftFit, out.rightFit, curvature);
      case Failure(_) =>
        l.UpdateInsane();
    }
  }
}
