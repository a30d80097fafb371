/**
 * The gesture recorder of CanvasControl: a list of strokes, each an ordered
 * list of pointer positions, and an optional current stroke that is the
 * last entry of that list. Mouse-down starts a stroke, mouse-move extends
 * the current one, mouse-up ends it; painting draws every stroke as the
 * segments between its consecutive points.
 *
 * The reference `_currentStroke`, which aliases the last element of
 * `_strokes`, is represented by the index of that element.
 */
module Gestures {
  import opened Options

  /** An SKPoint; the recorder never computes with its coordinates. */
  datatype Point = Point(x: real, y: real)

  /** One `DrawLine(from, to)` of the paint handler. */
  datatype Segment = Segment(from: Point, to: Point)

  /** A mouse event, with the state of the left button and the pointer position it carries. */
  datatype Event =
    | MouseDown(leftPressed: bool, at: Point)
    | MouseMove(leftPressed: bool, at: Point)
    | MouseUp

  /** The recorder's state: `_strokes` and the index `_currentStroke` refers to. */
  datatype Recorder = Recorder(strokes: seq<seq<Point>>, current: Option<nat>)

  /** The state of a freshly constructed control. */
  const Idle := Recorder([], None)

  /**
   * The recorder's invariant: a current stroke is always the last recorded
   * one, and every recorded stroke holds at least its starting point.
   */
  predicate WellFormed(r: Recorder) {
    && (r.current.Some? ==> r.current.value == |r.strokes| - 1)
    && forall i :: 0 <= i < |r.strokes| ==> |r.strokes[i]| >= 1
  }

  /** True of exactly the events that begin a new stroke. */
  predicate StartsStroke(e: Event) {
    e.MouseDown? && e.leftPressed
  }

  /** The effect of one event on the recorder. */
  function Apply(r: Recorder, e: Event): (r': Recorder)
    requires WellFormed(r)
    ensures WellFormed(r')
    ensures |r'.strokes| == |r.strokes| + (if StartsStroke(e) then 1 else 0)
    ensures forall i :: 0 <= i < |r.strokes| ==> r.strokes[i] <= r'.strokes[i]
    ensures forall i :: 0 <= i < |r.strokes| - 1 ==> r'.strokes[i] == r.strokes[i]
  {
    match e
    case MouseDown(pressed, p) =>
      if pressed then Recorder(r.strokes + [[p]], Some(|r.strokes|)) else r
    case MouseMove(pressed, p) =>
      if r.current.None? || !pressed then r
      else
        var k := r.current.value;
        Recorder(r.strokes[k := r.strokes[k] + [p]], r.current)
    case MouseUp =>
      if r.current.Some? then Recorder(r.strokes, None) else r
  }

  /** The state reached from `r` by handling `es` in order. */
  function Replay(r: Recorder, es: seq<Event>): (r': Recorder)
    requires WellFormed(r)
    ensures WellFormed(r')
    decreases |es|
  {
    if es == [] then r else Replay(Apply(r, es[0]), es[1..])
  }

  /** The number of events in `es` that begin a stroke. */
  function AcceptedDowns(es: seq<Event>): nat
    decreases |es|
  {
    if es == [] then 0 else (if StartsStroke(es[0]) then 1 else 0) + AcceptedDowns(es[1..])
  }

  /** Replaying events adds exactly one stroke per mouse-down with the left button pressed. */
  lemma {:induction false} ReplayStrokeCount(r: Recorder, es: seq<Event>)
    requires WellFormed(r)
    ensures |Replay(r, es).strokes| == |r.strokes| + AcceptedDowns(es)
    decreases |es|
  {
    if es != [] {
      ReplayStrokeCount(Apply(r, es[0]), es[1..]);
    }
  }

  /** From a new control, the number of strokes is the number of accepted mouse-downs. */
  lemma StrokeCountFromIdle(es: seq<Event>)
    ensures |Replay(Idle, es).strokes| == AcceptedDowns(es)
  {
    ReplayStrokeCount(Idle, es);
  }

  /**
   * Strokes are only ever appended, points only ever appended to a stroke,
   * and only the last stroke can still grow.
   */
  lemma {:induction false} ReplayOnlyAppends(r: Recorder, es: seq<Event>)
    requires WellFormed(r)
    ensures |r.strokes| <= |Replay(r, es).strokes|
    ensures forall i :: 0 <= i < |r.strokes| ==> r.strokes[i] <= Replay(r, es).strokes[i]
    ensures forall i :: 0 <= i < |r.strokes| - 1 ==> Replay(r, es).strokes[i] == r.strokes[i]
    decreases |es|
  {
    if es != [] {
      var r1 := Apply(r, es[0]);
      ReplayOnlyAppends(r1, es[1..]);
    }
  }

  /** Mouse-up ends the gesture without touching any recorded stroke, and a second one changes nothing. */
  lemma MouseUpIdempotent(r: Recorder)
    requires WellFormed(r)
    ensures Apply(r, MouseUp).strokes == r.strokes
    ensures Apply(r, MouseUp).current == None
    ensures Apply(Apply(r, MouseUp), MouseUp) == Apply(r, MouseUp)
  {
  }

  /** The segments of one stroke: one per pair of consecutive points, in order. */
  function StrokeSegments(s: seq<Point>): seq<Segment>
    decreases |s|
  {
    if |s| < 2 then [] else StrokeSegments(s[..|s| - 1]) + [Segment(s[|s| - 2], s[|s| - 1])]
  }

  /** A stroke of n >= 1 points yields n - 1 segments, the i-th joining points i and i + 1. */
  lemma {:induction false} StrokeSegmentsAt(s: seq<Point>)
    ensures |StrokeSegments(s)| == if s == [] then 0 else |s| - 1
    ensures forall i :: 0 <= i < |s| - 1 ==> StrokeSegments(s)[i] == Segment(s[i], s[i + 1])
    decreases |s|
  {
    if |s| >= 2 {
      var init := s[..|s| - 1];
      StrokeSegmentsAt(init);
      forall i | 0 <= i < |s| - 1
        ensures StrokeSegments(s)[i] == Segment(s[i], s[i + 1])
      {
        if i < |s| - 2 {
          assert StrokeSegments(s)[i] == StrokeSegments(init)[i];
          assert init[i] == s[i] && init[i + 1] == s[i + 1];
        }
      }
    }
  }

  /** Appending a point to a non-empty stroke adds exactly the segment from its old last point. */
  lemma ExtendStrokeSegments(s: seq<Point>, p: Point)
    requires s != []
    ensures StrokeSegments(s + [p]) == StrokeSegments(s) + [Segment(s[|s| - 1], p)]
  {
    assert (s + [p])[..|s|] == s;
  }

  /** Everything the paint handler draws: the segments of each stroke, strokes in list order. */
  function AllSegments(ss: seq<seq<Point>>): seq<Segment>
    decreases |ss|
  {
    if ss == [] then [] else AllSegments(ss[..|ss| - 1]) + StrokeSegments(ss[|ss| - 1])
  }

  /** The drawing of two lists of strokes is the drawing of the first followed by that of the second. */
  lemma {:induction false} AllSegmentsAppend(a: seq<seq<Point>>, b: seq<seq<Point>>)
    ensures AllSegments(a + b) == AllSegments(a) + AllSegments(b)
    decreases |b|
  {
    if b != [] {
      var b' := b[..|b| - 1];
      assert (a + b)[..|a + b| - 1] == a + b';
      AllSegmentsAppend(a, b');
    } else {
      assert a + b == a;
    }
  }

  /** The total number of recorded points. */
  function PointCount(ss: seq<seq<Point>>): nat
    decreases |ss|
  {
    if ss == [] then 0 else PointCount(ss[..|ss| - 1]) + |ss[|ss| - 1]|
  }

  /** With every stroke non-empty, painting draws one segment fewer per stroke than it has points. */
  lemma {:induction false} AllSegmentsCount(ss: seq<seq<Point>>)
    requires forall i :: 0 <= i < |ss| ==> |ss[i]| >= 1
    ensures |AllSegments(ss)| == PointCount(ss) - |ss|
    decreases |ss|
  {
    if ss != [] {
      AllSegmentsCount(ss[..|ss| - 1]);
      StrokeSegmentsAt(ss[|ss| - 1]);
    }
  }

  /** A mouse-down that starts a stroke draws nothing new: a one-point stroke has no segment. */
  lemma MouseDownAddsNoSegment(r: Recorder, p: Point)
    requires WellFormed(r)
    ensures AllSegments(Apply(r, MouseDown(true, p)).strokes) == AllSegments(r.strokes)
  {
    AllSegmentsAppend(r.strokes, [[p]]);
    assert AllSegments([[p]]) == AllSegments([]) + StrokeSegments([p]);
  }

  /** A mouse-move that is accepted adds exactly one segment, from the last recorded point to the new one. */
  lemma MouseMoveAddsOneSegment(r: Recorder, p: Point)
    requires WellFormed(r) && r.current.Some?
    ensures var last := r.strokes[|r.strokes| - 1];
      AllSegments(Apply(r, MouseMove(true, p)).strokes) == AllSegments(r.strokes) + [Segment(last[|last| - 1], p)]
  {
    var n := |r.strokes|;
    var last := r.strokes[n - 1];
    var after := Apply(r, MouseMove(true, p)).strokes;
    assert after[..n - 1] == r.strokes[..n - 1];
    assert after[n - 1] == last + [p];
    ExtendStrokeSegments(last, p);
  }

  /** CanvasControl with the fields `_strokes` and `_currentStroke`. */
  class CanvasControl {
    var strokes: seq<seq<Point>>
    var current: Option<nat>

    function Model(): Recorder
      reads this
    {
      Recorder(strokes, current)
    }

    predicate Valid()
      reads this
    {
      WellFormed(Model())
    }

    constructor ()
      ensures Valid() && Model() == Idle
    {
      strokes := [];
      current := None;
    }

    /** Starts a one-point stroke at `p` when the left button is pressed. */
    method OnMouseDown(leftPressed: bool, p: Point)
      requires Valid()
      modifies this
      ensures Valid() && Model() == Apply(old(Model()), MouseDown(leftPressed, p))
      ensures leftPressed ==> strokes == old(strokes) + [[p]] && current == Some(|old(strokes)|)
      ensures !leftPressed ==> strokes == old(strokes) && current == old(current)
    {
      if leftPressed {
        strokes := strokes + [[p]];
        current := Some(|strokes| - 1);
      }
    }

    /** Appends `p` to the current stroke, which is the last recorded one, while the left button is held. */
    method OnMouseMove(leftPressed: bool, p: Point)
      requires Valid()
      modifies this
      ensures Valid() && Model() == Apply(old(Model()), MouseMove(leftPressed, p))
      ensures current == old(current) && |strokes| == |old(strokes)|
      ensures old(current).None? || !leftPressed ==> strokes == old(strokes)
      ensures old(current).Some? && leftPressed ==>
        && strokes[..|strokes| - 1] == old(strokes)[..|strokes| - 1]
        && strokes[|strokes| - 1] == old(strokes)[|strokes| - 1] + [p]
    {
      if current.None? || !leftPressed {
        return;
      }
      var k := current.value;
      strokes := strokes[k := strokes[k] + [p]];
    }

    /** Ends the gesture; the recorded strokes stay as they are. */
    method OnMouseUp()
      requires Valid()
      modifies this
      ensures Valid() && Model() == Apply(old(Model()), MouseUp)
      ensures strokes == old(strokes) && current == None
    {
      if current.Some? {
        current := None;
      }
    }

    /** The lines the paint handler draws, in drawing order. */
    method OnPaintSurface() returns (segments: seq<Segment>)
      ensures segments == AllSegments(strokes)
    {
      segments := [];
      var k := 0;
      while k < |strokes|
        invariant 0 <= k <= |strokes|
        invariant segments == AllSegments(strokes[..k])
      {
        var stroke := strokes[k];
        var i := 1;
        while i < |stroke|
          invariant 1 <= i && (stroke != [] ==> i <= |stroke|)
          invariant segments == AllSegments(strokes[..k]) + StrokeSegments(stroke[..if stroke == [] then 0 else i])
        {
          assert stroke[..i + 1][..i] == stroke[..i];
          segments := segments + [Segment(stroke[i - 1], stroke[i])];
          i := i + 1;
        }
        assert stroke[..if stroke == [] then 0 else i] == stroke;
        assert strokes[..k + 1][..k] == strokes[..k];
        k := k + 1;
      }
      assert strokes[..k] == strokes;
    }
  }
}
