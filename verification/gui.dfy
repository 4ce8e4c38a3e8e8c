/**
 * The gesture-controlled main menu of gui.py: one LAUNCH button in the middle
 * of the camera view, a fading trail behind the index fingertip, and an
 * activation rule that fires when the thumb and index finger pinch, the
 * activation cooldown has run out, and the fingertip is inside the button.
 * Rendering is left out; what stays is the geometry, the clamps, the trail
 * buffer and the activation state. Time is an explicit `now` in integer
 * milliseconds.
 */
module Gui {
  import opened Basics

  /** The trail keeps at most this many points. */
  const TrailMaxLen := 18
  /** Minimum time between two activations, strictly exceeded (0.45 s). */
  const ActivationCooldownMs := 450
  /** Thumb-index distance below which the hand is pinching, in pixels. */
  const PinchThreshold := 40
  /** MediaPipe reports 21 landmarks per hand. */
  const LandmarkCount := 21

  const ThumbTip := 4
  const IndexTip := 8

  // ---------------------------------------------------------------------------
  // Pure helpers

  /** lerp: the point a fraction `t` of the way from `a` to `b`. */
  function Lerp(a: real, b: real, t: real): (r: real)
    ensures t == 0.0 ==> r == a
    ensures t == 1.0 ==> r == b
  {
    a + (b - a) * t
  }

  /** For a fraction in [0, 1] the interpolated value lies between the ends. */
  lemma LerpBetween(a: real, b: real, t: real)
    requires 0.0 <= t <= 1.0 && a <= b
    ensures a <= Lerp(a, b, t) <= b
  {
    var k := b - a;
    assert k * t >= 0.0;
    assert k * (1.0 - t) >= 0.0;
    assert k * t == k - k * (1.0 - t);
  }

  /** The hover glow of the button for a fingertip at distance `d` from its centre. */
  function Hover(d: real): (v: real)
    ensures 0.0 <= v <= 1.0
    ensures d <= 60.0 ==> v == 1.0
    ensures d >= 260.0 ==> v == 0.0
  {
    var raw := (260.0 - d) / 200.0;
    if 0.0 > (if 1.0 < raw then 1.0 else raw) then 0.0
    else if 1.0 < raw then 1.0 else raw
  }

  /** Moving the fingertip away from the button never brightens it. */
  lemma HoverNonIncreasing(d1: real, d2: real)
    requires d1 <= d2
    ensures Hover(d2) <= Hover(d1)
  {
    assert (260.0 - d2) / 200.0 <= (260.0 - d1) / 200.0;
  }

  /** The cursor ring radius int(max(8, min(45, 80 - d))). */
  function RingRadius(d: real): (r: int)
    ensures 8 <= r <= 45
    ensures 35.0 <= d <= 72.0 ==> r == Trunc(80.0 - d)
  {
    var m := if 45.0 < 80.0 - d then 45.0 else 80.0 - d;
    Trunc(if 8.0 > m then 8.0 else m)
  }

  // ---------------------------------------------------------------------------
  // The button

  datatype Rect = Rect(x1: int, y1: int, x2: int, y2: int)

  /** Centre of the button: (w // 2, int(h * 0.57)). */
  function ButtonCenter(w: int, h: int): Point
  {
    Point(w / 2, Trunc(h as real * 0.57))
  }

  /** The LAUNCH rectangle for a frame of `w` by `h` pixels. */
  function LaunchButton(w: int, h: int): (r: Rect)
    ensures var c := ButtonCenter(w, h);
      w >= 0 && h >= 0 ==> r.x1 <= c.x <= r.x2 && r.y1 <= c.y <= r.y2
    ensures r.x2 - r.x1 == 2 * (Trunc(w as real * 0.32) / 2)
    ensures r.y2 - r.y1 == 2 * (Trunc(h as real * 0.12) / 2)
  {
    var c := ButtonCenter(w, h);
    var bw := Trunc(w as real * 0.32);
    var bh := Trunc(h as real * 0.12);
    Rect(c.x - bw / 2, c.y - bh / 2, c.x + bw / 2, c.y + bh / 2)
  }

  /** The strict hit test bx1 < x < bx2 and by1 < y < by2. */
  predicate Inside(r: Rect, p: Point)
  {
    r.x1 < p.x < r.x2 && r.y1 < p.y < r.y2
  }

  /** The border of the button does not count as a hit. */
  lemma BorderIsOutside(w: int, h: int, p: Point)
    requires var r := LaunchButton(w, h); p.x == r.x1 || p.x == r.x2 || p.y == r.y1 || p.y == r.y2
    ensures !Inside(LaunchButton(w, h), p)
  {
  }

  // ---------------------------------------------------------------------------
  // The trail

  /** A trail entry: fingertip position and capture time. */
  datatype TrailPoint = TrailPoint(x: int, y: int, time: int)

  /** appendleft, then pop from the right while the deque is over its length. */
  function TrailPush(trail: seq<TrailPoint>, p: TrailPoint): (t: seq<TrailPoint>)
    ensures |trail| <= TrailMaxLen ==> |t| <= TrailMaxLen
    ensures t != [] && t[0] == p
    ensures |t| == if |trail| + 1 > TrailMaxLen then TrailMaxLen else |trail| + 1
    ensures forall i :: 0 < i < |t| ==> t[i] == trail[i - 1]
  {
    var pushed := [p] + trail;
    if |pushed| > TrailMaxLen then pushed[..TrailMaxLen] else pushed
  }

  function Reverse<T>(s: seq<T>): (r: seq<T>)
    ensures |r| == |s|
    ensures forall i :: 0 <= i < |s| ==> r[i] == s[|s| - 1 - i]
  {
    if s == [] then [] else Reverse(s[1..]) + [s[0]]
  }

  /** The trail after pushing `ps` in order, oldest first. */
  function TrailAfter(trail: seq<TrailPoint>, ps: seq<TrailPoint>): seq<TrailPoint>
    decreases |ps|
  {
    if ps == [] then trail else TrailPush(TrailAfter(trail, ps[..|ps| - 1]), ps[|ps| - 1])
  }

  /** The `n` most recent of the pushed points `ps`, newest first. */
  function Newest(ps: seq<TrailPoint>): (r: seq<TrailPoint>)
    ensures |r| == if |ps| > TrailMaxLen then TrailMaxLen else |ps|
    ensures forall i :: 0 <= i < |r| ==> r[i] == ps[|ps| - 1 - i]
  {
    var rev := Reverse(ps);
    if |rev| > TrailMaxLen then rev[..TrailMaxLen] else rev
  }

  /**
   * From an empty deque the trail is always the most recent points, newest
   * first, at most 18 of them: entry i was pushed i frames before the front.
   */
  lemma {:induction false} TrailKeepsNewest(ps: seq<TrailPoint>)
    ensures TrailAfter([], ps) == Newest(ps)
    decreases |ps|
  {
    if ps != [] {
      var init := ps[..|ps| - 1];
      TrailKeepsNewest(init);
      var t := TrailAfter([], ps);
      var n := Newest(ps);
      assert t == TrailPush(Newest(init), ps[|ps| - 1]);
      assert |t| == |n|;
      forall i | 0 <= i < |t|
        ensures t[i] == n[i]
      {
        if i > 0 {
          assert t[i] == Newest(init)[i - 1] == init[|init| - i];
        }
      }
    }
  }

  // ---------------------------------------------------------------------------
  // One frame of the menu

  /** last_click_time and the trail deque, as the loop carries them. */
  datatype GuiState = GuiState(trail: seq<TrailPoint>, lastClickTime: int)

  const InitialGuiState := GuiState([], 0)

  /**
   * One pass of the loop: the capture fails, or a frame of `width` by
   * `height` with the first detected hand's landmarks, if any, and whether
   * 'q' was pressed after drawing it.
   */
  datatype GuiInput =
    | GuiFrame(width: int, height: int, hand: Option<seq<Point>>, quitPressed: bool)
    | CameraReadFailed

  /** LAUNCH returned, the loop still running, or the loop left returning None. */
  datatype Outcome = Running | Launch | Closed

  predicate WellFormedInput(input: GuiInput)
  {
    input.GuiFrame? && input.hand.Some? ==> |input.hand.value| == LandmarkCount
  }

  /** The `finger_dist < 40` test on the thumb and index tips, exact on integer pixels. */
  predicate Joined(lm: seq<Point>)
    requires |lm| > IndexTip
  {
    SqDist(lm[IndexTip], lm[ThumbTip]) < PinchThreshold * PinchThreshold
  }

  /** The activation gate: a pinch once the cooldown has strictly expired. */
  predicate Armed(s: GuiState, lm: seq<Point>, now: int)
    requires |lm| > IndexTip
  {
    Joined(lm) && now - s.lastClickTime > ActivationCooldownMs
  }

  /** The state after a frame, and what the loop does next. */
  function GuiStep(s: GuiState, input: GuiInput, now: int): (r: (GuiState, Outcome))
    requires WellFormedInput(input)
    // LAUNCH exactly when a hand pinches, the cooldown has expired and the tip is inside the button
    ensures r.1 == Launch <==>
      input.GuiFrame? && input.hand.Some? &&
      Joined(input.hand.value) && now - s.lastClickTime > ActivationCooldownMs &&
      Inside(LaunchButton(input.width, input.height), input.hand.value[IndexTip])
    // any armed pinch consumes the cooldown, inside the button or not; otherwise the time is kept
    ensures if input.GuiFrame? && input.hand.Some? && Armed(s, input.hand.value, now)
      then r.0.lastClickTime == now
      else r.0.lastClickTime == s.lastClickTime
  {
    match input
    case CameraReadFailed => (s, Closed)
    case GuiFrame(w, h, hand, quit) =>
      if hand.None? then (s, if quit then Closed else Running)
      else
        var lm := hand.value;
        var tip := lm[IndexTip];
        var trail := TrailPush(s.trail, TrailPoint(tip.x, tip.y, now));
        if Armed(s, lm, now) then
          if Inside(LaunchButton(w, h), tip) then (GuiState(trail, now), Launch)
          else (GuiState(trail, now), if quit then Closed else Running)
        else (GuiState(trail, s.lastClickTime), if quit then Closed else Running)
  }

  /** A frame without a hand changes nothing and never launches. */
  lemma NoHandNoChange(s: GuiState, input: GuiInput, now: int)
    requires WellFormedInput(input) && (input.CameraReadFailed? || input.hand.None?)
    ensures GuiStep(s, input, now).0 == s
    ensures GuiStep(s, input, now).1 != Launch
  {
  }

  /** Every frame with a hand pushes its fingertip at the front of the trail, which stays within 18. */
  lemma StepKeepsTrail(s: GuiState, input: GuiInput, now: int)
    requires WellFormedInput(input) && |s.trail| <= TrailMaxLen
    ensures var t := GuiStep(s, input, now).0;
      |t.trail| <= TrailMaxLen &&
      (input.GuiFrame? && input.hand.Some? ==>
        var tip := input.hand.value[IndexTip];
        t.trail == TrailPush(s.trail, TrailPoint(tip.x, tip.y, now)))
  {
  }

  /** The loop over a sequence of (input, time) pairs until it launches or closes. */
  function GuiRun(s: GuiState, obs: seq<(GuiInput, int)>): (GuiState, Outcome)
    requires forall i :: 0 <= i < |obs| ==> WellFormedInput(obs[i].0)
    decreases |obs|
  {
    if obs == [] then (s, Running)
    else
      var step := GuiStep(s, obs[0].0, obs[0].1);
      if step.1 != Running then step else GuiRun(step.0, obs[1..])
  }

  /** While the clock stays within the cooldown of the last activation, nothing launches. */
  lemma {:induction false} CooldownBlocksRun(s: GuiState, obs: seq<(GuiInput, int)>)
    requires forall i :: 0 <= i < |obs| ==> WellFormedInput(obs[i].0)
    requires forall i :: 0 <= i < |obs| ==> obs[i].1 - s.lastClickTime <= ActivationCooldownMs
    ensures GuiRun(s, obs).1 != Launch
    ensures GuiRun(s, obs).0.lastClickTime == s.lastClickTime
    decreases |obs|
  {
    if obs != [] {
      var step := GuiStep(s, obs[0].0, obs[0].1);
      assert step.0.lastClickTime == s.lastClickTime;
      if step.1 == Running {
        assert forall i :: 0 <= i < |obs[1..]| ==> obs[1..][i] == obs[i + 1];
        CooldownBlocksRun(step.0, obs[1..]);
      }
    }
  }

  /**
   * A pinch outside the button still takes the cooldown: no launch follows
   * it until more than 0.45 s have passed, even with the tip on the button.
   */
  lemma OutsidePinchBlocksLaunch(s: GuiState, first: GuiInput, t0: int, rest: seq<(GuiInput, int)>)
    requires WellFormedInput(first) && first.GuiFrame? && first.hand.Some?
    requires Armed(s, first.hand.value, t0)
    requires !Inside(LaunchButton(first.width, first.height), first.hand.value[IndexTip])
    requires forall i :: 0 <= i < |rest| ==> WellFormedInput(rest[i].0)
    requires forall i :: 0 <= i < |rest| ==> rest[i].1 - t0 <= ActivationCooldownMs
    ensures GuiRun(s, [(first, t0)] + rest).1 != Launch
  {
    var obs := [(first, t0)] + rest;
    var step := GuiStep(s, first, t0);
    assert step.0.lastClickTime == t0;
    if step.1 == Running {
      assert obs[1..] == rest;
      CooldownBlocksRun(step.0, rest);
    }
  }

  // ---------------------------------------------------------------------------
  // The loop as an object

  /** The variables run_gui carries from frame to frame. */
  class LaunchMenu {
    var trail: seq<TrailPoint>
    var lastClickTime: int

    ghost function State(): GuiState
      reads this
    {
      GuiState(trail, lastClickTime)
    }

    ghost predicate Valid()
      reads this
    {
      |trail| <= TrailMaxLen
    }

    constructor ()
      ensures Valid() && State() == InitialGuiState
    {
      trail := [];
      lastClickTime := 0;
    }

    /** trail.appendleft(p), then trail.pop() when over length. */
    method PushTrail(p: TrailPoint)
      requires Valid()
      modifies this
      ensures Valid()
      ensures trail == TrailPush(old(trail), p)
      ensures lastClickTime == old(lastClickTime)
    {
      trail := [p] + trail;
      if |trail| > TrailMaxLen {
        trail := trail[..|trail| - 1];
      }
    }

    /** One pass of the loop in run_gui. */
    method Step(input: GuiInput, now: int) returns (outcome: Outcome)
      requires Valid() && WellFormedInput(input)
      modifies this
      ensures Valid()
      ensures (State(), outcome) == GuiStep(old(State()), input, now)
    {
      if input.CameraReadFailed? {
        return Closed;
      }
      if input.hand.Some? {
        var lm := input.hand.value;
        var tip := lm[IndexTip];
        PushTrail(TrailPoint(tip.x, tip.y, now));
        var joined := SqDist(tip, lm[ThumbTip]) < PinchThreshold * PinchThreshold;
        if joined && now - lastClickTime > ActivationCooldownMs {
          lastClickTime := now;
          if Inside(LaunchButton(input.width, input.height), tip) {
            return Launch;
          }
        }
      }
      outcome := if input.quitPressed then Closed else Running;
    }
  }
}
