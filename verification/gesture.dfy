/**
 * The dual-hand virtual mouse of gesture.py: per camera frame, hands are put
 * in a right and a left slot by their detector label; the index fingertip of
 * the right hand (else the left) is mapped to a clamped and smoothed screen
 * position; a right-hand pinch clicks or double-clicks on release, three
 * fingers of the right hand scroll, and a left-hand pinch right-clicks,
 * limited by a cooldown. Effector calls become emitted events; time is an
 * explicit `now` in integer milliseconds.
 */
module Gesture {
  import opened Basics

  /** Thumb-index distance below which a hand is pinching, in pixels. */
  const PinchThreshold := 40
  /** Minimum time between two right clicks, strictly exceeded (0.3 s). */
  const RightClickCooldownMs := 300
  /** A pinch held shorter than this clicks, longer double-clicks (0.5 s). */
  const DoubleClickBoundaryMs := 500
  /** Camera frame border ignored when mapping to the screen, in pixels. */
  const CamMargin := 40
  /** Scroll amount per qualifying frame. */
  const ScrollAmount := 60
  /** MediaPipe reports 21 landmarks per hand. */
  const LandmarkCount := 21

  const ThumbIp := 3
  const ThumbTip := 4
  const IndexTip := 8

  type Landmarks = seq<Point>

  datatype Hand = Hand(handedness: string, landmarks: Landmarks)

  /** One camera frame: its size and the detector's hands, in detector order. */
  datatype Frame = Frame(width: int, height: int, hands: seq<Hand>)

  /** What one iteration of the capture loop sees. */
  datatype Capture = Captured(frame: Frame, escPressed: bool) | ReadFailed

  datatype Event =
    | MoveTo(x: int, y: int)
    | Click
    | DoubleClick
    | Scroll(amount: int)
    | RightClick

  /** The detector's contract: every hand carries all 21 landmarks. */
  predicate WellFormed(frame: Frame)
  {
    forall i :: 0 <= i < |frame.hands| ==> |frame.hands[i].landmarks| == LandmarkCount
  }

  predicate IsRightLabel(handedness: string)
  {
    handedness == "Right"
  }

  // ---------------------------------------------------------------------------
  // Per-hand primitives

  /** The `distance(lm[4], lm[8]) < 40` test, exact on integer pixels. */
  predicate Pinched(lm: Landmarks)
    requires |lm| > IndexTip
  {
    SqDist(lm[ThumbTip], lm[IndexTip]) < PinchThreshold * PinchThreshold
  }

  /** One entry of fingers_up: an out-of-range landmark counts as "down". */
  predicate TipBeyond(lm: Landmarks, tip: nat, joint: nat, horizontal: bool)
  {
    tip < |lm| && joint < |lm| &&
    (if horizontal then lm[tip].x < lm[joint].x else lm[tip].y < lm[joint].y)
  }

  /** fingers_up: [thumb, index, middle, ring, pinky]. */
  function FingersUp(lm: Landmarks): (up: seq<bool>)
    ensures |up| == 5
    ensures up[0] == (|lm| > 4 && lm[4].x < lm[3].x)
    ensures up[1] == (|lm| > 8 && lm[8].y < lm[6].y)
    ensures up[2] == (|lm| > 12 && lm[12].y < lm[10].y)
    ensures up[3] == (|lm| > 16 && lm[16].y < lm[14].y)
    ensures up[4] == (|lm| > 20 && lm[20].y < lm[18].y)
  {
    [TipBeyond(lm, ThumbTip, ThumbIp, true)] +
    seq(4, k requires 0 <= k < 4 => TipBeyond(lm, 8 + 4 * k, 6 + 4 * k, false))
  }

  // ---------------------------------------------------------------------------
  // Role slots

  /** The landmarks of the last hand whose label puts it in the requested slot. */
  function LastInSlot(hands: seq<Hand>, right: bool): Option<Landmarks>
  {
    if hands == [] then None
    else if IsRightLabel(hands[|hands| - 1].handedness) == right then Some(hands[|hands| - 1].landmarks)
    else LastInSlot(hands[..|hands| - 1], right)
  }

  /**
   * A slot is empty exactly when no hand is labelled for it, and otherwise
   * holds the hand labelled for it that no later hand for it overwrote.
   */
  lemma {:induction false} LastInSlotSpec(hands: seq<Hand>, right: bool)
    ensures LastInSlot(hands, right).None? <==>
      forall i :: 0 <= i < |hands| ==> IsRightLabel(hands[i].handedness) != right
    ensures LastInSlot(hands, right).Some? ==>
      exists i :: LastFor(hands, right, i) && LastInSlot(hands, right).value == hands[i].landmarks
  {
    if hands != [] {
      var n := |hands| - 1;
      if IsRightLabel(hands[n].handedness) == right {
        assert LastFor(hands, right, n);
      } else {
        var init := hands[..n];
        LastInSlotSpec(init, right);
        if LastInSlot(init, right).Some? {
          var i :| LastFor(init, right, i) && LastInSlot(init, right).value == init[i].landmarks;
          assert LastFor(hands, right, i);
        } else {
          assert forall i :: 0 <= i < n ==> hands[i] == init[i];
        }
      }
    }
  }

  /** Hand `i` is labelled for the slot and no later hand is. */
  predicate LastFor(hands: seq<Hand>, right: bool, i: int)
  {
    0 <= i < |hands| && IsRightLabel(hands[i].handedness) == right &&
    forall j :: i < j < |hands| ==> IsRightLabel(hands[j].handedness) != right
  }

  /** The detection loop of gesture.py: fill the right and left slots. */
  method AssignRoles(hands: seq<Hand>) returns (right: Option<Landmarks>, left: Option<Landmarks>)
    ensures right == LastInSlot(hands, true)
    ensures left == LastInSlot(hands, false)
  {
    right, left := None, None;
    var i := 0;
    while i < |hands|
      invariant 0 <= i <= |hands|
      invariant right == LastInSlot(hands[..i], true)
      invariant left == LastInSlot(hands[..i], false)
    {
      assert hands[..i + 1][..i] == hands[..i];
      if IsRightLabel(hands[i].handedness) {
        right := Some(hands[i].landmarks);
      } else {
        left := Some(hands[i].landmarks);
      }
      i := i + 1;
    }
    assert hands[..|hands|] == hands;
  }

  // ---------------------------------------------------------------------------
  // Cursor mapping

  /** Pixels of the camera frame that span the screen: never below 1. */
  function UsableSpan(frameDim: int): (u: int)
    ensures u >= 1 && u >= frameDim - 2 * CamMargin
  {
    if frameDim - 2 * CamMargin > 1 then frameDim - 2 * CamMargin else 1
  }

  /** max(0.0, min(1.0, r)) */
  function ClampUnit(r: real): (c: real)
    ensures 0.0 <= c <= 1.0
    ensures 0.0 <= r <= 1.0 ==> c == r
  {
    if r > 1.0 then 1.0 else if r < 0.0 then 0.0 else r
  }

  /** The clamped position of `coord` within the usable part of the frame, in [0, 1]. */
  function FrameRatio(coord: int, frameDim: int): (r: real)
    ensures 0.0 <= r <= 1.0
    ensures coord <= CamMargin ==> r == 0.0
    ensures coord - CamMargin >= UsableSpan(frameDim) ==> r == 1.0
  {
    var u := UsableSpan(frameDim) as real;
    var q := (coord - CamMargin) as real / u;
    RatioEnds((coord - CamMargin) as real, u);
    ClampUnit(q)
  }

  lemma FrameRatioMonotone(c1: int, c2: int, frameDim: int)
    requires c1 <= c2
    ensures FrameRatio(c1, frameDim) <= FrameRatio(c2, frameDim)
  {
    DivMonotone((c1 - CamMargin) as real, (c2 - CamMargin) as real, UsableSpan(frameDim) as real);
  }

  /** One axis of the unsmoothed cursor target: margin, ratio, clamp, scale, clamp. */
  function ScreenTarget(coord: int, frameDim: int, screenDim: int): (t: int)
    ensures screenDim >= 1 ==> 0 <= t <= screenDim - 1
    ensures coord <= CamMargin ==> t == 0
    ensures screenDim >= 1 && coord - CamMargin >= UsableSpan(frameDim) ==> t == screenDim - 1
  {
    Scale(screenDim, FrameRatio(coord, frameDim))
  }

  /** int(rel * screenDim), clamped to the screen. */
  function Scale(screenDim: int, rel: real): (t: int)
    requires 0.0 <= rel <= 1.0
    ensures screenDim >= 1 ==> 0 <= t <= screenDim - 1
    ensures rel == 0.0 ==> t == 0
    ensures screenDim >= 1 && rel == 1.0 ==> t == screenDim - 1
  {
    ScaleBounds(screenDim, rel);
    Clamp(0, screenDim - 1, Trunc(screenDim as real * rel))
  }

  lemma ScaleBounds(n: int, rel: real)
    requires 0.0 <= rel <= 1.0
    ensures n >= 0 ==> 0 <= Trunc(n as real * rel) <= n
    ensures rel == 0.0 ==> Trunc(n as real * rel) == 0
    ensures rel == 1.0 ==> Trunc(n as real * rel) == n
  {
    if n >= 0 {
      assert 0.0 <= n as real * rel <= n as real * 1.0;
    }
  }

  /** A wider frame coordinate never maps to a smaller screen coordinate. */
  lemma ScreenTargetMonotone(c1: int, c2: int, frameDim: int, screenDim: int)
    requires c1 <= c2 && screenDim >= 1
    ensures ScreenTarget(c1, frameDim, screenDim) <= ScreenTarget(c2, frameDim, screenDim)
  {
    FrameRatioMonotone(c1, c2, frameDim);
    ScaleMonotone(screenDim, FrameRatio(c1, frameDim), FrameRatio(c2, frameDim));
    assert ScreenTarget(c1, frameDim, screenDim) == Scale(screenDim, FrameRatio(c1, frameDim));
    assert ScreenTarget(c2, frameDim, screenDim) == Scale(screenDim, FrameRatio(c2, frameDim));
  }

  lemma ScaleMonotone(n: int, k1: real, k2: real)
    requires n >= 1 && 0.0 <= k1 <= k2
    requires k2 <= 1.0
    ensures Scale(n, k1) <= Scale(n, k2)
  {
    assert n as real * k1 <= n as real * k2;
    TruncMonotone(n as real * k1, n as real * k2);
    ClampMonotone(0, n - 1, Trunc(n as real * k1), Trunc(n as real * k2));
  }

  lemma RatioEnds(a: real, u: real)
    requires u > 0.0
    ensures a <= 0.0 ==> a / u <= 0.0
    ensures a >= u ==> a / u >= 1.0
  {
    if a <= 0.0 {
      DivMonotone(a, 0.0, u);
    }
    if a >= u {
      DivMonotone(u, a, u);
    }
  }

  lemma DivMonotone(a: real, b: real, u: real)
    requires a <= b && u > 0.0
    ensures a / u <= b / u
  {
    assert b / u - a / u == (b - a) / u;
  }

  /** int(prev + (target - prev) * 0.5): one step of the low-pass filter. */
  function Smooth(prev: int, target: int): (r: int)
    ensures prev <= r <= target || target <= r <= prev
  {
    Trunc(prev as real + (target - prev) as real * 0.5)
  }

  /** On non-negative coordinates the filter step is the floored midpoint. */
  lemma SmoothIsMidpoint(prev: int, target: int)
    requires prev >= 0 && target >= 0
    ensures Smooth(prev, target) == (prev + target) / 2
  {
    var r := prev as real + (target - prev) as real * 0.5;
    assert r == (prev + target) as real / 2.0;
    var m := (prev + target) / 2;
    assert (prev + target) == 2 * m || (prev + target) == 2 * m + 1;
  }

  /**
   * The smoothed position lies between the previous position and the target,
   * is never farther from the target than the previous one, and falls short
   * of a target above it: from below the target is never reached.
   */
  lemma SmoothBetween(prev: int, target: int)
    requires prev >= 0 && target >= 0
    ensures var s := Smooth(prev, target);
      (prev <= s <= target || target <= s <= prev) &&
      (if s <= target then target - s else s - target) <= (if prev <= target then target - prev else prev - target)
    ensures prev < target ==> Smooth(prev, target) < target
    ensures target < prev ==> Smooth(prev, target) - target < prev - target
  {
    SmoothIsMidpoint(prev, target);
  }

  /** The position after `n` frames toward a fixed target. */
  function SmoothSteps(prev: int, target: int, n: nat): int
    decreases n
  {
    if n == 0 then prev else SmoothSteps(Smooth(prev, target), target, n - 1)
  }

  function Pow2(n: nat): (p: nat)
    ensures p >= 1
  {
    if n == 0 then 1 else 2 * Pow2(n - 1)
  }

  /** Distance between a coordinate and the target. */
  function Gap(x: int, target: int): nat
  {
    if x <= target then target - x else x - target
  }

  /** One filter step at least halves the gap, rounded up. */
  lemma SmoothHalvesGap(prev: int, target: int)
    requires prev >= 0 && target >= 0
    ensures Smooth(prev, target) >= 0
    ensures 2 * Gap(Smooth(prev, target), target) <= Gap(prev, target) + 1
  {
    SmoothIsMidpoint(prev, target);
  }

  lemma DoublingStep(e: int, d1: int, d: int, p: int)
    requires p >= 1 && e * p < d1 + p && 2 * d1 <= d + 1
    ensures e * (2 * p) < d + 2 * p
  {
    assert e * (2 * p) == 2 * (e * p);
  }

  /**
   * Convergence as it really is: after `n` frames toward a fixed target the
   * gap is below d / 2^n plus one pixel (the floor of the midpoint can stall
   * one pixel below the target), not the geometric bound of the float filter.
   */
  lemma {:induction false} SmoothConverges(prev: int, target: int, n: nat)
    requires prev >= 0 && target >= 0
    ensures SmoothSteps(prev, target, n) >= 0
    ensures Gap(SmoothSteps(prev, target, n), target) * Pow2(n) < Gap(prev, target) + Pow2(n)
    decreases n
  {
    if n > 0 {
      var s := Smooth(prev, target);
      SmoothHalvesGap(prev, target);
      SmoothConverges(s, target, n - 1);
      assert SmoothSteps(prev, target, n) == SmoothSteps(s, target, n - 1);
      DoublingStep(Gap(SmoothSteps(s, target, n - 1), target), Gap(s, target), Gap(prev, target), Pow2(n - 1));
    }
  }

  /** One pixel below the target is a fixed point of the filter. */
  lemma SmoothStallsBelow(target: int)
    requires target >= 1
    ensures Smooth(target - 1, target) == target - 1
  {
    SmoothIsMidpoint(target - 1, target);
  }

  // ---------------------------------------------------------------------------
  // Action channels

  /** pinch_state and pinch_start_time. */
  datatype PinchSession = PinchSession(pinching: bool, start: int)

  /** The hold-duration rule on release: a short pinch clicks, a long one double-clicks. */
  function ReleaseEvent(heldMs: int): (e: Event)
    ensures e == Click || e == DoubleClick
    ensures e == Click <==> heldMs < DoubleClickBoundaryMs
  {
    if heldMs < DoubleClickBoundaryMs then Click else DoubleClick
  }

  /**
   * The right-hand pinch channel for one frame. `pinched` is None when no
   * right hand is seen: the session is then left as it is.
   */
  function PinchChannel(p: PinchSession, pinched: Option<bool>, now: int): (r: (PinchSession, Option<Event>))
    ensures r.1.Some? <==> p.pinching && pinched == Some(false)
    ensures r.1.Some? ==> r.1.value == ReleaseEvent(now - p.start) && !r.0.pinching
    ensures !p.pinching && pinched == Some(true) ==> r.0 == PinchSession(true, now)
    ensures p.pinching && pinched == Some(true) ==> r.0 == p
    ensures pinched.None? ==> r.0 == p
    ensures r.0.pinching == (if pinched.None? then p.pinching else pinched.value)
  {
    match pinched
    case None => (p, None)
    case Some(true) => (if p.pinching then p else PinchSession(true, now), None)
    case Some(false) =>
      if p.pinching then (p.(pinching := false), Some(ReleaseEvent(now - p.start)))
      else (p, None)
  }

  /** Runs the pinch channel over a sequence of (observation, time) pairs. */
  function PinchRun(p: PinchSession, obs: seq<(Option<bool>, int)>): (PinchSession, seq<Event>)
    decreases |obs|
  {
    if obs == [] then (p, [])
    else
      var (q, e) := PinchChannel(p, obs[0].0, obs[0].1);
      var (r, es) := PinchRun(q, obs[1..]);
      (r, (if e.Some? then [e.value] else []) + es)
  }

  /** Frames that neither release nor start a pinch: still pinching, or right hand out of view. */
  predicate Holding(obs: seq<(Option<bool>, int)>)
  {
    forall i :: 0 <= i < |obs| ==> obs[i].0 != Some(false)
  }

  lemma {:induction false} HoldingKeepsSession(p: PinchSession, obs: seq<(Option<bool>, int)>)
    requires p.pinching && Holding(obs)
    ensures PinchRun(p, obs) == (p, [])
  {
    if obs != [] {
      assert obs[0].0 != Some(false);
      assert PinchChannel(p, obs[0].0, obs[0].1) == (p, None);
      HoldingTail(obs);
      HoldingKeepsSession(p, obs[1..]);
      assert PinchRun(p, obs).0 == p;
      assert PinchRun(p, obs).1 == [];
    }
  }

  lemma HoldingTail(obs: seq<(Option<bool>, int)>)
    requires obs != [] && Holding(obs)
    ensures Holding(obs[1..])
  {
    forall i | 0 <= i < |obs| - 1 ensures obs[1..][i].0 != Some(false) {
      assert obs[1..][i] == obs[i + 1];
    }
  }

  /**
   * One whole pinch cycle: a pinch starts at t0, any number of frames keep
   * pinching or lose sight of the right hand, and a release at t1 emits
   * exactly one event, a click when t1 - t0 < 500 ms and a double-click otherwise.
   */
  lemma {:induction false} PinchCycle(start: int, t0: int, middle: seq<(Option<bool>, int)>, t1: int)
    requires Holding(middle)
    ensures var (q, es) := PinchRun(PinchSession(false, start), [(Some(true), t0)] + middle + [(Some(false), t1)]);
      es == [ReleaseEvent(t1 - t0)] && !q.pinching
  {
    var obs := [(Some(true), t0)] + middle + [(Some(false), t1)];
    var p := PinchSession(true, t0);
    assert obs[1..] == middle + [(Some(false), t1)];
    HoldingThenRelease(p, middle, t1);
  }

  lemma {:induction false} HoldingThenRelease(p: PinchSession, middle: seq<(Option<bool>, int)>, t1: int)
    requires p.pinching && Holding(middle)
    ensures PinchRun(p, middle + [(Some(false), t1)]) == (p.(pinching := false), [ReleaseEvent(t1 - p.start)])
  {
    var obs := middle + [(Some(false), t1)];
    if middle == [] {
      assert obs == [(Some(false), t1)];
    } else {
      assert obs[1..] == middle[1..] + [(Some(false), t1)];
      assert obs[0] == middle[0];
      assert middle[0].0 != Some(false);
      assert PinchChannel(p, obs[0].0, obs[0].1) == (p, None);
      HoldingTail(middle);
      HoldingThenRelease(p, middle[1..], t1);
    }
    assert PinchRun(p, obs).0 == p.(pinching := false);
    assert PinchRun(p, obs).1 == [ReleaseEvent(t1 - p.start)];
  }

  /** The three-finger scroll: all up scrolls up, all down scrolls down, mixed does nothing. */
  function ScrollChannel(up: seq<bool>): (e: Option<Event>)
    requires |up| == 5
    ensures e.Some? <==> (up[1] == up[2] == up[3])
    ensures e.Some? ==> e.value == Scroll(if up[1] then ScrollAmount else -ScrollAmount)
  {
    if up[1] && up[2] && up[3] then Some(Scroll(ScrollAmount))
    else if !up[1] && !up[2] && !up[3] then Some(Scroll(-ScrollAmount))
    else None
  }

  /**
   * The left-hand right-click channel: fires when a left hand pinches and more
   * than the cooldown has passed since the last fire, which it then records.
   */
  function RightClickChannel(last: int, pinched: Option<bool>, now: int): (r: (int, Option<Event>))
    ensures r.1.Some? <==> pinched == Some(true) && now - last > RightClickCooldownMs
    ensures r.1.Some? ==> r.1.value == RightClick
    ensures r.0 == (if r.1.Some? then now else last)
  {
    if pinched.Some? && now - last > RightClickCooldownMs && pinched.value then (now, Some(RightClick))
    else (last, None)
  }

  /** The times at which the right-click channel fires over a run. */
  function RightClickTimes(last: int, obs: seq<(Option<bool>, int)>): seq<int>
    decreases |obs|
  {
    if obs == [] then []
    else
      var step := RightClickChannel(last, obs[0].0, obs[0].1);
      (if step.1.Some? then [obs[0].1] else []) + RightClickTimes(step.0, obs[1..])
  }

  /** Every time in `ts` is more than the cooldown after `last` and after every earlier time. */
  predicate SpacedAfter(last: int, ts: seq<int>)
  {
    (forall i :: 0 <= i < |ts| ==> ts[i] - last > RightClickCooldownMs) &&
    (forall i, j :: 0 <= i < j < |ts| ==> ts[j] - ts[i] > RightClickCooldownMs)
  }

  /**
   * Rate limiting over any run: every fire is more than the cooldown after
   * the last recorded fire, and any two fires are more than the cooldown apart,
   * however the frame times are ordered.
   */
  lemma {:induction false} RightClicksSpaced(last: int, obs: seq<(Option<bool>, int)>)
    ensures SpacedAfter(last, RightClickTimes(last, obs))
    decreases |obs|
  {
    if obs != [] {
      var step := RightClickChannel(last, obs[0].0, obs[0].1);
      RightClicksSpaced(step.0, obs[1..]);
      var rest := RightClickTimes(step.0, obs[1..]);
      var ts := RightClickTimes(last, obs);
      if step.1.Some? {
        assert step.0 == obs[0].1 && obs[0].1 - last > RightClickCooldownMs;
        assert ts == [obs[0].1] + rest;
        forall i, j | 0 <= i < j < |ts|
          ensures ts[j] - ts[i] > RightClickCooldownMs
        {
          assert ts[j] == rest[j - 1];
          if i > 0 {
            assert ts[i] == rest[i - 1];
          }
        }
        forall i | 0 <= i < |ts|
          ensures ts[i] - last > RightClickCooldownMs
        {
          if i > 0 {
            assert ts[i] == rest[i - 1];
          }
        }
      } else {
        assert step.0 == last;
        assert ts == rest;
      }
    }
  }

  // ---------------------------------------------------------------------------
  // The whole frame

  datatype MouseState = MouseState(
    pinch: PinchSession,
    prevX: int,
    prevY: int,
    lastRightClick: int)

  /** The state virtual_mouse starts its loop with. */
  const InitialState := MouseState(PinchSession(false, 0), 0, 0, 0)

  /** The cursor stays on the screen. */
  predicate OnScreen(s: MouseState, screenW: int, screenH: int)
  {
    0 <= s.prevX < screenW && 0 <= s.prevY < screenH
  }

  /** The landmarks in one role slot of a frame, with the detector's 21 points. */
  function SlotHand(frame: Frame, right: bool): (h: Option<Landmarks>)
    requires WellFormed(frame)
    ensures h == LastInSlot(frame.hands, right)
    ensures h.Some? ==> |h.value| == LandmarkCount
  {
    LastInSlotSpec(frame.hands, right);
    LastInSlot(frame.hands, right)
  }

  function PinchObservation(hand: Option<Landmarks>): Option<bool>
    requires hand.Some? ==> |hand.value| == LandmarkCount
  {
    if hand.Some? then Some(Pinched(hand.value)) else None
  }

  function OptionToSeq(e: Option<Event>): seq<Event>
  {
    if e.Some? then [e.value] else []
  }

  /** The cursor position after a frame whose cursor hand is `hand`. */
  function CursorStep(s: MouseState, hand: Option<Landmarks>, frame: Frame, screenW: int, screenH: int): (p: Point)
    requires hand.Some? ==> |hand.value| == LandmarkCount
    ensures hand.None? ==> p == Point(s.prevX, s.prevY)
    ensures OnScreen(s, screenW, screenH) ==> 0 <= p.x < screenW && 0 <= p.y < screenH
  {
    if hand.Some? then
      var tip := hand.value[IndexTip];
      Point(Smooth(s.prevX, ScreenTarget(tip.x, frame.width, screenW)),
            Smooth(s.prevY, ScreenTarget(tip.y, frame.height, screenH)))
    else Point(s.prevX, s.prevY)
  }

  /** The events of one frame in the order the loop emits them: move, click, scroll, right-click. */
  function FrameEvents(move: Option<Event>, click: Option<Event>, scroll: Option<Event>, rightClick: Option<Event>): seq<Event>
  {
    OptionToSeq(move) + OptionToSeq(click) + OptionToSeq(scroll) + OptionToSeq(rightClick)
  }

  function ScrollStep(right: Option<Landmarks>): Option<Event>
  {
    if right.Some? then ScrollChannel(FingersUp(right.value)) else None
  }

  /** The new state and the emitted events of one captured frame, in the order the loop emits them. */
  function MouseStep(s: MouseState, frame: Frame, now: int, screenW: int, screenH: int): (r: (MouseState, seq<Event>))
    requires WellFormed(frame)
    ensures OnScreen(s, screenW, screenH) ==> OnScreen(r.0, screenW, screenH)
    ensures r.0.lastRightClick == s.lastRightClick || r.0.lastRightClick == now
    ensures |r.1| <= 4
  {
    var right := SlotHand(frame, true);
    var left := SlotHand(frame, false);
    var hand := if right.Some? then right else left;
    var pos := CursorStep(s, hand, frame, screenW, screenH);
    var move := if hand.Some? then Some(MoveTo(pos.x, pos.y)) else None;
    var pinch := PinchChannel(s.pinch, PinchObservation(right), now);
    var rightClick := RightClickChannel(s.lastRightClick, PinchObservation(left), now);
    (MouseState(pinch.0, pos.x, pos.y, rightClick.0), FrameEvents(move, pinch.1, ScrollStep(right), rightClick.1))
  }

  /** A frame with no hand moves nothing, emits nothing and keeps every channel as it was. */
  lemma NoHandsNoChange(s: MouseState, frame: Frame, now: int, screenW: int, screenH: int)
    requires WellFormed(frame) && frame.hands == []
    ensures MouseStep(s, frame, now, screenW, screenH) == (s, [])
  {
    assert SlotHand(frame, true) == None && SlotHand(frame, false) == None;
    assert PinchChannel(s.pinch, None, now) == (s.pinch, None);
    assert MouseStep(s, frame, now, screenW, screenH).0 == s;
    assert MouseStep(s, frame, now, screenW, screenH).1 == [];
  }

  /** The cursor follows the right hand's index tip when there is one, else the left hand's. */
  lemma CursorFollowsPreferredHand(s: MouseState, frame: Frame, now: int, screenW: int, screenH: int)
    requires WellFormed(frame) && s.prevX >= 0 && s.prevY >= 0 && screenW >= 1 && screenH >= 1
    requires frame.hands != []
    ensures var (t, es) := MouseStep(s, frame, now, screenW, screenH);
      var hand := if SlotHand(frame, true).Some? then SlotHand(frame, true) else SlotHand(frame, false);
      var tip := hand.value[IndexTip];
      && |es| >= 1
      && es[0] == MoveTo(t.prevX, t.prevY)
      && t.prevX == (s.prevX + ScreenTarget(tip.x, frame.width, screenW)) / 2
      && t.prevY == (s.prevY + ScreenTarget(tip.y, frame.height, screenH)) / 2
  {
    LastInSlotSpec(frame.hands, true);
    LastInSlotSpec(frame.hands, false);
    var last := frame.hands[|frame.hands| - 1];
    assert IsRightLabel(last.handedness) || !IsRightLabel(last.handedness);
    var hand := if SlotHand(frame, true).Some? then SlotHand(frame, true) else SlotHand(frame, false);
    assert hand.Some?;
    var tip := hand.value[IndexTip];
    SmoothIsMidpoint(s.prevX, ScreenTarget(tip.x, frame.width, screenW));
    SmoothIsMidpoint(s.prevY, ScreenTarget(tip.y, frame.height, screenH));
  }

  /** Without a right hand the pinch session is kept as it is, even mid-pinch. */
  lemma NoRightHandKeepsPinch(s: MouseState, frame: Frame, now: int, screenW: int, screenH: int)
    requires WellFormed(frame) && LastInSlot(frame.hands, true).None?
    ensures var (t, es) := MouseStep(s, frame, now, screenW, screenH);
      t.pinch == s.pinch &&
      forall i :: 0 <= i < |es| ==> es[i] != Click && es[i] != DoubleClick && !es[i].Scroll?
  {
  }

  /** A frame emits at most one scroll, never both directions. */
  lemma AtMostOneScroll(s: MouseState, frame: Frame, now: int, screenW: int, screenH: int)
    requires WellFormed(frame)
    ensures var (t, es) := MouseStep(s, frame, now, screenW, screenH);
      forall i, j :: 0 <= i < j < |es| ==> !(es[i].Scroll? && es[j].Scroll?)
  {
  }

  /** The loop over a sequence of (frame, time) pairs: the final state and every event, in order. */
  function MouseRun(s: MouseState, frames: seq<(Frame, int)>, screenW: int, screenH: int): (MouseState, seq<Event>)
    requires forall i :: 0 <= i < |frames| ==> WellFormed(frames[i].0)
    decreases |frames|
  {
    if frames == [] then (s, [])
    else
      var step := MouseStep(s, frames[0].0, frames[0].1, screenW, screenH);
      var rest := MouseRun(step.0, frames[1..], screenW, screenH);
      (rest.0, step.1 + rest.1)
  }

  /** What one hand's channel observes over a run: pinched or not, or no such hand, with the frame time. */
  function Observations(frames: seq<(Frame, int)>, right: bool): (obs: seq<(Option<bool>, int)>)
    requires forall i :: 0 <= i < |frames| ==> WellFormed(frames[i].0)
    ensures |obs| == |frames|
    decreases |frames|
  {
    if frames == [] then []
    else [(PinchObservation(SlotHand(frames[0].0, right)), frames[0].1)] + Observations(frames[1..], right)
  }

  /** The clicks and double-clicks among `es`, in order. */
  function Clicks(es: seq<Event>): seq<Event>
    decreases |es|
  {
    if es == [] then []
    else (if es[0] == Click || es[0] == DoubleClick then [es[0]] else []) + Clicks(es[1..])
  }

  /** How many right-clicks `es` holds. */
  function RightClicks(es: seq<Event>): nat
    decreases |es|
  {
    if es == [] then 0
    else (if es[0] == RightClick then 1 else 0) + RightClicks(es[1..])
  }

  lemma {:induction false} ClicksAppend(a: seq<Event>, b: seq<Event>)
    ensures Clicks(a + b) == Clicks(a) + Clicks(b)
    decreases |a|
  {
    if a == [] {
      assert a + b == b;
    } else {
      assert (a + b)[0] == a[0] && (a + b)[1..] == a[1..] + b;
      ClicksAppend(a[1..], b);
    }
  }

  lemma {:induction false} RightClicksAppend(a: seq<Event>, b: seq<Event>)
    ensures RightClicks(a + b) == RightClicks(a) + RightClicks(b)
    decreases |a|
  {
    if a == [] {
      assert a + b == b;
    } else {
      assert (a + b)[0] == a[0] && (a + b)[1..] == a[1..] + b;
      RightClicksAppend(a[1..], b);
    }
  }

  /** The clicks and right-clicks of one optional event. */
  lemma OneEvent(e: Option<Event>)
    ensures Clicks(OptionToSeq(e)) == (if e.Some? && (e.value == Click || e.value == DoubleClick) then [e.value] else [])
    ensures RightClicks(OptionToSeq(e)) == (if e == Some(RightClick) then 1 else 0)
  {
    if e.Some? {
      assert OptionToSeq(e)[1..] == [];
    }
  }

  /** Of one frame's events, the clicks are the click channel's. */
  lemma FrameClicks(move: Option<Event>, click: Option<Event>, scroll: Option<Event>, rightClick: Option<Event>)
    requires move.None? || move.value.MoveTo?
    requires click.None? || click.value == Click || click.value == DoubleClick
    requires scroll.None? || scroll.value.Scroll?
    requires rightClick.None? || rightClick.value == RightClick
    ensures Clicks(FrameEvents(move, click, scroll, rightClick)) == OptionToSeq(click)
  {
    var m, p, c, r := OptionToSeq(move), OptionToSeq(click), OptionToSeq(scroll), OptionToSeq(rightClick);
    OneEvent(move);
    OneEvent(click);
    OneEvent(scroll);
    OneEvent(rightClick);
    assert Clicks(m) == [] && Clicks(p) == p && Clicks(c) == [] && Clicks(r) == [];
    ClicksAppend(m, p);
    ClicksAppend(m + p, c);
    ClicksAppend(m + p + c, r);
  }

  /** Of one frame's events, the right-clicks are the right-click channel's. */
  lemma FrameRightClicks(move: Option<Event>, click: Option<Event>, scroll: Option<Event>, rightClick: Option<Event>)
    requires move.None? || move.value.MoveTo?
    requires click.None? || click.value == Click || click.value == DoubleClick
    requires scroll.None? || scroll.value.Scroll?
    requires rightClick.None? || rightClick.value == RightClick
    ensures RightClicks(FrameEvents(move, click, scroll, rightClick)) == |OptionToSeq(rightClick)|
  {
    var m, p, c, r := OptionToSeq(move), OptionToSeq(click), OptionToSeq(scroll), OptionToSeq(rightClick);
    OneEvent(move);
    OneEvent(click);
    OneEvent(scroll);
    OneEvent(rightClick);
    assert RightClicks(m) == 0 && RightClicks(p) == 0 && RightClicks(c) == 0 && RightClicks(r) == |r|;
    RightClicksAppend(m, p);
    RightClicksAppend(m + p, c);
    RightClicksAppend(m + p + c, r);
  }

  /** One frame's clicks are the pinch channel's event and its right-clicks the left channel's. */
  lemma StepChannels(s: MouseState, frame: Frame, now: int, screenW: int, screenH: int)
    requires WellFormed(frame)
    ensures var (t, es) := MouseStep(s, frame, now, screenW, screenH);
      var pinch := PinchChannel(s.pinch, PinchObservation(SlotHand(frame, true)), now);
      var rightClick := RightClickChannel(s.lastRightClick, PinchObservation(SlotHand(frame, false)), now);
      && t.pinch == pinch.0 && Clicks(es) == OptionToSeq(pinch.1)
      && t.lastRightClick == rightClick.0 && RightClicks(es) == |OptionToSeq(rightClick.1)|
  {
    var right := SlotHand(frame, true);
    var left := SlotHand(frame, false);
    var hand := if right.Some? then right else left;
    var pos := CursorStep(s, hand, frame, screenW, screenH);
    var move := if hand.Some? then Some(MoveTo(pos.x, pos.y)) else None;
    var click := PinchChannel(s.pinch, PinchObservation(right), now).1;
    var rightClick := RightClickChannel(s.lastRightClick, PinchObservation(left), now).1;
    FrameClicks(move, click, ScrollStep(right), rightClick);
    FrameRightClicks(move, click, ScrollStep(right), rightClick);
  }

  /**
   * A run of the loop drives the pinch channel exactly as the channel's own
   * run does: the pinch session and the clicks are those of the pinch channel
   * over the right hand's observations.
   */
  lemma {:induction false} RunDrivesPinch(s: MouseState, frames: seq<(Frame, int)>, screenW: int, screenH: int)
    requires forall i :: 0 <= i < |frames| ==> WellFormed(frames[i].0)
    ensures var (t, es) := MouseRun(s, frames, screenW, screenH);
      var pinch := PinchRun(s.pinch, Observations(frames, true));
      t.pinch == pinch.0 && Clicks(es) == pinch.1
    decreases |frames|
  {
    if frames != [] {
      var step := MouseStep(s, frames[0].0, frames[0].1, screenW, screenH);
      var rest := frames[1..];
      assert forall i :: 0 <= i < |rest| ==> rest[i] == frames[i + 1];
      var run := MouseRun(step.0, rest, screenW, screenH);
      assert MouseRun(s, frames, screenW, screenH) == (run.0, step.1 + run.1);
      RunDrivesPinch(step.0, rest, screenW, screenH);
      StepChannels(s, frames[0].0, frames[0].1, screenW, screenH);
      ClicksAppend(step.1, run.1);
      assert Observations(frames, true)[1..] == Observations(rest, true);
    }
  }

  /**
   * A run of the loop drives the right-click channel exactly as the channel's
   * own run does: the right-clicks and the last fire time are those of the
   * right-click channel over the left hand's observations.
   */
  lemma {:induction false} RunDrivesRightClick(s: MouseState, frames: seq<(Frame, int)>, screenW: int, screenH: int)
    requires forall i :: 0 <= i < |frames| ==> WellFormed(frames[i].0)
    ensures var (t, es) := MouseRun(s, frames, screenW, screenH);
      var times := RightClickTimes(s.lastRightClick, Observations(frames, false));
      RightClicks(es) == |times| &&
      t.lastRightClick == (if times == [] then s.lastRightClick else times[|times| - 1])
    decreases |frames|
  {
    if frames != [] {
      var step := MouseStep(s, frames[0].0, frames[0].1, screenW, screenH);
      var rest := frames[1..];
      assert forall i :: 0 <= i < |rest| ==> rest[i] == frames[i + 1];
      var run := MouseRun(step.0, rest, screenW, screenH);
      assert MouseRun(s, frames, screenW, screenH) == (run.0, step.1 + run.1);
      RunDrivesRightClick(step.0, rest, screenW, screenH);
      StepChannels(s, frames[0].0, frames[0].1, screenW, screenH);
      RightClicksAppend(step.1, run.1);
      assert Observations(frames, false)[1..] == Observations(rest, false);
    }
  }

  // ---------------------------------------------------------------------------
  // The loop as an object

  /** The loop-carried variables of virtual_mouse and the screen size read at start-up. */
  class VirtualMouse {
    const screenW: int
    const screenH: int
    var pinching: bool
    var pinchStart: int
    var prevX: int
    var prevY: int
    var lastRightClick: int

    ghost function State(): MouseState
      reads this
    {
      MouseState(PinchSession(pinching, pinchStart), prevX, prevY, lastRightClick)
    }

    ghost predicate Valid()
      reads this
    {
      screenW >= 1 && screenH >= 1 && OnScreen(State(), screenW, screenH)
    }

    constructor (screenW: int, screenH: int)
      requires screenW >= 1 && screenH >= 1
      ensures Valid() && State() == InitialState
      ensures this.screenW == screenW && this.screenH == screenH
    {
      this.screenW, this.screenH := screenW, screenH;
      pinching, pinchStart := false, 0;
      prevX, prevY := 0, 0;
      lastRightClick := 0;
    }

    /** One iteration of the capture loop; `quit` is the Esc key that ends it. */
    method Step(capture: Capture, now: int) returns (events: seq<Event>, quit: bool)
      requires Valid()
      requires capture.Captured? ==> WellFormed(capture.frame)
      modifies this
      ensures Valid()
      ensures capture.ReadFailed? ==> State() == old(State()) && events == [] && !quit
      ensures capture.Captured? ==>
        (State(), events) == MouseStep(old(State()), capture.frame, now, screenW, screenH) &&
        quit == capture.escPressed
    {
      if capture.ReadFailed? {
        return [], false;
      }
      var frame := capture.frame;
      ghost var s := State();
      var right, left := AssignRoles(frame.hands);
      assert right == SlotHand(frame, true) && left == SlotHand(frame, false);
      var cursor := if right.Some? then right else left;
      var move := MoveCursor(cursor, frame);
      var click := TrackPinch(right, now);
      var scroll := ScrollEvents(right);
      var rightClick := FireRightClick(left, now);
      events := move + click + scroll + rightClick;
      quit := capture.escPressed;
      assert State() == MouseStep(s, frame, now, screenW, screenH).0;
    }

    /** Map the cursor hand's index tip to the screen and smooth toward it. */
    method MoveCursor(cursor: Option<Landmarks>, frame: Frame) returns (move: seq<Event>)
      requires cursor.Some? ==> |cursor.value| == LandmarkCount
      modifies this
      ensures Point(prevX, prevY) == CursorStep(old(State()), cursor, frame, screenW, screenH)
      ensures move == OptionToSeq(if cursor.Some? then Some(MoveTo(prevX, prevY)) else None)
      ensures pinching == old(pinching) && pinchStart == old(pinchStart)
      ensures lastRightClick == old(lastRightClick)
    {
      move := [];
      if cursor.Some? {
        var tip := cursor.value[IndexTip];
        var sx := ScreenTarget(tip.x, frame.width, screenW);
        var sy := ScreenTarget(tip.y, frame.height, screenH);
        sx := Smooth(prevX, sx);
        sy := Smooth(prevY, sy);
        prevX, prevY := sx, sy;
        move := [MoveTo(sx, sy)];
      }
    }

    /** The right-hand pinch: start a session, or end one with a click or double-click. */
    method TrackPinch(right: Option<Landmarks>, now: int) returns (click: seq<Event>)
      requires right.Some? ==> |right.value| == LandmarkCount
      modifies this
      ensures PinchSession(pinching, pinchStart) == PinchChannel(old(State()).pinch, PinchObservation(right), now).0
      ensures click == OptionToSeq(PinchChannel(old(State()).pinch, PinchObservation(right), now).1)
      ensures prevX == old(prevX) && prevY == old(prevY) && lastRightClick == old(lastRightClick)
    {
      click := [];
      if right.Some? {
        var lm := right.value;
        if Pinched(lm) {
          if !pinching {
            pinching := true;
            pinchStart := now;
          }
        } else if pinching {
          click := [ReleaseEvent(now - pinchStart)];
          pinching := false;
        }
      }
    }

    /** The right-hand three-finger scroll; it reads no loop state. */
    method ScrollEvents(right: Option<Landmarks>) returns (scroll: seq<Event>)
      requires right.Some? ==> |right.value| == LandmarkCount
      ensures |scroll| <= 1
      ensures scroll == OptionToSeq(ScrollStep(right))
    {
      scroll := [];
      if right.Some? {
        var up := FingersUp(right.value);
        if up[1] && up[2] && up[3] {
          scroll := [Scroll(ScrollAmount)];
        } else if !up[1] && !up[2] && !up[3] {
          scroll := [Scroll(-ScrollAmount)];
        }
      }
    }

    /** The left-hand right-click, rate limited by the cooldown. */
    method FireRightClick(left: Option<Landmarks>, now: int) returns (rightClick: seq<Event>)
      requires left.Some? ==> |left.value| == LandmarkCount
      modifies this
      ensures lastRightClick == RightClickChannel(old(lastRightClick), PinchObservation(left), now).0
      ensures rightClick == OptionToSeq(RightClickChannel(old(lastRightClick), PinchObservation(left), now).1)
      ensures pinching == old(pinching) && pinchStart == old(pinchStart)
      ensures prevX == old(prevX) && prevY == old(prevY)
    {
      rightClick := [];
      if left.Some? && now - lastRightClick > RightClickCooldownMs {
        if Pinched(left.value) {
          rightClick := [RightClick];
          lastRightClick := now;
        }
      }
    }
  }
}
