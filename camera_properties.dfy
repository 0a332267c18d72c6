/**
 * What `Update` guarantees frame after frame. A `RigAndCamera` pairs the component's
 * state with the camera's field of view, and `Run` feeds each frame the field
 * of view the previous frame wrote (nothing else writes it).
 */
module CameraProperties {
  import opened UnityMath
  import opened CameraRules

  datatype RigAndCamera = RigAndCamera(state: RigState, fieldOfView: real)

  /** The rig after one frame, which sees the field of view the rig holds. */
  function Next(t: Tuning, r: RigAndCamera, i: FrameInput): RigAndCamera
  {
    var f := Step(t, r.state, i.(fieldOfView := r.fieldOfView));
    RigAndCamera(f.state, f.output.fieldOfView)
  }

  /** The rig after the given frames, in order. */
  function Run(t: Tuning, r: RigAndCamera, inputs: seq<FrameInput>): RigAndCamera
    decreases |inputs|
  {
    if inputs == [] then r else Run(t, Next(t, r, inputs[0]), inputs[1..])
  }

  /** A run of a single frame is that frame's step. */
  lemma RunOne(t: Tuning, r: RigAndCamera, i: FrameInput)
    ensures Run(t, r, [i]) == Next(t, r, i)
  {
  }

  /** Running two batches of frames is running their concatenation. */
  lemma {:induction false} RunConcat(t: Tuning, r: RigAndCamera, a: seq<FrameInput>, b: seq<FrameInput>)
    ensures Run(t, r, a + b) == Run(t, Run(t, r, a), b)
    decreases |a|
  {
    if a != [] {
      assert (a + b)[0] == a[0];
      assert (a + b)[1..] == a[1..] + b;
      RunConcat(t, Next(t, r, a[0]), a[1..], b);
    } else {
      assert a + b == b;
    }
  }

  /**
   * One frame's field-of-view blend: the new value lies between the camera's
   * current value and the target (the base, times the sprint multiplier while
   * Left Shift is held), is the target once `deltaTime * linearFOVDeltaMult`
   * reaches 1, stays put when that product is at most 0, and is never farther
   * from the target than before.
   */
  lemma StepBlendsFieldOfView(t: Tuning, s: RigState, i: FrameInput)
    ensures var fov := Step(t, s, i).output.fieldOfView;
            var target := if i.leftShift then s.baseFieldOfView * t.sprintSpeedFOVMult else s.baseFieldOfView;
            && Between(fov, i.fieldOfView, target)
            && (1.0 <= i.deltaTime * t.linearFOVDeltaMult ==> fov == target)
            && (i.deltaTime * t.linearFOVDeltaMult <= 0.0 ==> fov == i.fieldOfView)
            && Abs(fov - target) <= Abs(i.fieldOfView - target)
  {
  }

  /**
   * One frame's mouse look, for a consistent rig: when the cursor is visible
   * after the click stage, yaw and pitch are unchanged whatever the mouse did
   * and no rotation is written; when it is hidden, the yaw grows by
   * `mouseX * rotationSpeed`, the pitch is the clamped `pitch - mouseY *
   * rotationSpeed`, and the rotation is set to (pitch, yaw, 0).
   */
  lemma StepLooksOnlyWhenHidden(t: Tuning, s: RigState, i: FrameInput)
    requires Consistent(s)
    ensures var f := Step(t, s, i);
            && (f.state.isCursorVisible ==>
                  && f.state.horizontalRotation == s.horizontalRotation
                  && f.state.verticalRotation == s.verticalRotation
                  && f.output.rotation == Keep)
            && (!f.state.isCursorVisible ==>
                  && f.state.horizontalRotation == s.horizontalRotation + i.mouseX * t.rotationSpeed
                  && f.state.verticalRotation == Clamp(s.verticalRotation - i.mouseY * t.rotationSpeed, MinPitch, MaxPitch)
                  && f.output.rotation == SetEuler(Vector3(f.state.verticalRotation, f.state.horizontalRotation, 0.0)))
  {
  }

  /**
   * The gate reads the visibility written in the same frame: on the frame a
   * double click hides the cursor, the mouse already turns the camera, and on
   * the frame one shows it, the camera already stops.
   */
  lemma CaptureTakesEffectSameFrame(t: Tuning, s: RigState, i: FrameInput)
    requires Consistent(s)
    requires i.mouseButtonDown && IsDoubleClick(s.lastClickTime, i.time)
    ensures s.isCursorVisible ==> Step(t, s, i).output.rotation.SetEuler?
    ensures !s.isCursorVisible ==> Step(t, s, i).output.rotation == Keep
  {
  }

  /**
   * Sprinting scales the movement vector, and so the displacement, by exactly
   * 1.5 and leaves it horizontal; the new state and the rotation written do
   * not depend on the key.
   */
  lemma SprintScalesDisplacement(t: Tuning, s: RigState, i: FrameInput)
    ensures Movement(i.horizontal, i.vertical, t.movementSpeed, true) ==
            Scale(Movement(i.horizontal, i.vertical, t.movementSpeed, false), SprintMovementMult)
    ensures Step(t, s, i.(leftShift := true)).output.translation ==
            Scale(Step(t, s, i.(leftShift := false)).output.translation, SprintMovementMult)
    ensures Step(t, s, i.(leftShift := true)).output.translation.y == 0.0
    ensures Step(t, s, i.(leftShift := true)).state == Step(t, s, i.(leftShift := false)).state
    ensures Step(t, s, i.(leftShift := true)).output.rotation == Step(t, s, i.(leftShift := false)).output.rotation
  {
    var walk := Vector3(i.horizontal * t.movementSpeed, 0.0, i.vertical * t.movementSpeed);
    ScaleCommutes(walk, SprintMovementMult, i.deltaTime);
  }

  /**
   * Across any sequence of frames the invariant holds (the pitch never leaves
   * [-90, 90], the engine cursor agrees with `isCursorVisible`).
   */
  lemma {:induction false} RunKeepsInvariant(t: Tuning, r: RigAndCamera, inputs: seq<FrameInput>)
    requires Consistent(r.state)
    ensures Consistent(Run(t, r, inputs).state)
    ensures PitchInRange(Run(t, r, inputs).state.verticalRotation)
    decreases |inputs|
  {
    if inputs != [] {
      RunKeepsInvariant(t, Next(t, r, inputs[0]), inputs[1..]);
    }
  }

  /** From `Start` onwards the pitch stays in [-90, 90] and the base never changes. */
  lemma PitchBoundedFromStart(t: Tuning, cameraFieldOfView: real, inputs: seq<FrameInput>)
    ensures PitchInRange(Run(t, RigAndCamera(Initial(cameraFieldOfView), cameraFieldOfView), inputs).state.verticalRotation)
    ensures Run(t, RigAndCamera(Initial(cameraFieldOfView), cameraFieldOfView), inputs).state.baseFieldOfView == cameraFieldOfView
  {
    RunKeepsInvariant(t, RigAndCamera(Initial(cameraFieldOfView), cameraFieldOfView), inputs);
    RunKeepsBase(t, RigAndCamera(Initial(cameraFieldOfView), cameraFieldOfView), inputs);
  }

  /** Without clicks a visible cursor stays visible and the angles stay frozen. */
  lemma {:induction false} RunFrozenWhileVisible(t: Tuning, r: RigAndCamera, inputs: seq<FrameInput>)
    requires Consistent(r.state) && r.state.isCursorVisible
    requires forall k :: 0 <= k < |inputs| ==> !inputs[k].mouseButtonDown
    ensures Run(t, r, inputs).state.isCursorVisible
    ensures Run(t, r, inputs).state.horizontalRotation == r.state.horizontalRotation
    ensures Run(t, r, inputs).state.verticalRotation == r.state.verticalRotation
    decreases |inputs|
  {
    if inputs != [] {
      StepLooksOnlyWhenHidden(t, r.state, inputs[0].(fieldOfView := r.fieldOfView));
      RunFrozenWhileVisible(t, Next(t, r, inputs[0]), inputs[1..]);
    }
  }

  /** One closed-loop frame moves the field of view toward that frame's target. */
  lemma NextApproachesTarget(t: Tuning, r: RigAndCamera, i: FrameInput)
    ensures var fov, target := Next(t, r, i).fieldOfView, TargetFieldOfView(r.state.baseFieldOfView, t.sprintSpeedFOVMult, i.leftShift);
            && Abs(fov - target) <= Abs(r.fieldOfView - target)
            && (r.fieldOfView <= target ==> fov <= target)
            && (target <= r.fieldOfView ==> target <= fov)
    ensures Next(t, r, i).state.baseFieldOfView == r.state.baseFieldOfView
  {
  }

  /** Two moves toward a fixed value that never cross it make one such move. */
  lemma ApproachChains(a: real, b: real, c: real, target: real)
    requires Abs(b - target) <= Abs(a - target) && (a <= target ==> b <= target) && (target <= a ==> target <= b)
    requires Abs(c - target) <= Abs(b - target) && (b <= target ==> c <= target) && (target <= b ==> target <= c)
    ensures Abs(c - target) <= Abs(a - target) && (a <= target ==> c <= target) && (target <= a ==> target <= c)
  {
  }

  /**
   * While Left Shift is held throughout, or released throughout, the camera's
   * field of view ends no farther from that target than it started and never
   * crosses it.
   */
  lemma {:induction false} RunApproachesTarget(t: Tuning, r: RigAndCamera, inputs: seq<FrameInput>, sprint: bool)
    requires forall k :: 0 <= k < |inputs| ==> inputs[k].leftShift == sprint
    ensures var fov, target := Run(t, r, inputs).fieldOfView, TargetFieldOfView(r.state.baseFieldOfView, t.sprintSpeedFOVMult, sprint);
            && Abs(fov - target) <= Abs(r.fieldOfView - target)
            && (r.fieldOfView <= target ==> fov <= target)
            && (target <= r.fieldOfView ==> target <= fov)
    decreases |inputs|
  {
    if inputs != [] {
      var next := Next(t, r, inputs[0]);
      var target := TargetFieldOfView(r.state.baseFieldOfView, t.sprintSpeedFOVMult, sprint);
      NextApproachesTarget(t, r, inputs[0]);
      RunApproachesTarget(t, next, inputs[1..], sprint);
      assert next.state.baseFieldOfView == r.state.baseFieldOfView;
      ApproachChains(r.fieldOfView, next.fieldOfView, Run(t, next, inputs[1..]).fieldOfView, target);
    }
  }

  /**
   * The approach is monotone: with the key held or released throughout, each
   * further frame leaves the field of view no farther from the target.
   */
  lemma ApproachIsMonotone(t: Tuning, r: RigAndCamera, inputs: seq<FrameInput>, sprint: bool, j: nat)
    requires forall k :: 0 <= k < |inputs| ==> inputs[k].leftShift == sprint
    requires j < |inputs|
    ensures var target := TargetFieldOfView(r.state.baseFieldOfView, t.sprintSpeedFOVMult, sprint);
            Abs(Run(t, r, inputs[..j + 1]).fieldOfView - target) <= Abs(Run(t, r, inputs[..j]).fieldOfView - target)
  {
    var before := Run(t, r, inputs[..j]);
    assert inputs[..j + 1] == inputs[..j] + [inputs[j]];
    RunConcat(t, r, inputs[..j], [inputs[j]]);
    RunOne(t, before, inputs[j]);
    RunKeepsBase(t, r, inputs[..j]);
    NextApproachesTarget(t, before, inputs[j]);
  }

  /** No run of frames changes the base field of view `Start` captured. */
  lemma {:induction false} RunKeepsBase(t: Tuning, r: RigAndCamera, inputs: seq<FrameInput>)
    ensures Run(t, r, inputs).state.baseFieldOfView == r.state.baseFieldOfView
    decreases |inputs|
  {
    if inputs != [] {
      RunKeepsBase(t, Next(t, r, inputs[0]), inputs[1..]);
    }
  }

  /** The click stage of one closed-loop frame. */
  lemma NextClick(t: Tuning, r: RigAndCamera, i: FrameInput)
    ensures Next(t, r, i).state.isCursorVisible != r.state.isCursorVisible <==>
            i.mouseButtonDown && IsDoubleClick(r.state.lastClickTime, i.time)
    ensures Next(t, r, i).state.lastClickTime == if i.mouseButtonDown then i.time else r.state.lastClickTime
  {
  }

  /** A frame with only the given click and sprint key, everything else at rest. */
  function QuietFrame(click: bool, time: real, deltaTime: real, shift: bool): FrameInput
  {
    FrameInput(click, time, deltaTime, 0.0, 0.0, 0.0, 0.0, shift, 0.0)
  }

  /** Base 60, default multiplier 1.2 and rate 10, sprinting with deltaTime 1: the camera is at 72. */
  lemma SprintSaturatesInOneFrame(cameraFieldOfView: real)
    ensures Run(DefaultTuning, RigAndCamera(Initial(60.0), cameraFieldOfView), [QuietFrame(false, 1.0, 1.0, true)]).fieldOfView == 72.0
  {
    var i := QuietFrame(false, 1.0, 1.0, true);
    RunOne(DefaultTuning, RigAndCamera(Initial(60.0), cameraFieldOfView), i);
    StepBlendsFieldOfView(DefaultTuning, Initial(60.0), i.(fieldOfView := cameraFieldOfView));
  }

  /**
   * A double click after a quiet spell: the first click (at least 0.3 s after
   * the previous one) only restarts the clock, the second (less than 0.3 s
   * later) toggles the cursor, once.
   */
  lemma {:induction false} DoubleClickTogglesOnce(t: Tuning, r: RigAndCamera, t1: real, t2: real, dt: real)
    requires t1 - r.state.lastClickTime >= DoubleClickTime
    requires t2 - t1 < DoubleClickTime
    ensures var first := Run(t, r, [QuietFrame(true, t1, dt, false)]);
            && first.state.isCursorVisible == r.state.isCursorVisible
            && first.state.lastClickTime == t1
    ensures var second := Run(t, r, [QuietFrame(true, t1, dt, false), QuietFrame(true, t2, dt, false)]);
            && second.state.isCursorVisible == !r.state.isCursorVisible
            && second.state.lastClickTime == t2
  {
    var a, b := QuietFrame(true, t1, dt, false), QuietFrame(true, t2, dt, false);
    NextClick(t, r, a);
    NextClick(t, Next(t, r, a), b);
    RunOne(t, r, a);
    RunOne(t, Next(t, r, a), b);
    RunConcat(t, r, [a], [b]);
    assert [a] + [b] == [a, b];
  }

  /**
   * Because the click clock starts at 0 and `Time.time` counts from the start
   * of the application, two clicks with no click before them (the first while
   * `Time.time` < 0.3, the second less than 0.3 s after it, such as 0.0 and
   * 0.2) toggle twice: the first already counts as a double click, so the
   * cursor is hidden after it and visible again after the second.
   */
  lemma {:induction false} EarlyClicksAfterStartToggleTwice(t: Tuning, cameraFieldOfView: real, t1: real, t2: real, dt: real)
    requires t1 < DoubleClickTime && t2 - t1 < DoubleClickTime
    ensures var r := RigAndCamera(Initial(cameraFieldOfView), cameraFieldOfView);
            && !Run(t, r, [QuietFrame(true, t1, dt, false)]).state.isCursorVisible
            && Run(t, r, [QuietFrame(true, t1, dt, false), QuietFrame(true, t2, dt, false)]).state.isCursorVisible
  {
    var r := RigAndCamera(Initial(cameraFieldOfView), cameraFieldOfView);
    var a, b := QuietFrame(true, t1, dt, false), QuietFrame(true, t2, dt, false);
    NextClick(t, r, a);
    NextClick(t, Next(t, r, a), b);
    RunOne(t, r, a);
    RunOne(t, Next(t, r, a), b);
    RunConcat(t, r, [a], [b]);
    assert [a] + [b] == [a, b];
  }
}
