/**
 * The per-frame behaviour of the `CameraControls` component as functions on
 * values: one function per stage of `Update` (click toggle, mouse look,
 * movement, field-of-view blend) and `Step`, which runs them in the order the
 * component does. The class in module `CameraRig` is proved to compute `Step`.
 */
module CameraRules {
  import opened UnityMath

  /** The double-click window (a `readonly` field, 0.3 seconds). */
  const DoubleClickTime: real := 0.3
  /** The pitch limits used when clamping the vertical rotation. */
  const MinPitch: real := -90.0
  const MaxPitch: real := 90.0
  /** The hard-coded movement multiplier while Left Shift is held. */
  const SprintMovementMult: real := 1.5

  /** The component's public fields, which the Unity inspector may override. */
  datatype Tuning = Tuning(
    rotationSpeed: real,
    movementSpeed: real,
    sprintSpeedFOVMult: real,
    linearFOVDeltaMult: real)

  /** The field initializers of the public fields. */
  const DefaultTuning := Tuning(2.0, 5.0, 1.2, 10.0)

  /** Unity's `CursorLockMode`, restricted to the two values the component writes. */
  datatype CursorLockMode = None | Locked

  /** The engine's `Cursor`: the rig writes both settings and reads `visible` back. */
  datatype Cursor = Cursor(lockState: CursorLockMode, visible: bool)

  /** The cursor settings the rig writes for a given visibility. */
  function CursorFor(visible: bool): (c: Cursor)
    ensures c.visible == visible
    ensures c.lockState == Locked <==> !visible
  {
    Cursor(if visible then None else Locked, visible)
  }

  /**
   * Everything one frame reads from the engine: `Input.GetMouseButtonDown(0)`,
   * `Time.time`, `Time.deltaTime`, the "Mouse X"/"Mouse Y" and
   * "Horizontal"/"Vertical" axes, `Input.GetKey(KeyCode.LeftShift)` and the
   * camera's current `fieldOfView`.
   */
  datatype FrameInput = FrameInput(
    mouseButtonDown: bool,
    time: real,
    deltaTime: real,
    mouseX: real,
    mouseY: real,
    horizontal: real,
    vertical: real,
    leftShift: bool,
    fieldOfView: real)

  /** Whether a frame assigns `transform.rotation`, and to which Euler angles. */
  datatype RotationWrite = Keep | SetEuler(angles: Vector3)

  /**
   * Everything one frame writes back: the camera's new `fieldOfView`, the
   * rotation (if any) and the argument of `transform.Translate`.
   */
  datatype FrameOutput = FrameOutput(
    fieldOfView: real,
    rotation: RotationWrite,
    translation: Vector3)

  /** The component's private fields together with the engine cursor it drives. */
  datatype RigState = RigState(
    isCursorVisible: bool,
    lastClickTime: real,
    horizontalRotation: real,
    verticalRotation: real,
    baseFieldOfView: real,
    cursor: Cursor)

  datatype Frame = Frame(state: RigState, output: FrameOutput)

  /** The pitch limit the component maintains. */
  predicate PitchInRange(pitch: real)
  {
    MinPitch <= pitch <= MaxPitch
  }

  /**
   * The rig's invariant: the pitch is within its limits, and the engine cursor
   * shows exactly the visibility the rig believes in, locked exactly when hidden.
   */
  predicate Consistent(s: RigState)
  {
    PitchInRange(s.verticalRotation) && s.cursor == CursorFor(s.isCursorVisible)
  }

  /**
   * The state right after `Start`: the cursor is visible and unlocked (Unity's
   * default), the click clock and both angles are 0, and the base field of view
   * is the camera's value at that moment.
   */
  function Initial(cameraFieldOfView: real): (s: RigState)
    ensures Consistent(s)
    ensures s.isCursorVisible && s.lastClickTime == 0.0
    ensures s.horizontalRotation == 0.0 && s.verticalRotation == 0.0
    ensures s.baseFieldOfView == cameraFieldOfView
  {
    RigState(true, 0.0, 0.0, 0.0, cameraFieldOfView, CursorFor(true))
  }

  /** The double-click test: strictly less than the window since the previous click. */
  predicate IsDoubleClick(lastClickTime: real, now: real)
  {
    now - lastClickTime < DoubleClickTime
  }

  /**
   * Stage 1: a click toggles visibility exactly when it is a double click; a
   * toggle rewrites the engine cursor to match; every click, toggling or not,
   * restarts the click clock; without a click nothing changes.
   */
  function Click(s: RigState, buttonDown: bool, now: real): (r: RigState)
    ensures r.isCursorVisible != s.isCursorVisible <==> buttonDown && IsDoubleClick(s.lastClickTime, now)
    ensures r.lastClickTime == (if buttonDown then now else s.lastClickTime)
    ensures r.isCursorVisible != s.isCursorVisible ==> r.cursor == CursorFor(r.isCursorVisible)
    ensures r.isCursorVisible == s.isCursorVisible ==> r.cursor == s.cursor
    ensures Consistent(s) ==> Consistent(r)
    ensures r.horizontalRotation == s.horizontalRotation && r.verticalRotation == s.verticalRotation
    ensures r.baseFieldOfView == s.baseFieldOfView
  {
    if !buttonDown then s
    else
      var toggled := if IsDoubleClick(s.lastClickTime, now)
        then s.(isCursorVisible := !s.isCursorVisible, cursor := CursorFor(!s.isCursorVisible))
        else s;
      toggled.(lastClickTime := now)
  }

  /**
   * Stage 2: mouse look, gated on the engine cursor's visibility. While the
   * cursor is visible the angles are frozen for any mouse delta; while it is
   * hidden the yaw grows by `mouseX * rotationSpeed` and the pitch, moved against
   * `mouseY`, is clamped into [-90, 90].
   */
  function Look(s: RigState, mouseX: real, mouseY: real, rotationSpeed: real): (r: RigState)
    ensures s.cursor.visible ==> r == s
    ensures !s.cursor.visible ==> r.horizontalRotation == s.horizontalRotation + mouseX * rotationSpeed
    ensures !s.cursor.visible ==> PitchInRange(r.verticalRotation)
    ensures !s.cursor.visible && PitchInRange(s.verticalRotation - mouseY * rotationSpeed) ==>
              r.verticalRotation == s.verticalRotation - mouseY * rotationSpeed
    ensures PitchInRange(s.verticalRotation) ==> PitchInRange(r.verticalRotation)
    ensures r.(horizontalRotation := s.horizontalRotation, verticalRotation := s.verticalRotation) == s
  {
    if s.cursor.visible then s
    else
      s.(horizontalRotation := s.horizontalRotation + mouseX * rotationSpeed,
         verticalRotation := Clamp(s.verticalRotation - mouseY * rotationSpeed, MinPitch, MaxPitch))
  }

  /** Stage 3: the per-second movement vector, with no vertical component. */
  function Movement(horizontal: real, vertical: real, movementSpeed: real, sprint: bool): (r: Vector3)
    ensures r.y == 0.0
  {
    var walk := Vector3(horizontal * movementSpeed, 0.0, vertical * movementSpeed);
    if sprint then Scale(walk, SprintMovementMult) else walk
  }

  /** Stage 3: the field of view the camera is blended toward. */
  function TargetFieldOfView(baseFieldOfView: real, sprintSpeedFOVMult: real, sprint: bool): real
  {
    if sprint then baseFieldOfView * sprintSpeedFOVMult else baseFieldOfView
  }

  /** The Euler angles (pitch, yaw, 0) the rotation is set from. */
  function Euler(s: RigState): Vector3
  {
    Vector3(s.verticalRotation, s.horizontalRotation, 0.0)
  }

  /**
   * One call of `Update`: the stages in order, with the rotation gate reading
   * the visibility the click stage has just written. The base field of view and
   * the invariant are kept; a click toggles visibility exactly on a double
   * click and always restarts the click clock; the rotation is written
   * exactly when the cursor is hidden after the click stage, from the new angles;
   * the field-of-view blend is described by lemmas in `CameraProperties`.
   */
  function Step(t: Tuning, s: RigState, i: FrameInput): (f: Frame)
    ensures f.state.baseFieldOfView == s.baseFieldOfView
    ensures Consistent(s) ==> Consistent(f.state)
    ensures f.state.isCursorVisible != s.isCursorVisible <==> i.mouseButtonDown && IsDoubleClick(s.lastClickTime, i.time)
    ensures f.state.lastClickTime == (if i.mouseButtonDown then i.time else s.lastClickTime)
    ensures f.output.rotation.SetEuler? <==> !f.state.cursor.visible
    ensures f.output.rotation.SetEuler? ==> f.output.rotation.angles == Euler(f.state)
    ensures f.output.translation.y == 0.0
  {
    var clicked := Click(s, i.mouseButtonDown, i.time);
    var looked := Look(clicked, i.mouseX, i.mouseY, t.rotationSpeed);
    var rotation := if !clicked.cursor.visible then SetEuler(Euler(looked)) else Keep;
    var movement := Movement(i.horizontal, i.vertical, t.movementSpeed, i.leftShift);
    var finalFOV := TargetFieldOfView(s.baseFieldOfView, t.sprintSpeedFOVMult, i.leftShift);
    var fov := Lerp(i.fieldOfView, finalFOV, i.deltaTime * t.linearFOVDeltaMult);
    Frame(looked, FrameOutput(fov, rotation, Scale(movement, i.deltaTime)))
  }
}
