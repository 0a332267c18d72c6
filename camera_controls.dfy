/**
 * The `CameraControls` component itself: its fields, `Start` (here the
 * constructor) and `Update`, which changes the fields in place stage by stage.
 * The engine calls it makes become the `FrameInput` it is given and the
 * `FrameOutput` it returns; the engine `Cursor`, which only this component
 * writes, is held in two fields of its own.
 */
module CameraRig {
  import opened UnityMath
  import opened CameraRules

  class CameraControls {
    var rotationSpeed: real
    var movementSpeed: real

    var isCursorVisible: bool
    var lastClickTime: real

    var horizontalRotation: real
    var verticalRotation: real

    var baseFieldOfView: real
    var sprintSpeedFOVMult: real

    var linearFOVDeltaMult: real

    /** The engine's `Cursor.lockState` and `Cursor.visible`. */
    var cursorLockState: CursorLockMode
    var cursorVisible: bool

    /** The pitch limit holds and the engine cursor agrees with `isCursorVisible`. */
    ghost predicate Valid()
      reads this
    {
      Consistent(State())
    }

    /** The private fields and the engine cursor, as a value. */
    function State(): RigState
      reads this
    {
      RigState(isCursorVisible, lastClickTime, horizontalRotation, verticalRotation,
               baseFieldOfView, Cursor(cursorLockState, cursorVisible))
    }

    /** The public tunable fields, as a value. */
    function Tunables(): Tuning
      reads this
    {
      Tuning(rotationSpeed, movementSpeed, sprintSpeedFOVMult, linearFOVDeltaMult)
    }

    /**
     * The field initializers followed by `Start`, which captures the camera's
     * field of view once as the base. `tuning` stands for the values the
     * inspector gives the public fields (`DefaultTuning` when untouched).
     */
    constructor (cameraFieldOfView: real, tuning: Tuning)
      ensures Valid()
      ensures State() == Initial(cameraFieldOfView)
      ensures Tunables() == tuning
    {
      rotationSpeed := tuning.rotationSpeed;
      movementSpeed := tuning.movementSpeed;
      isCursorVisible := true;
      lastClickTime := 0.0;
      horizontalRotation := 0.0;
      verticalRotation := 0.0;
      sprintSpeedFOVMult := tuning.sprintSpeedFOVMult;
      linearFOVDeltaMult := tuning.linearFOVDeltaMult;
      cursorLockState := None;
      cursorVisible := true;
      baseFieldOfView := cameraFieldOfView;
    }

    /**
     * One frame. The new fields and the outputs are exactly those of
     * `CameraRules.Step`; the base field of view and the tunables are untouched.
     */
    method Update(input: FrameInput) returns (output: FrameOutput)
      requires Valid()
      modifies this`isCursorVisible, this`lastClickTime, this`horizontalRotation,
               this`verticalRotation, this`cursorLockState, this`cursorVisible
      ensures Valid()
      ensures baseFieldOfView == old(baseFieldOfView)
      ensures Tunables() == old(Tunables())
      ensures Step(old(Tunables()), old(State()), input) == Frame(State(), output)
    {
      HandleClick(input.mouseButtonDown, input.time);
      var rotation := Rotate(input.mouseX, input.mouseY);

      // Movement and sprint
      var horizontalMovement := input.horizontal * movementSpeed;
      var verticalMovement := input.vertical * movementSpeed;
      var movement := Vector3(horizontalMovement, 0.0, verticalMovement);

      var finalFOV := baseFieldOfView;
      if input.leftShift {
        movement := Scale(movement, SprintMovementMult);
        finalFOV := finalFOV * sprintSpeedFOVMult;
      }
      assert movement == Movement(input.horizontal, input.vertical, movementSpeed, input.leftShift);
      assert finalFOV == TargetFieldOfView(baseFieldOfView, sprintSpeedFOVMult, input.leftShift);
      var fieldOfView := Lerp(input.fieldOfView, finalFOV, input.deltaTime * linearFOVDeltaMult);

      output := FrameOutput(fieldOfView, rotation, Scale(movement, input.deltaTime));
    }

    /** The double-click stage of `Update`. */
    method HandleClick(buttonDown: bool, now: real)
      modifies this`isCursorVisible, this`lastClickTime, this`cursorLockState, this`cursorVisible
      ensures State() == Click(old(State()), buttonDown, now)
    {
      if buttonDown {
        var timeSinceLastClick := now - lastClickTime;
        if timeSinceLastClick < DoubleClickTime {
          isCursorVisible := !isCursorVisible;
          cursorLockState := if isCursorVisible then None else Locked;
          cursorVisible := isCursorVisible;
        }
        lastClickTime := now;
      }
    }

    /**
     * The mouse-look stage of `Update`: the angles change only while the engine
     * cursor is hidden, and then the rotation is written from them.
     */
    method Rotate(mouseX: real, mouseY: real) returns (rotation: RotationWrite)
      modifies this`horizontalRotation, this`verticalRotation
      ensures State() == Look(old(State()), mouseX, mouseY, rotationSpeed)
      ensures rotation == if cursorVisible then Keep else SetEuler(Euler(State()))
    {
      rotation := Keep;
      if !cursorVisible {
        horizontalRotation := horizontalRotation + mouseX * rotationSpeed;
        verticalRotation := verticalRotation - mouseY * rotationSpeed;
        verticalRotation := Clamp(verticalRotation, MinPitch, MaxPitch);
        rotation := SetEuler(Vector3(verticalRotation, horizontalRotation, 0.0));
      }
    }
  }
}
