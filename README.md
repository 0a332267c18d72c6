# CameraControls: a Dafny model of a first-person camera rig

`CameraControls` is a Unity component for a first-person camera. Every frame:

- a double click on the left mouse button toggles cursor capture;
- while the cursor is captured, the mouse turns the camera, with yaw unbounded and pitch clamped to [-90, 90];
- the WASD axes move the camera in its own local frame;
- holding Left Shift multiplies the movement by 1.5 and moves the field-of-view target to base × `sprintSpeedFOVMult` (1.2 by default); the live field of view is blended toward the current target every frame.

This project models that component's state and its per-frame update, and proves what the update keeps true.

Files and modules:

- `unity_math.dfy`, module `UnityMath`: over `real`, the engine helpers the component calls, and the `Clamp01` that `Mathf.Lerp` applies to its factor. The helpers are `Mathf.Clamp`, `Mathf.Lerp` and `Vector3` scaling.
- `camera_rules.dfy`, module `CameraRules`: the component's state, its input snapshot and output record, and one function per stage of `Update`. `Step` composes the stages in the source's order.
- `camera_controls.dfy`, module `CameraRig`: the class `CameraControls`. It has the component's fields, a constructor standing for the field initializers plus `Start`, and an imperative `Update` that changes the fields stage by stage. `Update` is proved to compute exactly `CameraRules.Step`.
- `camera_properties.dfy`, module `CameraProperties`: `Run`, which applies `Step` frame after frame, and the lemmas about single frames, whole runs and concrete scenarios.

Modelling decisions:

- Engine reads become fields of `FrameInput`: the mouse button, `Time.time`, `Time.deltaTime`, the four axes, the shift key and the camera's current `fieldOfView`.
- Engine writes become fields of `FrameOutput`: the new field of view, the rotation (as Euler angles, or none when it is not written) and the argument of `transform.Translate`.
- The rotation gate (CameraControls.cs:61) reads the engine's `Cursor.visible`, not the private `isCursorVisible`. The model therefore holds the engine cursor (`lockState`, `visible`) as state of its own. `RunKeepsInvariant` proves that the invariant `Consistent` (pitch in [-90, 90], engine cursor equal to `CursorFor(isCursorVisible)`) holds after every frame. This relies on nothing else writing the cursor, and on Unity's defaults at start (visible, unlocked).
- `Mathf.Lerp` is modelled as `a + (b - a) * Clamp01(t)`. The clamped factor is an assumption about the engine, matching Unity's documentation; the no-overshoot and saturation properties depend on it.
- In `Run`, each frame sees the field of view that the previous frame wrote. This assumes nothing else writes the camera's field of view, and that the tunables do not change during the run.
- The click clock starts at 0 (CameraControls.cs:30), and `Time.time` counts from the start of the application, not from this component's `Start`. So, before any click, a click while `Time.time` < 0.3 already counts as a double click. One might expect clicks at 0.0 and 0.2 to toggle capture once. The code toggles twice, and the model follows the code. `EarlyClicksAfterStartToggleTwice` proves the code's behaviour. `DoubleClickTogglesOnce` proves the expected behaviour when the previous click was at least 0.3 s earlier.
- `UnityMath.Scale` is simply the definition of Unity's `Vector3 * float`; the law the component relies on (scaling by 1.5 and then by `deltaTime`) is `UnityMath.ScaleCommutes`.

## Model

| member | source | states |
|---|---|---|
| `UnityMath.Clamp` | CameraControls.cs:68 | The result is within [min, max] when min <= max. It equals the value inside the range and the violated bound outside it. |
| `UnityMath.Clamp01` | CameraControls.cs:86-89 | The interpolation factor is forced into [0, 1]. Factors already in range are unchanged; factors at or above 1 become 1, and factors at or below 0 become 0. |
| `UnityMath.Lerp` | CameraControls.cs:86-89 | The blended value lies between the two end points. It is the start for a factor at or below 0, and the target for a factor at or above 1. |
| `UnityMath.LerpApproaches` | CameraControls.cs:86-89 | After one blend, the distance to the target is the old distance times (1 - clamped factor). So it never grows, and the value stays on the side of the target where it started. |
| `UnityMath.ScaleCommutes` | CameraControls.cs:82-91 | Scaling a vector twice is scaling it once by the product, in either order, so movement × 1.5 × `deltaTime` equals movement × `deltaTime` × 1.5. |
| `CameraRules.CursorFor` | CameraControls.cs:54-55 | The cursor written after a toggle has the new visibility, and its lock state is `Locked` exactly when it is hidden. |
| `CameraRules.Initial` | CameraControls.cs:28-43 | Right after `Start`: the cursor is visible, the click clock and both angles are 0, and the base field of view is the camera's value. The invariant holds. |
| `CameraRules.IsDoubleClick` | CameraControls.cs:50-51 | A plain definition of the strict test `now - lastClickTime < 0.3`. Its promises are stated by `CameraRules.Click` and `CameraProperties.NextClick`: a click toggles exactly when the test holds, so a gap of exactly 0.3 or more does not. |
| `CameraRules.Click` | CameraControls.cs:48-58 | Visibility flips if and only if there is a click and `now - lastClickTime < 0.3` (strict). Every click sets `lastClickTime` to `now`, and without a click nothing changes. A toggle rewrites the cursor to match, and the invariant is kept. Angles and base field of view are untouched. |
| `CameraRules.Look` | CameraControls.cs:60-71 | While the engine cursor is visible, the state is unchanged for any mouse delta. While it is hidden, yaw grows by `mouseX * rotationSpeed` and pitch ends in [-90, 90]; it equals `pitch - mouseY * rotationSpeed` whenever that is in range. No other field changes. |
| `CameraRules.Movement` | CameraControls.cs:74-84 | The movement vector has no vertical component. |
| `CameraRules.TargetFieldOfView` | CameraControls.cs:79-83 | A plain definition of `finalFOV`: base × `sprintSpeedFOVMult` with shift held, base otherwise. Its promises are stated by `CameraProperties.StepBlendsFieldOfView` and `CameraProperties.NextApproachesTarget`: the camera blends toward it without overshooting, and reaches it once `deltaTime * linearFOVDeltaMult >= 1`. |
| `CameraRules.Euler` | CameraControls.cs:70 | A plain definition of the (pitch, yaw, 0) argument of line 70. Its promises are stated by `CameraRules.Step` (the rotation is written exactly when the cursor is hidden, from the new angles) and `CameraProperties.StepLooksOnlyWhenHidden` (the write is `SetEuler(Vector3(pitch, yaw, 0.0))` with the clamped pitch and the accumulated yaw). |
| `CameraRules.Step` | CameraControls.cs:45-92 | One frame keeps the base field of view and the invariant. Visibility flips exactly on a strict double click, and every click restarts the click clock. A rotation is written exactly when the cursor is hidden after the click stage, from (pitch, yaw, 0). The translation is horizontal. |
| `CameraRig.CameraControls.constructor` | CameraControls.cs:25-43 | The fields start as their initializers say, the base field of view is captured once from the camera, and the invariant `Valid` holds. |
| `CameraRig.CameraControls.Update` | CameraControls.cs:45-92 | `Update` keeps `Valid` (pitch in [-90, 90], cursor agreeing with `isCursorVisible`). It leaves `baseFieldOfView` and the tunables unchanged. Its new fields and its outputs are exactly those of `CameraRules.Step` on the old state. |
| `CameraRig.CameraControls.HandleClick` | CameraControls.cs:48-58 | The click stage changes the fields exactly as `CameraRules.Click`. |
| `CameraRig.CameraControls.Rotate` | CameraControls.cs:60-71 | The look stage changes the angles exactly as `CameraRules.Look`, and writes the rotation only while the cursor is hidden. |
| `CameraProperties.StepBlendsFieldOfView` | CameraControls.cs:79-89 | The target is base × `sprintSpeedFOVMult` with shift held, and base otherwise. The new field of view lies between the camera's value and the target, and never moves away from the target. It equals the target when `deltaTime * linearFOVDeltaMult >= 1`, and keeps its old value when that product is <= 0. |
| `CameraProperties.StepLooksOnlyWhenHidden` | CameraControls.cs:60-71 | With the cursor visible after the click stage, yaw and pitch are unchanged and no rotation is written. With it hidden, yaw grows by `mouseX * rotationSpeed` and pitch is `Clamp(pitch - mouseY * rotationSpeed, -90, 90)`. |
| `CameraProperties.CaptureTakesEffectSameFrame` | CameraControls.cs:51-61 | The gate reads the visibility written in the same frame. A double click that hides the cursor turns the camera in that frame; one that shows it stops the camera in that frame. |
| `CameraProperties.SprintScalesDisplacement` | CameraControls.cs:74-91 | With shift held, the movement vector and the translation are exactly 1.5× their values without shift, with the vertical component 0. The key affects neither the new state nor the rotation written. |
| `CameraProperties.RunKeepsInvariant` | CameraControls.cs:53-68 | Over any sequence of frames, pitch stays in [-90, 90] and the engine cursor agrees with `isCursorVisible`. |
| `CameraProperties.RunKeepsBase` | CameraControls.cs:40-92 | No sequence of frames changes the base field of view. |
| `CameraProperties.PitchBoundedFromStart` | CameraControls.cs:30-68 | From `Start` on, pitch is in [-90, 90] after any frames, and the base field of view is the camera's value at `Start`. |
| `CameraProperties.RunFrozenWhileVisible` | CameraControls.cs:48-71 | Without clicks, a visible cursor stays visible and yaw and pitch stay frozen, whatever the mouse does. |
| `CameraProperties.NextApproachesTarget` | CameraControls.cs:79-89 | One frame in which the camera keeps its own field of view moves it no farther from the target and never across it. |
| `CameraProperties.RunApproachesTarget` | CameraControls.cs:79-89 | With shift held, or released, for a whole run, the field of view ends no farther from the target than it started. It never crosses the target, so release means no overshoot past the base. |
| `CameraProperties.ApproachIsMonotone` | CameraControls.cs:79-89 | Under the same condition, each additional frame leaves the field of view no farther from the target than the frame before. |
| `CameraProperties.NextClick` | CameraControls.cs:48-58 | In one frame, visibility flips if and only if there is a click with `now - lastClickTime < 0.3`, and the click clock becomes `now` on every click. |
| `CameraProperties.SprintSaturatesInOneFrame` | CameraControls.cs:36-89 | Setup: base 60, default multiplier 1.2, rate 10, shift held, `deltaTime` 1. The camera is at 72 after one frame, from any starting field of view. |
| `CameraProperties.DoubleClickTogglesOnce` | CameraControls.cs:48-58 | Take a click at least 0.3 s after the previous one, followed by a click less than 0.3 s later. The first only restarts the clock; the second toggles capture once. |
| `CameraProperties.EarlyClicksAfterStartToggleTwice` | CameraControls.cs:29-58 | Because the clock starts at 0, the first click while `Time.time` < 0.3 already toggles. A second click within 0.3 s toggles back, so clicks at `Time.time` 0.0 and 0.2 toggle twice. |

## Left out

- Unity input and time (`Input.GetMouseButtonDown`, `Input.GetAxis`, `Input.GetKey`, `Time.time`, `Time.deltaTime`): modelled only as the fields of `FrameInput`.
- Engine writes: the write to `Camera.fieldOfView`, `Quaternion.Euler` and `transform.Translate` are engine geometry. The model gives only their arguments in `FrameOutput`: the new field of view, the (pitch, yaw, 0) angles and the local displacement `movement * deltaTime`.
- `GetComponent<Camera>()`: modelled as a value passed to the constructor. A missing camera, which makes `Start` fail, is not modelled.
- IEEE single-precision rounding, NaN and infinities: all floats are `real`, and `1.20f`, `0.3f` are taken as the exact decimals 1.2 and 0.3.
- Changes to the public tunables, the cursor or the camera's field of view made by anything other than this component between frames: `Run` assumes there are none.
- The order of engine callbacks: the constructor stands for the field initializers plus `Start`, and `Update` is assumed to run only after it.
- The unused `System.Collections` imports carry no behaviour.
