# Dragdrop.js drag controller in Dafny

A model of the `Dragdrop` constructor of Dragdrop.js: one controller that makes
elements of a page draggable with the mouse, optionally along one axis only,
snapped to a grid and kept inside a box. The model keeps the controller's
closure state (`elem`, `started`, `moveHandler` and the surface size
`gWidth`/`gHeight`), the per-element attributes the code reads and writes, and
the four handlers: pointer-down (`start`), pointer-move (`move`), pointer-up
(`stop`) and the public `set`.

Files:

- `Geometry.dfy` (module `Geometry`): JavaScript's truncated remainder
  (`JsRem`), the snapped coordinate `raw - raw % snap` (`Snap`), the bounds
  check of one axis (`Clamp`) and the surface size (`SurfaceExtent`).
- `Profile.dfy` (module `Profile`): the element record, the profile `set`
  attaches, the options with their `||` defaults (`Configure`), the position
  after one move (`Moved`) and the class-name test (`IndexOf`, `IsDraggable`).
- `Trace.dfy` (module `Trace`): the user callbacks as a trace of calls, and the
  ordering facts they obey (`InDrag`, `WellFormed`).
- `Controller.dfy` (module `Dragdrop`): class `Controller` with the handlers as
  methods over its fields, and client methods that run whole drags through the
  methods' contracts.

How the source is represented:

- The page's elements are a map `elems` from element id to an `Element` record.
  `left`/`top` is one field per axis: the code writes `style.left` and later in
  the same event reads `offsetLeft`, and the model reads back what it wrote.
  `offsetWidth`/`offsetHeight` are `width`/`height`.
- The profile `set` attaches (`mode`, bounds, `snap`, callbacks) is
  `profile: Option<Profile>`; `None` is the state in which `elem.mode` is
  undefined, which is what makes `start` call `set` lazily.
- `evt.attach` of the move listener adds a fresh handle (the counter
  `nextHandle`) to the set `handles`; `evt.detach` removes it. `evt.prevent`
  is the `prevented` result of `Start`.
- The user callbacks are entries appended to `trace`: which hook, the handler
  the profile held (`NoOp` for the default `function () {}`), and the element
  passed.
- `%` is JavaScript's: the remainder takes the sign of the dividend. A
  negative `snap` (which `options.snap || 1` lets through) is handled the same
  way; only zero is excluded, and `set` never stores zero.
- `started` is kept as the integer 0/1 the code uses.

Behaviour of the code that the model keeps although a reader might expect
otherwise:

- A second pointer-down during a drag is not ignored: `start` tests only the
  class name, so it attaches another move listener and overwrites
  `moveHandler`. The first listener is never detached (`DoublePress`).
- The element is not kept at or right of `minX` (or below `minY`): the floor is
  tested against the raw pointer position, so a raw position just above `minX`
  snaps toward zero to a grid point below it (`SnapCanUndershootMinX`), and
  when the box is narrower than the element the upper clamp overrides the
  floor (`NarrowBoxUndershootsMinX`). What does hold is the trailing-edge bound
  and the floor when the pointer is at or past it and the element fits (`MovedSpec`).
- `stop` leaves `elem` set; `set` retargets later moves even during a drag
  (`SetRetargetsMoves`).
- A supplied `0` for `maxX`, `maxY` or `snap` is replaced by the default
  (`ZeroOptionIsAbsent`).

## Model

| member | source | states |
|---|---|---|
| Geometry.JsRem | Dragdrop.js:31-32 | the remainder is smaller than the divisor in magnitude, has the sign of the dividend, and dividend minus remainder is a multiple of the divisor |
| Geometry.JsRemUnique | Dragdrop.js:31-32 | those three properties determine the JavaScript remainder uniquely |
| Geometry.JsRemOfNonNegative | Dragdrop.js:31-32 | for a non-negative dividend and positive divisor it equals Dafny's remainder |
| Geometry.JsRemOfNegative | Dragdrop.js:31-32 | for a negative dividend that is not a multiple it is Dafny's remainder minus the divisor |
| Geometry.Snap | Dragdrop.js:31-45 | the written coordinate is a multiple of snap, lies between 0 and the raw position, and is less than one grid step from it |
| Geometry.SnapIsNearestTowardZero | Dragdrop.js:31-45 | no grid point between 0 and the raw position is farther from 0 than the snapped one |
| Geometry.SnapFixesGridPoints | Dragdrop.js:31-45 | a raw position already on the grid is written unchanged |
| Geometry.SnapIdempotent | Dragdrop.js:31-45 | snapping a snapped position changes nothing |
| Geometry.Clamp | Dragdrop.js:48-66 | after one axis's bounds check the trailing edge is at most the upper bound; a raw position at or below the floor gives the floor when the element fits above it and the upper bound minus the size when it does not; above the floor the position is kept when its trailing edge is below the upper bound and replaced by the upper bound minus the size otherwise |
| Geometry.SurfaceExtent | Dragdrop.js:24-29 | the surface size is the larger of the scroll and client extents |
| Profile.OrNumber | Dragdrop.js:108-113 | a non-zero supplied option is used; an absent option or 0 gives the default |
| Profile.OrNoOp | Dragdrop.js:114-116 | a supplied callback is used; an absent one becomes the no-op |
| Profile.Configure | Dragdrop.js:102-116 | the profile's snap is never 0; each of mode, minX, maxX, minY, maxY and snap is the supplied value when it is non-zero and its default (0, 0, gWidth, 0, gHeight, 1) when it is absent or 0; each callback is the supplied one when given and the no-op otherwise |
| Profile.ZeroOptionIsAbsent | Dragdrop.js:108-113 | supplying 0 for mode, maxX, maxY or snap yields the same profile as leaving it out |
| Profile.Moved | Dragdrop.js:30-66 | a move changes only left and top (its full behaviour is stated by MovedSpec and MovedOnGridOrBound) |
| Profile.MovedSpec | Dragdrop.js:30-66 | a move changes only left/top; mode 1 keeps top and mode 2 keeps left; on a clamped axis the trailing edge stays within the upper bound; a raw position at or below the floor gives the floor when the element fits and the upper bound minus the extent when it does not; above the floor the snapped raw position is written when it fits and the upper bound minus the extent otherwise; above the floor, a mode other than 0, 1 and 2 keeps the position unless the upper bound pulls it back |
| Profile.MovedOnGridOrBound | Dragdrop.js:31-66 | in modes 0 and 1 the new left is the snapped raw position, minX or maxX minus the width, and when no bound was hit it is a multiple of snap, no farther from 0 than the raw position and less than one grid step from it; likewise top in modes 0 and 2 |
| Profile.Grabbed | Dragdrop.js:79-85 | a pointer-down changes only posX, posY and the profile: the pointer offset is recorded so that position plus offset is the pointer, an existing profile is kept, an unconfigured element gets exactly the fallback profile, and the result is usable when the fallback has a non-zero snap |
| Dragdrop.InvAfterSet | Dragdrop.js:101-106 | retargeting to an element and giving it a profile with a non-zero snap keeps the controller invariant |
| Dragdrop.InvAfterStart | Dragdrop.js:71-89 | a pointer-down on a draggable element keeps the controller invariant, and the handle it attaches is not already attached |
| Dragdrop.InvAfterMove | Dragdrop.js:34-68 | during a drag, replacing the target's record by one with the same profile and appending onMove keeps the controller invariant |
| Dragdrop.InvAfterStop | Dragdrop.js:90-96 | a pointer-up during a drag keeps the controller invariant with the drag closed |
| Profile.SnapCanUndershootMinX | Dragdrop.js:40-55 | raw 15 with minX 12 and snap 10 leaves left at 10, below minX |
| Profile.NarrowBoxUndershootsMinX | Dragdrop.js:48-55 | a box narrower than the element puts left at maxX - width, below minX |
| Profile.IndexOfFrom | Dragdrop.js:72 | the search from a position returns -1 or a position at or after it where the marker fits; IndexOfFromCorrect states that it is the first occurrence |
| Profile.IndexOf | Dragdrop.js:72 | indexOf returns -1 or a position where the marker fits inside the string; IndexOfCorrect states that it is the first occurrence |
| Profile.IndexOfFromCorrect | Dragdrop.js:72 | indexOf from a position returns -1 when the marker does not occur from there on, otherwise its first occurrence from there |
| Profile.IndexOfCorrect | Dragdrop.js:72 | indexOf is not -1 exactly when the marker occurs in the class name, and then it is the first occurrence |
| Profile.IsDraggable | Dragdrop.js:72 | a class name that passes the test is at least as long as the marker; DraggableBySubstring and IndexOfCorrect state that it passes exactly when it contains the marker |
| Profile.DraggableBySubstring | Dragdrop.js:72 | any class name containing "draggable" as a substring passes the test |
| Trace.StopsNeverExceedStarts | Dragdrop.js:77-96 | in any trace the handlers produce, onStop calls never outnumber onStart calls, and are fewer while a drag is open |
| Trace.ClosedAfterStop | Dragdrop.js:90-93 | after an onStop with no later onStart, no drag is open |
| Trace.OpenBefore | Dragdrop.js:34-96 | every onMove and onStop in a trace the handlers produce comes while a drag is open |
| Trace.NoCallAfterStopUntilStart | Dragdrop.js:34-96 | after an onStop, no onMove or onStop occurs until a new onStart |
| Dragdrop.Controller.constructor | Dragdrop.js:18-29 | nothing is targeted or started, no move listener is attached, and the surface size is the larger of scroll and client extents per axis |
| Dragdrop.Controller.Set | Dragdrop.js:101-122 | the element gets the defaulted profile and becomes the target of later moves; nothing else changes; the controller invariant is kept |
| Dragdrop.Controller.Start | Dragdrop.js:71-89 | a non-draggable target changes nothing; a draggable one attaches exactly one fresh move listener, becomes the started target, gets posX/posY from the pointer and its position, is configured with defaults only if unconfigured, and gets one onStart appended |
| Dragdrop.Controller.Move | Dragdrop.js:30-70 | while not started nothing changes; while started the target becomes Moved of itself and exactly one onMove is appended after the writes; nothing else changes |
| Dragdrop.Controller.Stop | Dragdrop.js:90-96 | while not started nothing changes; otherwise started becomes 0, exactly one onStop for the current target is appended and the current move listener is detached; elem is kept |
| Dragdrop.DragOnce | Dragdrop.js:71-96 | a press, a move and a release give onStart, onMove, onStop, leave no move listener attached, and a later move changes nothing |
| Dragdrop.DoublePress | Dragdrop.js:71-96 | two presses and a release give onStart, onStart, onStop and leave the first move listener attached |
| Dragdrop.PressElsewhere | Dragdrop.js:71-89 | a press on an element without the marker records no callback, attaches nothing and starts no drag |
| Dragdrop.GrabbedBoxMove | Dragdrop.js:30-66 | a 50x50 element grabbed 10 px from its corner, snap 10, box 200x200, moved to (235, 50), ends at left 150 and top 40 |
| Dragdrop.ClampToRightEdge | Dragdrop.js:30-122 | the same scenario driven through set, start and move ends at left 150, top 40 |
| Dragdrop.SetRetargetsMoves | Dragdrop.js:101-106 | a set during a drag makes the next move move the newly set element and leaves the grabbed one in place |

## Left out

- Event.js: `attach`, `detach` and `prevent` are foreign calls; a listener is a
  handle in a set, `prevent` is a returned flag. The pointer-down and pointer-up
  listeners attached at construction are not recorded.
- A move is one call of `Move`; the event source calling it once per attached
  listener (twice after a double press) is not modelled.
- `document.getElementById` when `set` is given a string: `Set` takes an element
  id directly, and a lookup yielding `null` is not modelled.
- Browser layout: the difference between `style.left` and `offsetLeft`, parent
  offsets and `'px'` formatting; coordinates are plain integers.
- `elem.unselectable = 'on'` and the rewrite of `style.left/top` from the offset
  position in `set`, which does not change the modelled position.
- The bodies of the user callbacks; they are recorded, not run, and are assumed
  not to change the controller or the elements.
- Non-integer, `NaN` or non-numeric option values; options are integers or absent.
- Dragdrop.Controller.Move: an element that becomes the target through `set`
  without ever being pressed has undefined `posX`/`posY` in JavaScript (so the
  move computes `NaN`); the model uses the integers its record holds.
