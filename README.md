# Rotating.js: the Y-axis rotator, in Dafny

Rotating.js smoothly and continuously rotates the webpage elements of class
`rotating-y` around the Y axis. The object `RotatingY` holds the configuration:
a full cycle of 180 degrees, a half cycle of 90, an initial rotation of -90 and
a final rotation of 90, and a speed of 1000 ms. It also holds the current
`rotation`, which starts at the initial rotation. Every 1000 ms a timer calls
`RotatingY.update`. That method adds a full cycle to `rotation`.

- If the result is still at most the final rotation (the normal branch), it
  writes `rotateY(<rotation>deg)` to every element's `transform` and leaves
  its transition alone. The element's current transition animates the move:
  that is the one the last wrap set, or, before the first wrap, whatever the
  page's own CSS defines.
- Otherwise (the wrap branch), it resets `rotation` to the initial rotation.
  For each element it then clears the transition, writes the initial
  transform, reads `offsetHeight` to force a layout, and sets the transition
  to `transform 1000ms linear`. The jump is therefore not animated.
  Finally it calls itself once more. That call starts from the initial
  rotation, so it takes the normal branch and animates the elements to the
  final rotation.

The model is one module, `Rotating` (file `rotating.dfy`):

- The five constants carry the source's names.
- `Transform`, `Transition` and `Style` describe the inline style of one
  element. A transform is kept as its angle, `RotateY(degrees)`, not as a
  string.
- `StyleWrite` is one observable step on one element: a transition write, a
  transform write, or the layout flush caused by reading `offsetHeight`.
- Pure functions give the specification of one update:
  - `UpdatedRotation` gives the new rotation.
  - `UpdateTrace` gives the exact ordered list of writes the update makes to
    `n` elements.
  - `Replay` gives what those writes do to the styles.
  - `WritesTo` picks out the writes to one element.
- `class RotatingY` holds the mutable `rotation` field and a fixed array of
  element styles. It also has a ghost log `writes` of every write made so
  far. Every style write goes through `SetTransition` or `SetTransform`, and
  the layout flush goes through `FlushLayout`. Each of these changes the
  array and appends its log entry in one step, so the log records the real
  order of the writes. `Update` is a recursive method, as in the source. Its
  termination measure shows that the self-call goes only one level deep. Its
  two loops are the methods `JumpToStart` (wrap branch, one pass per element
  in `ResetElement`) and `RotateElements` (normal branch). Each is proved
  against the trace functions.

All angles are integers of small magnitude, so JavaScript's floating-point
numbers compute them exactly; the model uses `int`.

The model follows the code of Rotating.js (version 20160121). In that code:

- there is no `start()` operation and no direction;
- there is no underflow branch;
- no stylesheet classes are toggled: the transition is written directly on
  each element's style;
- `RotatingX` is an empty placeholder.

## Model

| member | source | states |
|---|---|---|
| `Rotating.ConstantsConsistent` | Rotating.js:21-33 | the half cycle is exactly half the full cycle; the initial rotation is minus the half cycle; the final rotation is the initial one plus a full cycle; so initial < final and final equals the half cycle |
| `Rotating.RotatingY.constructor` | Rotating.js:42-46 | a new rotator keeps the element collection it is given (it does not query the document); it starts at the initial rotation with no writes made; its invariant holds |
| `Rotating.Wraps` | Rotating.js:56-59 | an update takes the wrap branch exactly when the rotation before it exceeds the initial rotation (so that adding a full cycle overshoots the final one) |
| `Rotating.ResetWrites` | Rotating.js:66-73 | the wrap branch makes four writes to one element (transition cleared, initial transform, flush, transition enabled), all to that element |
| `Rotating.ResetTrace` | Rotating.js:64-74 | the wrap loop over n elements makes four writes per element, 4n in all |
| `Rotating.RotateTrace` | Rotating.js:83-89 | the normal loop over n elements makes one write per element, n in all |
| `Rotating.UpdateTrace` | Rotating.js:56-90 | one update to n elements makes 5n writes when it wraps (the reset loop, then the self-call's normal loop) and n writes otherwise |
| `Rotating.RotatingY.Valid` | Rotating.js:46-62 | the rotator's invariant: the rotation lies in [initial, final], and the styles are exactly what the logged writes made of the initial styles; so the element collection keeps its size |
| `Rotating.UpdatedRotation` | Rotating.js:56-62 | the rotation after one update is the final rotation when adding a full cycle overshoots it (after the reset and the self-call), and the advanced rotation otherwise; it never exceeds the final rotation; from any rotation in [initial, final] it is exactly the final rotation, so the range is preserved |
| `Rotating.RotatingY.Update` | Rotating.js:51-93 | the new rotation is `UpdatedRotation` of the old one; the ordered writes appended to the log are exactly `UpdateTrace`, and since each logged entry is made by the write itself, this is the order of the real writes; the new styles are the old ones with that trace replayed; `ShowsUpdate`: every element shows `rotateY(<new rotation>deg)`, and its transition is `transform 1000ms linear` after a wrap and untouched otherwise; the rotator's invariant (range, styles equal to the replayed log) is preserved and the rotation ends at the final rotation; the element collection never changes; it terminates since the inner call cannot wrap again |
| `Rotating.RotatingY.JumpToStart` | Rotating.js:64-74 | the wrap loop makes, element by element in index order, the four steps clear transition, write the initial transform, flush, re-enable transition (each logged by the write itself); the styles are the old ones with those steps replayed |
| `Rotating.RotatingY.ResetElement` | Rotating.js:66-73 | one pass of the wrap loop makes, in this order, the writes transition cleared, transform to the initial rotation, flush, transition `transform 1000ms linear`; each is a real write to the array, logged as it happens; the styles are the old ones with those four steps replayed |
| `Rotating.RotatingY.SetTransition` | Rotating.js:69 | writes one element's transition in place, changes nothing else, and logs exactly that write |
| `Rotating.RotatingY.SetTransform` | Rotating.js:70 | writes one element's transform in place, changes nothing else, and logs exactly that write |
| `Rotating.RotatingY.FlushLayout` | Rotating.js:71 | reading `offsetHeight` changes no style and is logged as a flush of that element |
| `Rotating.RotatingY.RotateElements` | Rotating.js:83-89 | the normal loop appends one transform write of the current rotation per element, in index order; the styles are the old ones with those writes replayed |
| `Rotating.ResetWritesEffect` | Rotating.js:66-73 | the four wrap steps on element i leave it at the initial rotation with the transition enabled, and leave every other element untouched |
| `Rotating.ResetWritesTo` | Rotating.js:66-73 | the four wrap steps for element i concern element i only |
| `Rotating.ResetTraceEffect` | Rotating.js:64-74 | after the wrap loop over the first n elements, each of them is at the initial rotation with the transition enabled, and the rest are unchanged; no element is added or removed |
| `Rotating.ResetTraceIndices` | Rotating.js:64-74 | the wrap loop over the first n elements writes nothing to any element at index n or beyond |
| `Rotating.ResetTraceWritesTo` | Rotating.js:64-74 | the wrap loop writes to each element exactly its own four steps, in their order |
| `Rotating.RotateTraceEffect` | Rotating.js:83-89 | after the normal loop over the first n elements, each of them shows the new angle and keeps its transition (the transition field is not touched), and the rest are unchanged |
| `Rotating.RotateTraceWritesTo` | Rotating.js:83-89 | the normal loop writes exactly one transform to each element it covers and nothing to the others |
| `Rotating.UpdateEffect` | Rotating.js:56-90 | after one complete update (replayed trace), every element's transform is `rotateY(<updated rotation>deg)`; its transition is enabled if the update wrapped and unchanged otherwise; the number of elements is unchanged |
| `Rotating.ElementWriteOrder` | Rotating.js:59-90 | without a wrap, an element receives exactly one write: the transform to the advanced rotation. With a wrap, it receives exactly five, in order: transition cleared, transform to the initial rotation, flush, transition `transform 1000ms linear`, transform to the final rotation |
| `Rotating.WrapRecursesOnce` | Rotating.js:59-79 | the initial rotation does not wrap, so the self-call takes the normal branch; a wrapping update's trace is the reset loop followed by the normal loop to the final rotation |
| `Rotating.BoundaryUpdates` | Rotating.js:56-79 | from the initial rotation an update reaches the final rotation without wrapping; from the final rotation it wraps and returns to the final rotation |
| `Rotating.SteadyState` | Rotating.js:56-79 | after any update from an in-range rotation, the rotation is the final one; every later update wraps and leaves it there, writing the same trace |
| `Rotating.NoElementsNoWrites` | Rotating.js:64-89 | with zero elements an update writes nothing; only the rotation changes |

## Left out

- The `setInterval` timer (Rotating.js:98-106) is host event-loop scheduling. Each timer firing is one call of `Update`.
- The document query `getElementsByClassName("rotating-y")` (Rotating.js:42) is left out. The constructor takes the element collection as a parameter instead. The live collection is modelled as a fixed array: elements added to or removed from the page later are not modelled.
- Each DOM element is one array slot holding its style. In the source, distinct elements of the collection are distinct objects, so no aliasing between elements is modelled.
- The `offsetHeight` read (Rotating.js:71) only makes the browser lay out the page. It appears as a `Flush` entry in the write log and changes no style.
- CSS transition interpolation and rendering happen in the browser and are not modelled. The model records which transition value is set when; it does not model what appears on screen.
- JavaScript number-to-string formatting is not modelled. A transform is `RotateY(angle)` and a transition is `TransformLinear(millis)`, not the strings `"rotateY(" + angle + "deg)"` and `"transform " + SPEED + "ms linear"`.
- `RotatingX` (Rotating.js:112-114) is an empty object with a TODO and has no behaviour to model.
