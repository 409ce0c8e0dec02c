# QvPen pen and eraser, modelled in Dafny

A model of the two behaviours at the heart of QvPen for VRChat. The first is
the pen (`UdonScript/Pen.cs`). The second is the eraser that the pen carries
(`UdonScript/Eraser.cs`).

- **The pen's four modes** are `PenIdle`, `PenUsing`, `EraserIdle` and
  `EraserUsing`. The gesture handlers (`OnPickup`, `OnDrop`,
  `OnPickupUseDown`, `OnPickupUseUp`, `SetUseDoubleClick`) never change the
  mode themselves. They broadcast the name of a handler, and every replica
  runs that handler.
  - In the model, a broadcast is a token appended to the pen's `outbox`.
    A `ManagerEvent` token goes to `managerOutbox`.
  - A replica runs a token with `Pen.Apply`, or with the named handler
    directly.
- **The double-click window** is 184 ms on a millisecond clock. After a
  double-click, the recorded click time is reset to zero.
- **The ink pool** is the `inkPool` transform, whose children are the
  committed strokes.
  - `CreateInkInstance` appends a stroke named `"<prefix> (<n>)"` and
    post-increments `inkNo`.
  - `FinishDrawing` copies the trail into an array, reverses it in place,
    publishes the result as the synced point list, and commits it.
  - `DestroyJustBeforeInk` destroys the last stroke made and decrements
    `inkNo`.
  - `Clear` destroys every child and sets `inkNo` back to zero.
- **The eraser** has an erase flag and a material. Its trigger rule destroys
  a collider's parent stroke only when five conditions all hold:
  - erasing is on;
  - the collider is on the ink layer;
  - the collider has a parent;
  - the parent's name starts with the ink prefix;
  - the collider has a grandparent, and its name is exactly the pool name.

Files:
- `seqs.dfy` holds sequence facts: reversal and removal of one element.
- `inks.dfy` holds strokes, the pool and stroke names.
- `eraser.dfy` holds the eraser.
- `pen.dfy` holds the pen.
- `scenarios.dfy` holds client code that relies only on the pens'
  contracts. The holder's side is driven as a gesture handler, then the
  handlers its broadcast tokens name, in order. A spectator's side runs the
  holder's tokens and, for a commit, `CreateInkInstance` on the synced list.

The pen is a class whose methods change its fields in place. Its object
invariant `Pen.Valid()` ties several things together:
- Every pooled stroke is distinct, is parented to the pool, is named with
  the ink prefix and is on the ink layer.
- The trail is active exactly while drawing, and empty otherwise.
- The eraser is shown exactly in the eraser modes.
- The eraser is erasing exactly in `EraserUsing`, with the matching material.

Each handler keeps `Valid()` and states its whole effect. The state-change
effects are written as two-state predicates:
- `Committed` describes what `CreateInkInstance` does.
- `FinishedDrawing` describes what `FinishDrawing` does.
- `UndoneLast` describes what `DestroyJustBeforeInk` does.
- `DrawingKept` says that nothing about drawing or the pool changed.

The code is compared with the tool's intended behaviour, written out here
because no file of the repository states it. It is a transition table from
gestures to modes, `Pens.DesignedMode`, written independently of the
handlers:
- pressing starts drawing or erasing from the idle modes;
- a double-click swaps pen and eraser from the idle modes, undoing the last
  stroke on the way to the eraser;
- releasing ends drawing or erasing;
- picking up or dropping returns to the idle pen.

The intent also promises:
- stroke numbers are never reused;
- applying one stroke commit twice adds one stroke;
- dropping the pen mid-stroke finishes the stroke rather than discarding it.

Where this intent and the code disagree, the model follows the code:
- **Stroke numbers are reused.** The intended behaviour is that stroke numbers are never
  reused. In the code, `DestroyJustBeforeInk` decrements `inkNo`, so the
  next stroke gets the undone stroke's number (`Scenarios.UndoThenRedraw`).
- **A second undo still decrements the counter.**
  - `justBeforeInk` still points at the destroyed stroke, so a second undo
    destroys nothing.
  - It still decrements the counter, so the next stroke is named exactly
    like a stroke that is still in the pool
    (`Scenarios.UndoTwiceReusesALiveName`).
  - `inkNo` can also go below zero. The model's `inkNo` is an `int`, and a
    negative number is written with a minus sign.
- **The same committed list can become two strokes.** The intended behaviour is that
  applying the same stroke-commit message twice never gives two pool
  entries. `CreateInkInstance` has no such check: each call with a
  non-empty list appends a fresh stroke.
- **Dropping the pen mid-stroke throws the stroke away.**
  - `OnDrop` clears `isUser` before it broadcasts `ChangeStateToPenIdle`
    (`UdonScript/Pen.cs:193-197`).
  - `FinishDrawing` then skips the commit on every replica, and clears the
    trail.
  - The pool and the counter are unchanged, and nothing is published
    (`Scenarios.DropWhileDrawing`).
- **The "unexpected state" branches do nothing.** In the code, those
  branches of `OnPickupUseDown` and `OnPickupUseUp` only log. The model
  emits no token there.
- **An early first press counts as a double-click.** `prevClickTime` starts
  at 0, so with double-click on, a first press before 184 ms after start is
  a double-click.

## Model

| member | source | states |
|---|---|---|
| Seqs.StartsWith | UdonScript/Eraser.cs:110 | `string.StartsWith`, compared character by character: true exactly when the prefix is no longer than the string and agrees with it position by position. The string is then the prefix followed by the rest. |
| Seqs.Reverse | UdonScript/Pen.cs:386 | The reversed list has the same length, and position i holds the element at position length-1-i of the input. |
| Seqs.ReverseReverse | UdonScript/Pen.cs:386 | Reversing the published list again gives back the order the trail recorded. |
| Seqs.Without | UdonScript/Eraser.cs:115 | Destroying a child removes exactly that object. Every remaining child was a child before, and every other child remains. If the object was not a child, nothing changes. A list without repeats stays without repeats and loses exactly one element. |
| Seqs.WithoutAt | UdonScript/Pen.cs:365-366 | In a list without repeats, destroying the child at position k leaves exactly the children before and after k, in order. This is what `Clear`'s loop and the eraser's hit rely on. |
| Inks.NatToString | UdonScript/Pen.cs:425 | The decimal text of a number is at least one character long and made only of digits. It is one character exactly when the number is below ten. |
| Inks.IntToString | UdonScript/Pen.cs:425 | C# formatting of an `int`: the text starts with a minus sign exactly when the number is negative. |
| Inks.InkName | UdonScript/Pen.cs:425 | A stroke's name starts with the ink prefix and is longer than the prefix. |
| Inks.InkNameInjective | UdonScript/Pen.cs:425 | Two names from one prefix are equal exactly when the counter values were equal, in both directions. |
| Inks.Ink.constructor | UdonScript/Pen.cs:424-433 | A new stroke holds the given name, points, collider layer and parent. |
| Inks.InkPool.constructor | UdonScript/Pen.cs:103 | The pool is named with the settings' pool name and starts empty. |
| Inks.InkPool.Add | UdonScript/Pen.cs:426 | Parenting a stroke that is not yet a child appends it last and keeps the children distinct. |
| Inks.InkPool.Destroy | UdonScript/Pen.cs:267 | Unity's `Destroy` on a child: the pool's children become `Without(old children, ink)`, still distinct. |
| Erasers.Accepts | UdonScript/Eraser.cs:105-113 | Defines the five conditions joined by `&&`. Its contract says what acceptance implies: erasing is on, and the collider has a grandparent named exactly as the pool. That grandparent is the only pool the contact can touch. |
| Erasers.NotErasingNeverAccepts | UdonScript/Eraser.cs:105-106 | With erasing off, no contact is accepted, whatever it touches. |
| Erasers.PrefixVersusExactName | UdonScript/Eraser.cs:110-112 | A stroke named "Ink (3)" under the pool is accepted with prefix "Ink". A lookalike grandparent whose name only begins with the pool name is refused. |
| Erasers.PenStrokesAreErasable | UdonScript/Eraser.cs:105-112 | Any stroke named by `InkName` with the ink prefix, on the ink layer and parented to a pool passes all five conditions against that pool's name. |
| Erasers.Eraser.constructor | UdonScript/Eraser.cs:31-55 | `Init` without an eraser manager: the settings' layer, prefix and pool name, not erasing, and the normal material. |
| Erasers.Eraser.OnPickupEvent | UdonScript/Eraser.cs:81-84 | The material becomes normal. The erase flag is outside its frame, so it is unchanged. |
| Erasers.Eraser.OnDropEvent | UdonScript/Eraser.cs:86-89 | The material becomes the erasing one. The erase flag is unchanged. |
| Erasers.Eraser.StartErasing | UdonScript/Eraser.cs:91-95 | Erasing is on and the material is the erasing one. |
| Erasers.Eraser.FinishErasing | UdonScript/Eraser.cs:97-101 | Erasing is off and the material is normal. |
| Erasers.Eraser.SetActive | UdonScript/Pen.cs:416 | `gameObject.SetActive(value)`: the eraser is shown exactly when `value` holds. |
| Erasers.Eraser.OnTriggerEnter | UdonScript/Eraser.cs:103-117 | If all five conditions hold, the grandparent pool loses exactly the collider's parent. If any condition fails, every pool it could touch keeps its children. Nothing outside the grandparent changes. |
| Pens.IsDoubleClick | UdonScript/Pen.cs:202 | The window test. Never a double-click with double-click off. Otherwise, for a press not before the recorded time, a double-click exactly when it comes less than 184 ms after it. |
| Pens.NextClickTime | UdonScript/Pen.cs:204 | What a press leaves as the click time: 0 or the press time, never later than the press. After the clock's start, it is the press time exactly when the press is not a double-click (`UdonScript/Pen.cs:221`). |
| Pens.UseDownEvents | UdonScript/Pen.cs:205-233 | The tokens a press broadcasts: at most two, and some exactly from the idle modes. `DestroyJustBeforeInk` is among them exactly for a double-click on the idle pen. A double-click that broadcasts anything swaps pen and eraser once the tokens run. |
| Pens.UseUpEvents | UdonScript/Pen.cs:239-256 | The tokens a release broadcasts: at most one, and one exactly from the using modes. The handler it names ends in an idle mode of the same tool. |
| Pens.Next | UdonScript/Pen.cs:275-349 | The mode a handler ends in: `DestroyJustBeforeInk` keeps the mode. Each `ChangeStateTo*` handler ends in the eraser modes exactly when it names the eraser, and in a using mode exactly when it names using, whatever the mode before. |
| Pens.BroadcastsFollowDesign | UdonScript/Pen.cs:200-257 | From every mode, the pen reaches the mode of the intended transition table `DesignedMode` once the tokens are run: those of a press, a double-click or a release, and the `ChangeStateToPenIdle` of pick-up and drop. |
| Pens.Presses | UdonScript/Pen.cs:202-221 | Presses are classified one by one. Each press compares against the time the previous press left: the initial time, zero after a double-click, or that press's time. A press after a double-click, at a clock time of at least 184 ms, is never itself a double-click. |
| Pens.TwoPresses | UdonScript/Pen.cs:202-221 | After a normal press, the next press is a double-click exactly when double-click is on and it comes less than 184 ms later. |
| Pens.ThreeRapidPresses | UdonScript/Pen.cs:202-204 | Three presses within one window, after the clock has passed 184 ms, give a normal press, a double-click and a normal press, not two double-clicks. |
| Pens.ReverseInPlace | UdonScript/Pen.cs:386 | `Array.Reverse` in place: the array ends as `Reverse` of its old contents. |
| Pens.Pen.constructor | UdonScript/Pen.cs:93-158 | `Init`: the settings' layer, prefix and pool name; pool and eraser configured alike; eraser hidden; idle pen; double-click on; empty pool; counter zero; object invariant established. |
| Pens.Pen.Record | UdonScript/Pen.cs:371-374 | The trail records a point only while its game object is active. |
| Pens.Pen.OnPickup | UdonScript/Pen.cs:179-189 | The local player becomes the user. `StartUsing` goes to the manager, then `ChangeStateToPenIdle` is broadcast. |
| Pens.Pen.OnDrop | UdonScript/Pen.cs:191-198 | The local player is no longer the user. `EndUsing` goes to the manager, then `ChangeStateToPenIdle` is broadcast. |
| Pens.Pen.OnPickupUseDown | UdonScript/Pen.cs:200-235 | Inside the window, the click time becomes 0. `PenIdle` then broadcasts `DestroyJustBeforeInk` followed by `ChangeStateToEraseIdle`; `EraserIdle` broadcasts `ChangeStateToPenIdle`. Otherwise the click time becomes `now`. `PenIdle` then broadcasts `ChangeStateToPenUsing`; `EraserIdle` broadcasts `ChangeStateToEraseUsing`. Other modes broadcast nothing. |
| Pens.Pen.OnPickupUseUp | UdonScript/Pen.cs:237-257 | `PenUsing` broadcasts `ChangeStateToPenIdle` and `EraserUsing` broadcasts `ChangeStateToEraseIdle`. The idle modes broadcast nothing. |
| Pens.Pen.SetUseDoubleClick | UdonScript/Pen.cs:259-263 | Sets the flag and broadcasts `ChangeStateToPenIdle`. |
| Pens.Pen.DestroyJustBeforeInk | UdonScript/Pen.cs:265-269 | The last stroke made leaves the pool, or nothing leaves if there is none or it is already gone. The counter goes down by one. `justBeforeInk` keeps pointing at that stroke. |
| Pens.Pen.ChangeStateToPenIdle | UdonScript/Pen.cs:275-291 | From any mode the pen ends idle. From `PenUsing` the trail is committed as `FinishedDrawing` describes. From the eraser modes the eraser ends hidden and not erasing. Otherwise nothing about drawing or the pool changes. |
| Pens.Pen.ChangeStateToPenUsing | UdonScript/Pen.cs:293-311 | From any mode the pen ends drawing, with the trail active. The eraser is hidden and not erasing. The pool and counter are unchanged. |
| Pens.Pen.ChangeStateToEraseIdle | UdonScript/Pen.cs:313-329 | From any mode the pen ends as the idle eraser, shown and not erasing. From `PenUsing` the trail is committed first. |
| Pens.Pen.ChangeStateToEraseUsing | UdonScript/Pen.cs:331-349 | From any mode the pen ends as the erasing eraser, shown, erasing, with the erasing material. From `PenUsing` the trail is committed first. |
| Pens.Pen.Apply | UdonScript/Pen.cs:265-349 | Running a received token moves the mode as `Next` says. A destroy token undoes the last stroke. A change token commits the trail exactly when it leaves `PenUsing`, and otherwise keeps drawing state and the pool. |
| Pens.Pen.Clear | UdonScript/Pen.cs:363-369 | Destroying each child in turn leaves the pool empty. The counter becomes zero. `justBeforeInk` is untouched. |
| Pens.Pen.StartDrawing | UdonScript/Pen.cs:371-374 | The trail becomes active. |
| Pens.Pen.FinishDrawing | UdonScript/Pen.cs:376-396 | For the holder, the published synced list is the trail's points reversed, and a stroke with that same list is committed. For everyone else nothing is committed or published. In every case the trail ends inactive and empty. |
| Pens.Pen.StartErasing | UdonScript/Pen.cs:398-401 | The eraser starts erasing, with the erasing material. |
| Pens.Pen.FinishErasing | UdonScript/Pen.cs:403-406 | The eraser stops erasing, with the normal material. |
| Pens.Pen.ChangeToPen | UdonScript/Pen.cs:408-412 | The eraser stops erasing and is hidden. |
| Pens.Pen.ChangeToEraser | UdonScript/Pen.cs:414-417 | The eraser is shown. |
| Pens.Pen.CreateInkInstance | UdonScript/Pen.cs:419-440 | An empty array changes nothing. Otherwise exactly one fresh stroke is appended. It is named with the old counter, holds exactly the given points, is parented to the pool and is on the ink layer. The counter goes up by one, and the stroke becomes `justBeforeInk`. |
| Pens.Pen.PooledStrokesAreErasable | UdonScript/Eraser.cs:105-112 | Every stroke in a valid pen's pool passes the pen's eraser's test while erasing is on. |
| Scenarios.NewHeldPen | UdonScript/Pen.cs:179-189 | A pen just initialised and picked up, with its broadcast run, is the held idle pen with an empty pool. |
| Scenarios.PressAndTrace | UdonScript/Pen.cs:221-225 | A normal press on the held idle pen, with its token run, starts a trail that then records the point. |
| Scenarios.ReleaseStroke | UdonScript/Pen.cs:241-242 | Releasing the drawing pen, with its token run, commits the trail reversed as the next stroke and publishes the same list. |
| Scenarios.DrawOne | UdonScript/Pen.cs:419-440 | A press, one point and a release add one stroke holding that point, named with the old counter. |
| Scenarios.TwoStrokes | UdonScript/Pen.cs:425 | Two strokes drawn one second apart are distinct and named "Ink (0)" and "Ink (1)". |
| Scenarios.DrawAndDrop | UdonScript/Pen.cs:376-396 | Pick up, draw two points, release and drop. The result is one stroke "Ink (0)" holding the points in reverse order, and the dropped pen idle with an empty, inactive trail. |
| Scenarios.DropIdle | UdonScript/Pen.cs:191-198 | Dropping the idle pen, with its token run, clears `isUser` and keeps the pool, the counter and the synced list. |
| Scenarios.DropWhileDrawing | UdonScript/Pen.cs:193-197 | Dropping while drawing, with its token run, leaves the idle pen with the trail inactive and empty, the pool still empty and the counter 0. The traced point is discarded. |
| Scenarios.UndoIntoEraser | UdonScript/Pen.cs:202-209 | A double-click on the idle pen, with both tokens run, undoes the last stroke as `UndoneLast` says. It ends in the idle eraser, with the click time 0. |
| Scenarios.EraserPress | UdonScript/Pen.cs:227-228 | A normal press on the idle eraser, with its token run, starts erasing and records the press time. The pool is unchanged. |
| Scenarios.EraserRelease | UdonScript/Pen.cs:244-245 | Releasing the erasing eraser, with its token run, returns to the idle eraser. The pool is unchanged. |
| Scenarios.BackToPen | UdonScript/Pen.cs:202-204 | After an undo the click time is 0, so a press on the eraser is a normal one. A press, a release and then a double-click return to the idle pen, with the pool and counter unchanged. |
| Scenarios.TapWithoutDrawing | UdonScript/Pen.cs:421-422 | A press and release tracing no point commit nothing: the empty trail gives an empty array. |
| Scenarios.SecondUndo | UdonScript/Pen.cs:265-269 | A second undo, reached through gestures, finds its stroke already gone. It keeps the pool but still lowers the counter. |
| Scenarios.UndoLastStroke | UdonScript/Pen.cs:202-209 | A double-click right after one stroke removes exactly that stroke, resets the counter to 0, and shows the idle eraser. |
| Scenarios.DoubleClickBackToPen | UdonScript/Pen.cs:211-212 | A double-click on the idle eraser returns to the idle pen and leaves the pool and counter alone. |
| Scenarios.UndoThenRedraw | UdonScript/Pen.cs:265-269 | After an undo, and the gestures back to the pen, the next stroke is a different object with the undone stroke's name. |
| Scenarios.UndoTwiceReusesALiveName | UdonScript/Pen.cs:265-269 | After two undos following two strokes, the next stroke is named exactly like the first stroke, which is still in the pool. |
| Scenarios.TouchWhileErasing | UdonScript/Eraser.cs:103-117 | With the eraser pressed, touching the first of two pooled strokes leaves only the second. |
| Scenarios.EraseOneStroke | UdonScript/Eraser.cs:103-117 | Three strokes, then a double-click that undoes the third and shows the eraser. Then a press, a touch on the first stroke and a release. Exactly the second stroke remains, and the pen is the idle eraser, not erasing. |
| Scenarios.SpectatorFollows | UdonScript/Pen.cs:380 | A replica whose player does not hold the pen runs the holder's broadcasts and commits nothing. |
| Scenarios.Replicate | UdonScript/Pen.cs:419-440 | The holder commits a stroke. A spectator given the synced list makes its own stroke with the same name and the same points. |

## Left out

- Mesh baking is left out: `CreateInkCollider` and `LineRenderer.BakeMesh` are Unity calls with no algorithm in the source. A stroke simply carries its collider layer.
- Placing a stroke at its first point, its rotation and scale, and `SetActive(true)` on the new stroke are transform values the model does not track.
- `LateUpdate` trail following is left out: it is floating-point interpolation of the transform.
- Material, shader and width setup in `Init` is asset wiring and is left out, as are the `UNITY_ANDROID` branches and the pickup texts.
- Networking is reduced to the outbox of tokens.
  - Left out: delivery order and loss, ownership transfer (`Networking.SetOwner` in `OnPickup`), and `RequestSerialization`.
  - The spectator side of a commit is modelled by a scenario calling `CreateInkInstance` with the synced list.
- `UdonScript/PenManager.cs` is left out: apart from UI and the serialization callbacks, it only forwards calls into the pen.
- `UdonScript/Settings.cs` is left out. It generates a single random pool name, `obj_<GUID>`, which every pen shares, and boots every manager with it (`UdonScript/Settings.cs:66-74`). The ink layer, the ink prefix ("Ink") and that pool name are the pen's constructor parameters instead, and the model does not capture that all pens share one pool name.
- Logging (`P` and the `Debug.Log` calls in the unexpected-state branches), `IsHeld` and `Respawn` are left out: they are engine calls with no effect on the modelled state.
- The stand-alone eraser's own gesture handlers (`Eraser.OnPickup`, `OnDrop`, `OnPickupUseDown`, `OnPickupUseUp`) are left out. They only broadcast through an `EraserManager`, which is not part of this model. The handlers they name are modelled.
- Time is a whole number of milliseconds rather than `Time.time` in float seconds.
- Pens.Pen.OnPickupUseDown: does not model float rounding in `Time.time - prevClickTime`. The model subtracts exact millisecond integers, so a press exactly 184 ms later is already outside the window.
- Pens.Pen.CreateInkInstance: does not model the 32-bit wrap-around of `inkNo` after 2^31 strokes.
- Inks.InkPool.Destroy: Unity defers `Destroy` to the end of the frame. The model removes the child at once. It does not capture the rest of that frame, during which the destroyed object is still listed among the pool's children.
- Erasers.Eraser.OnTriggerEnter: the null check on `other` itself is not modelled, since a collider value is always present. `string.StartsWith` is modelled as ordinal, character-by-character comparison, not culture-sensitive comparison.
- Pens.Pen.constructor: `Init` never touches the trail renderer's game object. The model assumes it starts inactive and empty, as the prefab is set up; `Pen.Valid()`'s trail clauses rely on this.
- Pens.Pen.Record: the trail renderer's sampling by distance and time is the engine's, and is not modelled. A point is recorded whenever `Record` is called while the trail is active.
