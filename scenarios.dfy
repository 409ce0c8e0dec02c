/** Client code driving pens only through their contracts: the owner's gesture
    handlers fill the outbox, and every replica, the owner's included, runs the
    handlers named there in order. */
module Scenarios {
  import opened Seqs
  import opened Inks
  import opened Erasers
  import opened Pens

  /** A pen just initialised and picked up, its own ChangeStateToPenIdle run. */
  method NewHeldPen() returns (pen: Pen)
    ensures fresh(pen) && fresh(pen.inkPool) && fresh(pen.eraser)
    ensures pen.Valid() && pen.isUser && pen.mode == PenIdle && pen.inkPrefix == "Ink"
    ensures pen.useDoubleClick && pen.prevClickTime == 0 && pen.inkNo == 0
    ensures pen.inkPool.inks == [] && pen.justBeforeInk == null
  {
    pen := new Pen(9, "Ink", "obj_pool");
    pen.OnPickup();
    assert pen.outbox == [Event.ChangeStateToPenIdle];
    pen.ChangeStateToPenIdle();
  }

  /** Two one-point strokes, pressed at 1000 and 2000 ms. */
  method TwoStrokes(p: Point, q: Point) returns (pen: Pen, first: Ink, second: Ink)
    ensures fresh(pen) && fresh(pen.inkPool) && fresh(pen.eraser)
    ensures pen.Valid() && pen.isUser && pen.mode == PenIdle && pen.prevClickTime == 2000
    ensures pen.inkPrefix == "Ink" && pen.useDoubleClick
    ensures pen.inkPool.inks == [first, second] && pen.justBeforeInk == second && pen.inkNo == 2
    ensures first != second
    ensures first.name == InkName("Ink", 0) && second.name == InkName("Ink", 1)
  {
    pen := NewHeldPen();
    first := DrawOne(pen, 1000, p);
    second := DrawOne(pen, 2000, q);
  }

  /** A normal press on the held idle pen, then the trail records `p`. */
  method PressAndTrace(pen: Pen, now: nat, p: Point)
    requires pen.Valid() && pen.isUser && pen.mode == PenIdle
    requires !IsDoubleClick(pen.useDoubleClick, pen.prevClickTime, now)
    modifies pen, pen.inkPool, pen.eraser
    ensures pen.Valid() && pen.isUser && pen.mode == PenUsing && pen.trail == [p]
    ensures pen.prevClickTime == now && pen.useDoubleClick == old(pen.useDoubleClick)
    ensures pen.inkNo == old(pen.inkNo) && pen.inkPool.inks == old(pen.inkPool.inks)
    ensures pen.justBeforeInk == old(pen.justBeforeInk)
  {
    var sent := |pen.outbox|;
    pen.OnPickupUseDown(now);
    assert pen.outbox[sent..] == [Event.ChangeStateToPenUsing];
    pen.ChangeStateToPenUsing();
    pen.Record(p);
  }

  /** A release on the held drawing pen: the trail becomes a stroke with its
      points reversed. */
  method ReleaseStroke(pen: Pen) returns (ink: Ink)
    requires pen.Valid() && pen.isUser && pen.mode == PenUsing && pen.trail != []
    modifies pen, pen.inkPool, pen.eraser
    ensures pen.Valid() && pen.isUser && pen.mode == PenIdle
    ensures pen.prevClickTime == old(pen.prevClickTime) && pen.useDoubleClick == old(pen.useDoubleClick)
    ensures fresh(ink) && ink.points == Reverse(old(pen.trail)) && ink.name == InkName(pen.inkPrefix, old(pen.inkNo))
    ensures pen.inkPool.inks == old(pen.inkPool.inks) + [ink] && pen.justBeforeInk == ink
    ensures pen.inkNo == old(pen.inkNo) + 1 && pen.syncPositions == ink.points
  {
    var sent := |pen.outbox|;
    pen.OnPickupUseUp();
    assert pen.outbox[sent..] == [Event.ChangeStateToPenIdle];
    ghost var t := pen.trail;
    assert Reverse(t) != [];
    pen.ChangeStateToPenIdle();
    ink := pen.justBeforeInk;
  }

  /** A one-point stroke, pressed at `now`. */
  method DrawOne(pen: Pen, now: nat, p: Point) returns (ink: Ink)
    requires pen.Valid() && pen.isUser && pen.mode == PenIdle
    requires !IsDoubleClick(pen.useDoubleClick, pen.prevClickTime, now)
    modifies pen, pen.inkPool, pen.eraser
    ensures pen.Valid() && pen.isUser && pen.mode == PenIdle
    ensures pen.prevClickTime == now && pen.useDoubleClick == old(pen.useDoubleClick)
    ensures fresh(ink) && ink.points == [p] && ink.name == InkName(pen.inkPrefix, old(pen.inkNo))
    ensures pen.inkPool.inks == old(pen.inkPool.inks) + [ink] && pen.justBeforeInk == ink
    ensures pen.inkNo == old(pen.inkNo) + 1 && pen.syncPositions == [p]
  {
    PressAndTrace(pen, now, p);
    assert Reverse([p]) == [p];
    ink := ReleaseStroke(pen);
  }

  /** Pick up, press, draw two points, release, drop: one stroke holding the
      points in reverse order, named with number 0, and the pen back to the
      idle pen, no longer held. */
  method DrawAndDrop(p0: Point, p1: Point) returns (pen: Pen, ink: Ink)
    ensures pen.mode == PenIdle && !pen.isUser && !pen.trailActive && pen.trail == []
    ensures pen.inkPool.inks == [ink] && ink.points == [p1, p0] && pen.syncPositions == [p1, p0]
    ensures ink.name == "Ink (0)"
  {
    pen := NewHeldPen();
    PressAndTrace(pen, 1000, p0);
    pen.Record(p1);
    ink := ReleaseStroke(pen);
    DropIdle(pen);
    assert Reverse([p0, p1]) == [p1, p0];
    assert ink.name == "Ink (0)";
  }

  /** Dropping the idle pen, with its token run: the player is no longer the
      user and nothing else changes. */
  method DropIdle(pen: Pen)
    requires pen.Valid() && pen.mode == PenIdle
    modifies pen, pen.inkPool, pen.eraser
    ensures pen.Valid() && pen.mode == PenIdle && !pen.isUser
    ensures pen.inkPool.inks == old(pen.inkPool.inks) && pen.inkNo == old(pen.inkNo)
    ensures pen.syncPositions == old(pen.syncPositions)
  {
    var sent := |pen.outbox|;
    pen.OnDrop();
    assert pen.outbox[sent..] == [Event.ChangeStateToPenIdle];
    pen.ChangeStateToPenIdle();
  }

  /** A double-click on the idle pen right after a stroke destroys exactly that
      stroke and turns the pen into the eraser. */
  method UndoLastStroke(p: Point) returns (pen: Pen)
    ensures pen.mode == EraserIdle && pen.eraser.active && !pen.eraser.isErasing
    ensures pen.inkPool.inks == [] && pen.inkNo == 0
  {
    pen := NewHeldPen();
    var first := DrawOne(pen, 1000, p);
    var sent := |pen.outbox|;
    pen.OnPickupUseDown(1100);
    assert pen.outbox[sent..] == [Event.DestroyJustBeforeInk, Event.ChangeStateToEraseIdle];
    assert pen.prevClickTime == 0;
    pen.DestroyJustBeforeInk();
    pen.ChangeStateToEraseIdle();
  }

  /** A double-click on the idle eraser returns to the pen without touching
      the pool. */
  method DoubleClickBackToPen(pen: Pen, now: nat)
    requires pen.Valid() && pen.mode == EraserIdle && IsDoubleClick(pen.useDoubleClick, pen.prevClickTime, now)
    modifies pen, pen.inkPool, pen.eraser
    ensures pen.Valid() && pen.mode == PenIdle && pen.prevClickTime == 0 && !pen.eraser.active
    ensures pen.isUser == old(pen.isUser) && pen.useDoubleClick == old(pen.useDoubleClick)
    ensures pen.inkPool.inks == old(pen.inkPool.inks) && pen.inkNo == old(pen.inkNo)
    ensures pen.justBeforeInk == old(pen.justBeforeInk)
  {
    var sent := |pen.outbox|;
    pen.OnPickupUseDown(now);
    assert pen.outbox[sent..] == [Event.ChangeStateToPenIdle];
    pen.ChangeStateToPenIdle();
  }

  /** A double-click on the idle pen: the last stroke is undone and the pen
      becomes the idle eraser, with the click time reset to zero. */
  method UndoIntoEraser(pen: Pen, now: nat)
    requires pen.Valid() && pen.mode == PenIdle && IsDoubleClick(pen.useDoubleClick, pen.prevClickTime, now)
    modifies pen, pen.inkPool, pen.eraser
    ensures pen.Valid() && pen.mode == EraserIdle && pen.prevClickTime == 0
    ensures pen.isUser == old(pen.isUser) && pen.useDoubleClick == old(pen.useDoubleClick)
    ensures pen.UndoneLast()
  {
    var sent := |pen.outbox|;
    pen.OnPickupUseDown(now);
    assert pen.outbox[sent..] == [Event.DestroyJustBeforeInk, Event.ChangeStateToEraseIdle];
    pen.DestroyJustBeforeInk();
    ghost var inks, no := pen.inkPool.inks, pen.inkNo;
    pen.ChangeStateToEraseIdle();
    assert pen.inkPool.inks == inks && pen.inkNo == no;
  }

  /** A normal press on the idle eraser, with its token run. */
  method EraserPress(pen: Pen, now: nat)
    requires pen.Valid() && pen.mode == EraserIdle && !IsDoubleClick(pen.useDoubleClick, pen.prevClickTime, now)
    modifies pen, pen.inkPool, pen.eraser
    ensures pen.Valid() && pen.mode == EraserUsing && pen.prevClickTime == now
    ensures pen.isUser == old(pen.isUser) && pen.useDoubleClick == old(pen.useDoubleClick)
    ensures pen.inkPool.inks == old(pen.inkPool.inks) && pen.inkNo == old(pen.inkNo)
    ensures pen.justBeforeInk == old(pen.justBeforeInk)
  {
    var sent := |pen.outbox|;
    pen.OnPickupUseDown(now);
    assert pen.outbox[sent..] == [Event.ChangeStateToEraseUsing];
    pen.ChangeStateToEraseUsing();
  }

  /** A release of the pressed eraser, with its token run. */
  method EraserRelease(pen: Pen)
    requires pen.Valid() && pen.mode == EraserUsing
    modifies pen, pen.inkPool, pen.eraser
    ensures pen.Valid() && pen.mode == EraserIdle && pen.prevClickTime == old(pen.prevClickTime)
    ensures pen.isUser == old(pen.isUser) && pen.useDoubleClick == old(pen.useDoubleClick)
    ensures pen.inkPool.inks == old(pen.inkPool.inks) && pen.inkNo == old(pen.inkNo)
    ensures pen.justBeforeInk == old(pen.justBeforeInk)
  {
    var sent := |pen.outbox|;
    pen.OnPickupUseUp();
    assert pen.outbox[sent..] == [Event.ChangeStateToEraseIdle];
    pen.ChangeStateToEraseIdle();
  }

  /** Right after an undo the click time is zero, so one press on the eraser
      is a normal press: getting back to the pen takes a press, a release and
      then a double-click. */
  method BackToPen(pen: Pen, now: nat)
    requires pen.Valid() && pen.mode == EraserIdle && pen.prevClickTime == 0
    requires pen.useDoubleClick && ClickInterval <= now
    modifies pen, pen.inkPool, pen.eraser
    ensures pen.Valid() && pen.mode == PenIdle && pen.prevClickTime == 0
    ensures pen.isUser == old(pen.isUser) && pen.useDoubleClick
    ensures pen.inkPool.inks == old(pen.inkPool.inks) && pen.inkNo == old(pen.inkNo)
    ensures pen.justBeforeInk == old(pen.justBeforeInk)
  {
    EraserPress(pen, now);
    EraserRelease(pen);
    DoubleClickBackToPen(pen, now + 100);
  }

  /** A press and release of the idle pen with no point traced: the empty
      trail commits nothing. */
  method TapWithoutDrawing(pen: Pen, now: nat)
    requires pen.Valid() && pen.mode == PenIdle && !IsDoubleClick(pen.useDoubleClick, pen.prevClickTime, now)
    modifies pen, pen.inkPool, pen.eraser
    ensures pen.Valid() && pen.mode == PenIdle && pen.prevClickTime == now
    ensures pen.isUser == old(pen.isUser) && pen.useDoubleClick == old(pen.useDoubleClick)
    ensures pen.inkPool.inks == old(pen.inkPool.inks) && pen.inkNo == old(pen.inkNo)
    ensures pen.justBeforeInk == old(pen.justBeforeInk)
  {
    var sent := |pen.outbox|;
    pen.OnPickupUseDown(now);
    assert pen.outbox[sent..] == [Event.ChangeStateToPenUsing];
    pen.ChangeStateToPenUsing();
    sent := |pen.outbox|;
    pen.OnPickupUseUp();
    assert pen.outbox[sent..] == [Event.ChangeStateToPenIdle];
    assert Reverse(pen.trail) == [];
    pen.ChangeStateToPenIdle();
  }

  /** After an undo and the gestures back to the pen, the next stroke gets
      the undone stroke's number. */
  method UndoThenRedraw(p: Point, q: Point) returns (pen: Pen, first: Ink, second: Ink)
    ensures first != second && second.name == first.name && pen.inkPool.inks == [second]
  {
    pen := NewHeldPen();
    first := DrawOne(pen, 1000, p);
    UndoIntoEraser(pen, 1100);
    assert pen.inkPool.inks == [] by {
      WithoutAt([first], 0);
    }
    BackToPen(pen, 2000);
    second := DrawOne(pen, 3000, q);
  }

  /** Undoing twice after two strokes. The second undo finds its stroke
      already gone and destroys nothing, but still lowers the counter, so the
      next stroke is named like the stroke that is still in the pool. */
  method UndoTwiceReusesALiveName(p: Point, q: Point, r: Point) returns (pen: Pen, first: Ink, third: Ink)
    ensures pen.inkPool.inks == [first, third] && first != third && third.name == first.name
  {
    var second;
    pen, first, second := TwoStrokes(p, q);
    UndoIntoEraser(pen, 2100);
    assert pen.inkPool.inks == [first] by {
      WithoutAt([first, second], 1);
    }
    SecondUndo(pen, first, second);
    third := DrawOne(pen, 6000, r);
  }

  /** Back to the pen, a tap that draws nothing, and another double-click:
      the stroke `justBeforeInk` names is already gone, so the pool is kept,
      but the counter goes down again. */
  method SecondUndo(pen: Pen, first: Ink, second: Ink)
    requires pen.Valid() && pen.mode == EraserIdle && pen.prevClickTime == 0 && pen.useDoubleClick
    requires pen.inkPool.inks == [first] && pen.justBeforeInk == second && first != second
    modifies pen, pen.inkPool, pen.eraser
    ensures pen.Valid() && pen.mode == PenIdle && pen.prevClickTime == 0 && pen.useDoubleClick
    ensures pen.isUser == old(pen.isUser)
    ensures pen.inkPool.inks == [first] && pen.inkNo == old(pen.inkNo) - 1
  {
    BackToPen(pen, 3000);
    TapWithoutDrawing(pen, 4000);
    UndoIntoEraser(pen, 4100);
    assert second !in [first];
    BackToPen(pen, 5000);
  }

  /** Picking up, pressing, tracing a point and dropping before the release:
      the drop's `ChangeStateToPenIdle` finishes drawing on a pen whose player
      is no longer the user, so the trail is thrown away and no stroke is
      committed. */
  method DropWhileDrawing(p: Point) returns (pen: Pen)
    ensures pen.mode == PenIdle && !pen.isUser && !pen.trailActive && pen.trail == []
    ensures pen.inkPool.inks == [] && pen.inkNo == 0 && pen.justBeforeInk == null
  {
    pen := NewHeldPen();
    PressAndTrace(pen, 1000, p);
    var sent := |pen.outbox|;
    pen.OnDrop();
    assert pen.outbox[sent..] == [Event.ChangeStateToPenIdle];
    pen.ChangeStateToPenIdle();
  }

  /** With the eraser pressed, touching a pooled stroke destroys exactly it. */
  method TouchWhileErasing(pen: Pen, first: Ink, second: Ink)
    requires pen.Valid() && pen.mode == EraserUsing && pen.inkPool.inks == [first, second]
    modifies pen.inkPool
    ensures pen.Valid() && pen.inkPool.inks == [second]
  {
    pen.PooledStrokesAreErasable(first);
    pen.eraser.OnTriggerEnter(Collider(first.colliderLayer, Some(first)));
    assert pen.inkPool.inks == [second] by {
      WithoutAt([first, second], 0);
    }
  }

  /** Three strokes, a double-click that undoes the third and shows the
      eraser, then a press on the eraser, a touch on the first stroke and a
      release: exactly the second stroke remains and the tool is back to the
      idle eraser. */
  method EraseOneStroke(p: Point, q: Point, r: Point) returns (pen: Pen, first: Ink, second: Ink)
    ensures pen.mode == EraserIdle && !pen.eraser.isErasing
    ensures first != second && pen.inkPool.inks == [second]
  {
    pen, first, second := TwoStrokes(p, q);
    var third := DrawOne(pen, 3000, r);
    assert pen.inkPool.inks == [first, second, third];
    UndoIntoEraser(pen, 3100);
    assert pen.inkPool.inks == [first, second] by {
      WithoutAt([first, second, third], 2);
      assert [first, second, third][..2] == [first, second];
    }
    EraserPress(pen, 4000);
    TouchWhileErasing(pen, first, second);
    EraserRelease(pen);
  }

  /** A spectator's copy of the pen runs the holder's broadcasts while the
      holder draws `p0`: it commits nothing itself. */
  method SpectatorFollows(mirror: Pen, p0: Point)
    requires mirror.Valid() && !mirror.isUser && mirror.mode == PenIdle && mirror.inkPool.inks == []
    modifies mirror, mirror.inkPool, mirror.eraser
    ensures mirror.Valid() && mirror.mode == PenIdle && mirror.inkPool.inks == []
    ensures mirror.inkNo == old(mirror.inkNo)
  {
    mirror.ChangeStateToPenUsing();
    mirror.Record(p0);
    mirror.ChangeStateToPenIdle();
  }

  /** The holder commits a stroke; the spectator, given the synced point list,
      makes a stroke with the same name and points. */
  method Replicate(p0: Point) returns (owner: Pen, mirror: Pen, ink: Ink, copy: Ink)
    ensures owner.inkPool.inks == [ink] && mirror.inkPool.inks == [copy] && ink != copy
    ensures copy.name == ink.name && copy.points == ink.points == [p0]
  {
    owner := NewHeldPen();
    mirror := new Pen(9, "Ink", "obj_pool");
    ink := DrawOne(owner, 1000, p0);
    SpectatorFollows(mirror, p0);
    // OnDeserialization on the spectator's side
    var sent := owner.syncPositions;
    var synced := new Point[|sent|](k requires 0 <= k < |sent| => sent[k]);
    assert synced[..] == sent;
    mirror.CreateInkInstance(synced);
    copy := mirror.justBeforeInk;
  }
}
