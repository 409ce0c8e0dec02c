/** The pen (UdonScript/Pen.cs): its four-mode state machine driven by
    broadcast handler names, the double-click window, and the bookkeeping of
    the strokes it commits to its ink pool. */
module Pens {
  import opened Seqs
  import opened Inks
  import opened Erasers

  /** `currentState`: StatePenIdle = 0, StatePenUsing = 1, StateEraserIdle = 2,
      StateEraserUsing = 3. */
  datatype Mode = PenIdle | PenUsing | EraserIdle | EraserUsing

  predicate IsEraserMode(m: Mode)
  {
    m == EraserIdle || m == EraserUsing
  }

  /** The pen handlers that `SendCustomNetworkEvent(NetworkEventTarget.All, …)`
      names; every replica, the sender's included, runs the named handler. */
  datatype Event =
    | ChangeStateToPenIdle
    | ChangeStateToPenUsing
    | ChangeStateToEraseIdle
    | ChangeStateToEraseUsing
    | DestroyJustBeforeInk

  /** The PenManager handlers that OnPickup and OnDrop broadcast (UI only). */
  datatype ManagerEvent = StartUsing | EndUsing

  /** `clickInterval = 0.184f` seconds, in milliseconds. */
  const ClickInterval: nat := 184

  /** `useDoubleClick && Time.time - prevClickTime < clickInterval`. */
  predicate IsDoubleClick(useDoubleClick: bool, prevClickTime: nat, now: nat)
    ensures !useDoubleClick ==> !IsDoubleClick(useDoubleClick, prevClickTime, now)
    ensures useDoubleClick && prevClickTime <= now ==>
              (IsDoubleClick(useDoubleClick, prevClickTime, now) <==> now < prevClickTime + ClickInterval)
  {
    useDoubleClick && now - prevClickTime < ClickInterval
  }

  /** What OnPickupUseDown leaves in `prevClickTime`: zero after a
      double-click, otherwise the time of this press. */
  function NextClickTime(useDoubleClick: bool, prevClickTime: nat, now: nat): (r: nat)
    ensures r <= now
    ensures r == 0 || r == now
    ensures 0 < now ==> (r == now <==> !IsDoubleClick(useDoubleClick, prevClickTime, now))
  {
    if IsDoubleClick(useDoubleClick, prevClickTime, now) then 0 else now
  }

  /** The broadcasts OnPickupUseDown chooses from the current mode. */
  function UseDownEvents(m: Mode, doubleClick: bool): (r: seq<Event>)
    ensures |r| <= 2
    ensures r != [] <==> m == PenIdle || m == EraserIdle
    ensures DestroyJustBeforeInk in r <==> doubleClick && m == PenIdle
    ensures doubleClick && r != [] ==> IsEraserMode(ModeAfter(m, r)) != IsEraserMode(m)
  {
    if doubleClick then
      match m
      case PenIdle => [DestroyJustBeforeInk, ChangeStateToEraseIdle]
      case EraserIdle => [ChangeStateToPenIdle]
      case _ => []
    else
      match m
      case PenIdle => [ChangeStateToPenUsing]
      case EraserIdle => [ChangeStateToEraseUsing]
      case _ => []
  }

  /** The broadcasts OnPickupUseUp chooses from the current mode. */
  function UseUpEvents(m: Mode): (r: seq<Event>)
    ensures |r| <= 1
    ensures r != [] <==> m == PenUsing || m == EraserUsing
    ensures r != [] ==> Next(m, r[0]) != PenUsing && Next(m, r[0]) != EraserUsing
    ensures r != [] ==> IsEraserMode(Next(m, r[0])) == IsEraserMode(m)
  {
    match m
    case PenUsing => [ChangeStateToPenIdle]
    case EraserUsing => [ChangeStateToEraseIdle]
    case _ => []
  }

  /** The mode a replica is in after running the handler an event names: each
      ChangeStateTo* handler ends in its own mode whatever the mode before, and
      DestroyJustBeforeInk leaves the mode alone. */
  function Next(m: Mode, e: Event): (r: Mode)
    ensures e == DestroyJustBeforeInk ==> r == m
    ensures e != DestroyJustBeforeInk ==>
              && (IsEraserMode(r) <==> e == ChangeStateToEraseIdle || e == ChangeStateToEraseUsing)
              && (r in {PenUsing, EraserUsing} <==> e == ChangeStateToPenUsing || e == ChangeStateToEraseUsing)
  {
    match e
    case ChangeStateToPenIdle => PenIdle
    case ChangeStateToPenUsing => PenUsing
    case ChangeStateToEraseIdle => EraserIdle
    case ChangeStateToEraseUsing => EraserUsing
    case DestroyJustBeforeInk => m
  }

  function ModeAfter(m: Mode, es: seq<Event>): Mode
    decreases |es|
  {
    if es == [] then m else ModeAfter(Next(m, es[0]), es[1..])
  }

  /** The gestures the tool is meant to react to, a press being either a
      normal press or a double-click as the window decides. */
  datatype Gesture = PickedUp | Dropped | Press | DoubleClick | Release

  /** The tool's intended transition table, stated independently of the
      handlers: pressing starts drawing or erasing from the idle modes; a
      double-click swaps pen and eraser from the idle modes; releasing ends
      drawing or erasing; picking up or dropping always returns to the idle
      pen; everything else leaves the mode as it is. */
  function DesignedMode(m: Mode, g: Gesture): Mode
  {
    match (m, g)
    case (_, PickedUp) => PenIdle
    case (_, Dropped) => PenIdle
    case (PenIdle, Press) => PenUsing
    case (EraserIdle, Press) => EraserUsing
    case (PenIdle, DoubleClick) => EraserIdle
    case (EraserIdle, DoubleClick) => PenIdle
    case (PenUsing, Release) => PenIdle
    case (EraserUsing, Release) => EraserIdle
    case _ => m
  }

  /** The handler names each gesture handler broadcasts, once every replica has
      run them, move the mode exactly as the intended table says. */
  lemma BroadcastsFollowDesign(m: Mode)
    ensures ModeAfter(m, UseDownEvents(m, false)) == DesignedMode(m, Press)
    ensures ModeAfter(m, UseDownEvents(m, true)) == DesignedMode(m, DoubleClick)
    ensures ModeAfter(m, UseUpEvents(m)) == DesignedMode(m, Release)
    ensures ModeAfter(m, [ChangeStateToPenIdle]) == DesignedMode(m, PickedUp)
    ensures ModeAfter(m, [ChangeStateToPenIdle]) == DesignedMode(m, Dropped)
  {
    forall m': Mode, e: Event ensures ModeAfter(m', [e]) == Next(m', e) {
      ModeAfterCons(m', e, []);
    }
    ModeAfterCons(m, DestroyJustBeforeInk, [ChangeStateToEraseIdle]);
  }

  lemma ModeAfterCons(m: Mode, e: Event, es: seq<Event>)
    ensures ModeAfter(m, [e] + es) == ModeAfter(Next(m, e), es)
  {
  }

  /** How a run of presses at the given times is classified, starting from the
      recorded `prevClickTime`; `true` marks a double-click. Since a
      double-click resets the recorded time to zero, the press after one is a
      double-click only while the clock itself is still inside the window. */
  function Presses(useDoubleClick: bool, prevClickTime: nat, times: seq<nat>): (r: seq<bool>)
    ensures |r| == |times|
    ensures forall i :: 0 <= i < |times| ==>
              r[i] == IsDoubleClick(useDoubleClick, if i == 0 then prevClickTime else
                                      (if r[i - 1] then 0 else times[i - 1]), times[i])
    ensures forall i :: 0 < i < |times| && r[i - 1] && times[i] >= ClickInterval ==> !r[i]
    decreases |times|
  {
    if times == [] then []
    else
      [IsDoubleClick(useDoubleClick, prevClickTime, times[0])]
        + Presses(useDoubleClick, NextClickTime(useDoubleClick, prevClickTime, times[0]), times[1..])
  }

  /** Two presses: if the first is a normal press, the second is a double-click
      exactly when double-click is on and it follows within the window. */
  lemma TwoPresses(useDoubleClick: bool, prevClickTime: nat, t1: nat, t2: nat)
    requires !IsDoubleClick(useDoubleClick, prevClickTime, t1)
    ensures Presses(useDoubleClick, prevClickTime, [t1, t2]) == [false, useDoubleClick && t2 - t1 < ClickInterval]
  {
  }

  /** Three rapid presses give one double-click, not two: once the clock has
      passed the window, the press after a double-click is a normal press. */
  lemma ThreeRapidPresses(prevClickTime: nat, t1: nat, t2: nat, t3: nat)
    requires ClickInterval <= t1 < t2 < t3 < t1 + ClickInterval
    requires !IsDoubleClick(true, prevClickTime, t1)
    ensures Presses(true, prevClickTime, [t1, t2, t3]) == [false, true, false]
  {
  }

  /** `System.Array.Reverse` on the array the trail's positions were copied into. */
  method ReverseInPlace<T>(a: array<T>)
    modifies a
    ensures a[..] == Reverse(old(a[..]))
  {
    var n, i := a.Length, 0;
    while i < n / 2
      invariant 0 <= i <= n / 2
      invariant forall k :: 0 <= k < i ==> a[k] == old(a[n - 1 - k]) && a[n - 1 - k] == old(a[k])
      invariant forall k :: i <= k < n - i ==> a[k] == old(a[k])
    {
      a[i], a[n - 1 - i] := a[n - 1 - i], a[i];
      i := i + 1;
    }
  }

  class Pen {
    /** From the settings, read once by `Init`. */
    const inkLayer: int
    const inkPrefix: string
    const inkPoolName: string
    const inkPool: InkPool
    const eraser: Eraser

    /** Whether the local player holds this pen (set by OnPickup, cleared by OnDrop). */
    var isUser: bool
    /** `currentState`. */
    var mode: Mode
    var useDoubleClick: bool
    /** `prevClickTime`, in milliseconds. */
    var prevClickTime: nat
    /** The number the next stroke is named with. */
    var inkNo: int
    /** The stroke CreateInkInstance made last, or null before the first. */
    var justBeforeInk: Ink?
    /** The trail renderer's game object is active. */
    var trailActive: bool
    /** The trail renderer's positions, in the order `GetPositions` reports them. */
    var trail: seq<Point>
    /** `penManager.syncPositions`, the synced point list of the last commit. */
    var syncPositions: seq<Point>
    /** Handler names broadcast so far, in order. */
    var outbox: seq<Event>
    /** PenManager handler names broadcast so far, in order. */
    var managerOutbox: seq<ManagerEvent>

    /** The ink pool holds only this pen's strokes, without repeats. */
    ghost predicate PoolValid()
      reads this, inkPool
    {
      && inkPool.Valid()
      && inkPool.name == inkPoolName
      && forall ink <- inkPool.inks ::
           ink.parent == Some(inkPool) && StartsWith(ink.name, inkPrefix) && ink.colliderLayer == inkLayer
    }

    /** The object invariant: besides the pool, the trail is active exactly while
        drawing and empty otherwise, and the eraser is shown exactly in the
        eraser modes, erasing exactly in EraserUsing, with the matching material. */
    ghost predicate Valid()
      reads this, inkPool, eraser
    {
      && PoolValid()
      && eraser.inkLayer == inkLayer && eraser.inkPrefix == inkPrefix && eraser.inkPoolName == inkPoolName
      && (trailActive <==> mode == PenUsing)
      && (!trailActive ==> trail == [])
      && (eraser.active <==> IsEraserMode(mode))
      && (eraser.isErasing <==> mode == EraserUsing)
      && eraser.material == (if eraser.isErasing then Erasing else Normal)
    }

    /** CreateInkInstance's effect: nothing for an empty point list, otherwise one
        fresh stroke appended to the pool, named with the old counter, holding
        exactly the given points; the counter goes up by one and the new stroke
        becomes `justBeforeInk`. */
    twostate predicate Committed(positions: seq<Point>)
      reads this, inkPool
    {
      if positions == [] then InkKept()
      else
        && justBeforeInk != null && fresh(justBeforeInk)
        && inkPool.inks == old(inkPool.inks) + [justBeforeInk]
        && justBeforeInk.name == InkName(inkPrefix, old(inkNo))
        && justBeforeInk.points == positions
        && justBeforeInk.parent == Some(inkPool)
        && justBeforeInk.colliderLayer == inkLayer
        && inkNo == old(inkNo) + 1
    }

    twostate predicate InkKept()
      reads this, inkPool
    {
      inkNo == old(inkNo) && justBeforeInk == old(justBeforeInk) && inkPool.inks == old(inkPool.inks)
    }

    /** FinishDrawing's effect: the holder publishes the trail's points reversed
        and commits a stroke with that same list; on every replica the trail
        ends inactive and empty. */
    twostate predicate FinishedDrawing()
      reads this, inkPool
    {
      && !trailActive && trail == []
      && if old(isUser) then
           syncPositions == Reverse(old(trail)) && Committed(Reverse(old(trail)))
         else
           syncPositions == old(syncPositions) && InkKept()
    }

    /** Nothing about drawing or the pool changed. */
    twostate predicate DrawingKept()
      reads this, inkPool
    {
      trail == old(trail) && syncPositions == old(syncPositions) && InkKept()
    }

    /** DestroyJustBeforeInk's effect: the last stroke made leaves the pool (if it
        is still there) and the counter goes down by one. */
    twostate predicate UndoneLast()
      reads this, inkPool
    {
      && inkNo == old(inkNo) - 1
      && justBeforeInk == old(justBeforeInk)
      && inkPool.inks == (if justBeforeInk == null then old(inkPool.inks)
                          else var last: Ink := justBeforeInk; Without(old(inkPool.inks), last))
    }

    /** `Init(penManager, settings)`: the pool gets the settings' pool name, the
        eraser is initialised with the same settings and hidden. */
    constructor (inkLayer: int, inkPrefix: string, inkPoolName: string)
      ensures Valid() && fresh(inkPool) && fresh(eraser)
      ensures this.inkLayer == inkLayer && this.inkPrefix == inkPrefix && this.inkPoolName == inkPoolName
      ensures mode == PenIdle && useDoubleClick && prevClickTime == 0 && !isUser
      ensures inkNo == 0 && justBeforeInk == null && inkPool.inks == []
      ensures trail == [] && syncPositions == [] && outbox == [] && managerOutbox == []
    {
      this.inkLayer := inkLayer;
      this.inkPrefix := inkPrefix;
      this.inkPoolName := inkPoolName;
      inkPool := new InkPool(inkPoolName);
      var e := new Eraser(inkLayer, inkPrefix, inkPoolName);
      e.SetActive(false);
      eraser := e;
      isUser := false;
      mode := PenIdle;
      useDoubleClick := true;
      prevClickTime := 0;
      inkNo := 0;
      justBeforeInk := null;
      trailActive := false;
      trail := [];
      syncPositions := [];
      outbox := [];
      managerOutbox := [];
    }

    /** The trail renderer emitting a vertex at `p`; it does so only while its
        game object is active. This is the engine's side, not Pen.cs. */
    method Record(p: Point)
      requires Valid()
      modifies this`trail
      ensures Valid() && trail == if trailActive then old(trail) + [p] else old(trail)
    {
      if trailActive {
        trail := trail + [p];
      }
    }

    method OnPickup()
      modifies this`isUser, this`outbox, this`managerOutbox
      ensures isUser
      ensures managerOutbox == old(managerOutbox) + [StartUsing]
      ensures outbox == old(outbox) + [Event.ChangeStateToPenIdle]
    {
      isUser := true;
      managerOutbox := managerOutbox + [StartUsing];
      outbox := outbox + [Event.ChangeStateToPenIdle];
    }

    method OnDrop()
      modifies this`isUser, this`outbox, this`managerOutbox
      ensures !isUser
      ensures managerOutbox == old(managerOutbox) + [EndUsing]
      ensures outbox == old(outbox) + [Event.ChangeStateToPenIdle]
    {
      isUser := false;
      managerOutbox := managerOutbox + [EndUsing];
      outbox := outbox + [Event.ChangeStateToPenIdle];
    }

    /** A press at time `now` (milliseconds). */
    method OnPickupUseDown(now: nat)
      modifies this`prevClickTime, this`outbox
      ensures prevClickTime == NextClickTime(useDoubleClick, old(prevClickTime), now)
      ensures outbox == old(outbox) + UseDownEvents(mode, IsDoubleClick(useDoubleClick, old(prevClickTime), now))
    {
      if useDoubleClick && now - prevClickTime < ClickInterval {
        prevClickTime := 0;
        match mode {
          case PenIdle =>
            outbox := outbox + [Event.DestroyJustBeforeInk];
            outbox := outbox + [Event.ChangeStateToEraseIdle];
          case EraserIdle =>
            outbox := outbox + [Event.ChangeStateToPenIdle];
          case _ =>
        }
      } else {
        prevClickTime := now;
        match mode {
          case PenIdle =>
            outbox := outbox + [Event.ChangeStateToPenUsing];
          case EraserIdle =>
            outbox := outbox + [Event.ChangeStateToEraseUsing];
          case _ =>
        }
      }
    }

    /** A release. */
    method OnPickupUseUp()
      modifies this`outbox
      ensures outbox == old(outbox) + UseUpEvents(mode)
    {
      match mode {
        case PenUsing =>
          outbox := outbox + [Event.ChangeStateToPenIdle];
        case EraserUsing =>
          outbox := outbox + [Event.ChangeStateToEraseIdle];
        case _ =>
      }
    }

    method SetUseDoubleClick(value: bool)
      modifies this`useDoubleClick, this`outbox
      ensures useDoubleClick == value
      ensures outbox == old(outbox) + [Event.ChangeStateToPenIdle]
    {
      useDoubleClick := value;
      outbox := outbox + [Event.ChangeStateToPenIdle];
    }

    method DestroyJustBeforeInk()
      requires Valid()
      modifies this`inkNo, inkPool
      ensures Valid() && UndoneLast()
    {
      if justBeforeInk != null {
        inkPool.Destroy(justBeforeInk);
      }
      inkNo := inkNo - 1;
    }

    method ChangeStateToPenIdle()
      requires Valid()
      modifies this`mode, this`trail, this`trailActive, this`syncPositions, this`inkNo, this`justBeforeInk
      modifies inkPool, eraser`isErasing, eraser`material, eraser`active
      ensures Valid() && mode == PenIdle
      ensures if old(mode) == PenUsing then FinishedDrawing() else DrawingKept()
    {
      match mode {
        case PenUsing =>
          FinishDrawing();
        case EraserIdle =>
          ChangeToPen();
        case EraserUsing =>
          FinishErasing();
          ChangeToPen();
        case PenIdle =>
      }
      mode := PenIdle;
    }

    method ChangeStateToPenUsing()
      requires Valid()
      modifies this`mode, this`trail, this`trailActive, this`syncPositions, this`inkNo, this`justBeforeInk
      modifies inkPool, eraser`isErasing, eraser`material, eraser`active
      ensures Valid() && mode == PenUsing
      ensures DrawingKept()
    {
      match mode {
        case PenIdle =>
          StartDrawing();
        case EraserIdle =>
          ChangeToPen();
          StartDrawing();
        case EraserUsing =>
          FinishErasing();
          ChangeToPen();
          StartDrawing();
        case PenUsing =>
      }
      mode := PenUsing;
    }

    method ChangeStateToEraseIdle()
      requires Valid()
      modifies this`mode, this`trail, this`trailActive, this`syncPositions, this`inkNo, this`justBeforeInk
      modifies inkPool, eraser`isErasing, eraser`material, eraser`active
      ensures Valid() && mode == EraserIdle
      ensures if old(mode) == PenUsing then FinishedDrawing() else DrawingKept()
    {
      match mode {
        case PenIdle =>
          ChangeToEraser();
        case PenUsing =>
          FinishDrawing();
          ChangeToEraser();
        case EraserUsing =>
          FinishErasing();
        case EraserIdle =>
      }
      mode := EraserIdle;
    }

    method ChangeStateToEraseUsing()
      requires Valid()
      modifies this`mode, this`trail, this`trailActive, this`syncPositions, this`inkNo, this`justBeforeInk
      modifies inkPool, eraser`isErasing, eraser`material, eraser`active
      ensures Valid() && mode == EraserUsing
      ensures if old(mode) == PenUsing then FinishedDrawing() else DrawingKept()
    {
      match mode {
        case PenIdle =>
          ChangeToEraser();
          StartErasing();
        case PenUsing =>
          FinishDrawing();
          ChangeToEraser();
          StartErasing();
        case EraserIdle =>
          StartErasing();
        case EraserUsing =>
      }
      mode := EraserUsing;
    }

    /** A replica running the handler a received broadcast names. */
    method Apply(e: Event)
      requires Valid()
      modifies this`mode, this`trail, this`trailActive, this`syncPositions, this`inkNo, this`justBeforeInk
      modifies inkPool, eraser`isErasing, eraser`material, eraser`active
      ensures Valid() && mode == Next(old(mode), e)
      ensures e == Event.DestroyJustBeforeInk ==> UndoneLast() && trail == old(trail) && syncPositions == old(syncPositions)
      ensures e != Event.DestroyJustBeforeInk ==>
                if old(mode) == PenUsing && mode != PenUsing then FinishedDrawing() else DrawingKept()
    {
      match e {
        case ChangeStateToPenIdle => ChangeStateToPenIdle();
        case ChangeStateToPenUsing => ChangeStateToPenUsing();
        case ChangeStateToEraseIdle => ChangeStateToEraseIdle();
        case ChangeStateToEraseUsing => ChangeStateToEraseUsing();
        case DestroyJustBeforeInk => DestroyJustBeforeInk();
      }
    }

    /** Destroys every stroke in the pool, one child at a time, and restarts the
        numbering. `justBeforeInk` is left pointing at a destroyed stroke. */
    method Clear()
      requires Valid()
      modifies this`inkNo, inkPool
      ensures Valid() && inkPool.inks == [] && inkNo == 0 && justBeforeInk == old(justBeforeInk)
    {
      var children := inkPool.inks;
      for i := 0 to |children|
        invariant inkPool.inks == children[i..]
        invariant Valid()
      {
        WithoutAt(children[i..], 0);
        inkPool.Destroy(children[i]);
      }
      inkNo := 0;
    }

    method StartDrawing()
      modifies this`trailActive
      ensures trailActive
    {
      trailActive := true;
    }

    method FinishDrawing()
      requires PoolValid()
      modifies this`trail, this`trailActive, this`syncPositions, this`inkNo, this`justBeforeInk, inkPool
      ensures PoolValid() && FinishedDrawing()
    {
      if isUser {
        var positions := new Point[|trail|](i requires 0 <= i < |trail| reads this => trail[i]);
        ReverseInPlace(positions);
        syncPositions := positions[..];
        CreateInkInstance(positions);
      }
      trailActive := false;
      trail := [];
    }

    method StartErasing()
      modifies eraser`isErasing, eraser`material
      ensures eraser.isErasing && eraser.material == Erasing
    {
      eraser.StartErasing();
    }

    method FinishErasing()
      modifies eraser`isErasing, eraser`material
      ensures !eraser.isErasing && eraser.material == Normal
    {
      eraser.FinishErasing();
    }

    /** Back to the pen: the eraser stops erasing and is hidden. */
    method ChangeToPen()
      modifies eraser`isErasing, eraser`material, eraser`active
      ensures !eraser.isErasing && eraser.material == Normal && !eraser.active
    {
      eraser.FinishErasing();
      eraser.SetActive(false);
    }

    method ChangeToEraser()
      modifies eraser`active
      ensures eraser.active
    {
      eraser.SetActive(true);
    }

    /** Commits a stroke holding `positions`; also what every other replica runs
        when the synced point list arrives. */
    method CreateInkInstance(positions: array<Point>)
      requires PoolValid()
      modifies this`inkNo, this`justBeforeInk, inkPool
      ensures PoolValid() && Committed(positions[..])
    {
      if positions.Length == 0 {
        return;
      }
      var ink := new Ink(InkName(inkPrefix, inkNo), positions[..], inkLayer, Some(inkPool));
      inkNo := inkNo + 1;
      inkPool.Add(ink);
      justBeforeInk := ink;
    }

    /** Every stroke in a valid pen's pool passes the eraser's test while erasing
        is on. */
    lemma PooledStrokesAreErasable(ink: Ink)
      requires Valid() && ink in inkPool.inks
      ensures Accepts(true, eraser.inkLayer, eraser.inkPrefix, eraser.inkPoolName, Collider(ink.colliderLayer, Some(ink)))
    {
    }
  }
}
