/** UVortexInputProducer: caches controller events between simulation ticks
    and, on each tick's pull, copies the cache into the command slot, for a
    locally controlled pawn only. Each mutating member is modelled as a pure
    function returning the updated producer. */
module InputProducer {
  import opened Vectors
  import opened Wrappers

  type PawnId = nat

  /** What the owning pawn reports at pull time. */
  datatype PawnStatus = PawnStatus(hasController: bool, locallyControlled: bool)

  /** The pawns still alive, keyed by id: a weak owner reference resolves
      only when its id is present. */
  type World = map<PawnId, PawnStatus>

  datatype Producer = Producer(
    owner: Option<PawnId>,
    // cached state, overwritten by controller events
    cachedMove: Vec2,
    cachedLook: Vec2,
    jumpPressed: bool,
    jumpJustPressed: bool,
    crouchPressed: bool,
    // shadow copies, used only for change logging
    prevMove: Vec2,
    prevLook: Vec2,
    prevJumpPressed: bool,
    prevCrouchPressed: bool)

  /** The command the producer fills in: 2D move, 2D look and three flags. */
  datatype ProducedInput = ProducedInput(
    move: Vec2,
    look: Vec2,
    jumpPressed: bool,
    jumpJustPressed: bool,
    crouchPressed: bool)

  /** The producer after a pull, and the tick's command slot (None while no
      command has been added to it). */
  datatype Pulled = Pulled(producer: Producer, slot: Option<ProducedInput>)

  /** Every cached and shadow value is zero or false. */
  predicate Cleared(p: Producer) {
    && p.cachedMove == Zero2 && p.cachedLook == Zero2
    && !p.jumpPressed && !p.jumpJustPressed && !p.crouchPressed
    && p.prevMove == Zero2 && p.prevLook == Zero2
    && !p.prevJumpPressed && !p.prevCrouchPressed
  }

  /** The state every event and pull keeps: axes within [-1, 1] and a jump
      edge only while jump is held. */
  predicate Valid(p: Producer) {
    && InUnitBox(p.cachedMove) && InUnitBox(p.cachedLook)
    && InUnitBox(p.prevMove) && InUnitBox(p.prevLook)
    && (p.jumpJustPressed ==> p.jumpPressed)
  }

  /** The part of the state a pull copies out. */
  function Snapshot(p: Producer): ProducedInput {
    ProducedInput(p.cachedMove, p.cachedLook, p.jumpPressed, p.jumpJustPressed, p.crouchPressed)
  }

  /** A newly constructed producer: no owner, member initializers all zero. */
  function Fresh(): (r: Producer)
    ensures Cleared(r) && Valid(r) && r.owner.None?
  {
    Producer(None, Zero2, Zero2, false, false, false, Zero2, Zero2, false, false)
  }

  /** Clears all cached and shadow input; the owner stays. */
  function ResetCachedInput(p: Producer): (r: Producer)
    ensures Cleared(r) && Valid(r)
    ensures r.owner == p.owner
  {
    p.(cachedMove := Zero2, cachedLook := Zero2,
       jumpPressed := false, jumpJustPressed := false, crouchPressed := false,
       prevMove := Zero2, prevLook := Zero2,
       prevJumpPressed := false, prevCrouchPressed := false)
  }

  /** Binds the owner (a missing pawn is only reported, not refused) and
      clears all input. */
  function Initialize(p: Producer, pawn: Option<PawnId>): (r: Producer)
    ensures r.owner == pawn && Cleared(r) && Valid(r)
    ensures r == ResetCachedInput(p.(owner := pawn))
  {
    ResetCachedInput(p.(owner := pawn))
  }

  /** Reset forgets every event: two producers with the same owner agree
      after a reset, whatever they had cached. */
  lemma ResetForgetsHistory(p: Producer, q: Producer)
    requires p.owner == q.owner
    ensures ResetCachedInput(p) == ResetCachedInput(q)
    ensures ResetCachedInput(ResetCachedInput(p)) == ResetCachedInput(p)
    ensures Initialize(Fresh(), p.owner) == ResetCachedInput(p)
  {
  }

  function OnMove(p: Producer, v: Vec2): (r: Producer)
    ensures InUnitBox(r.cachedMove)
    ensures r.cachedMove == ClampUnit(v)
    ensures InUnitBox(v) ==> r.cachedMove == v
    ensures r == p.(cachedMove := r.cachedMove)
  {
    p.(cachedMove := ClampUnit(v))
  }

  function OnLook(p: Producer, v: Vec2): (r: Producer)
    ensures InUnitBox(r.cachedLook)
    ensures r.cachedLook == ClampUnit(v)
    ensures InUnitBox(v) ==> r.cachedLook == v
    ensures r == p.(cachedLook := r.cachedLook)
  {
    p.(cachedLook := ClampUnit(v))
  }

  /** Only the last move or look event before a pull counts. */
  lemma LastAxisEventWins(p: Producer, a: Vec2, b: Vec2)
    ensures OnMove(OnMove(p, a), b) == OnMove(p, b)
    ensures OnLook(OnLook(p, a), b) == OnLook(p, b)
  {
  }

  /** The edge is derived from the producer's own previous pressed state. */
  function OnJump(p: Producer, pressed: bool): (r: Producer)
    ensures r.jumpJustPressed <==> pressed && !p.jumpPressed
    ensures r.jumpPressed == pressed
    ensures r == p.(jumpPressed := r.jumpPressed, jumpJustPressed := r.jumpJustPressed)
    ensures r.jumpJustPressed ==> r.jumpPressed
  {
    p.(jumpJustPressed := pressed && !p.jumpPressed, jumpPressed := pressed)
  }

  /** Two presses in a row: the first raises the edge, the second lowers it. */
  lemma JumpHeldIsNotAnEdge(p: Producer)
    requires !p.jumpPressed
    ensures OnJump(p, true).jumpJustPressed
    ensures !OnJump(OnJump(p, true), true).jumpJustPressed
    ensures !OnJump(p, false).jumpJustPressed
  {
  }

  function OnCrouch(p: Producer, pressed: bool): (r: Producer)
    ensures r.crouchPressed == pressed
    ensures r == p.(crouchPressed := pressed)
  {
    p.(crouchPressed := pressed)
  }

  /** Change logging only records the current cached values as the shadow
      values; what a pull copies out is untouched. */
  function LogOnChange(p: Producer): (r: Producer)
    ensures Snapshot(r) == Snapshot(p) && r.owner == p.owner
    ensures r.prevMove == p.cachedMove && r.prevLook == p.cachedLook
    ensures r.prevJumpPressed == p.jumpPressed && r.prevCrouchPressed == p.crouchPressed
    ensures Valid(p) ==> Valid(r)
  {
    p.(prevMove := p.cachedMove, prevLook := p.cachedLook,
       prevJumpPressed := p.jumpPressed, prevCrouchPressed := p.crouchPressed)
  }

  /** The owner is alive, has a controller, and is locally controlled. */
  predicate CanProduce(p: Producer, world: World) {
    && p.owner.Some?
    && p.owner.value in world
    && world[p.owner.value].hasController
    && world[p.owner.value].locallyControlled
  }

  /** The per-tick pull. For a pawn that cannot produce, nothing changes.
      Otherwise the slot receives the cached snapshot and the single-use
      jump edge is cleared; a debug level of 2 or more also refreshes the
      shadow values. */
  function ProduceInput(p: Producer, world: World, slot: Option<ProducedInput>, debugLevel: int): (r: Pulled)
    ensures !CanProduce(p, world) ==> r.producer == p && r.slot == slot
    ensures CanProduce(p, world) ==>
      && r.slot.Some?
      && r.slot.value.move == p.cachedMove && r.slot.value.look == p.cachedLook
      && r.slot.value.jumpPressed == p.jumpPressed
      && r.slot.value.jumpJustPressed == p.jumpJustPressed
      && r.slot.value.crouchPressed == p.crouchPressed
    ensures CanProduce(p, world) ==>
      && !r.producer.jumpJustPressed
      && r.producer.owner == p.owner
      && r.producer.cachedMove == p.cachedMove && r.producer.cachedLook == p.cachedLook
      && r.producer.jumpPressed == p.jumpPressed && r.producer.crouchPressed == p.crouchPressed
    ensures CanProduce(p, world) && debugLevel >= 2 ==>
      r.producer.prevMove == p.cachedMove && r.producer.prevLook == p.cachedLook
      && r.producer.prevJumpPressed == p.jumpPressed && r.producer.prevCrouchPressed == p.crouchPressed
    ensures debugLevel < 2 ==>
      r.producer.prevMove == p.prevMove && r.producer.prevLook == p.prevLook
      && r.producer.prevJumpPressed == p.prevJumpPressed && r.producer.prevCrouchPressed == p.prevCrouchPressed
    ensures Valid(p) ==> Valid(r.producer)
    ensures Valid(p) && r.slot != slot ==>
      && r.slot.Some? && InUnitBox(r.slot.value.move)
      && (r.slot.value.jumpJustPressed ==> r.slot.value.jumpPressed)
  {
    if !CanProduce(p, world) then
      Pulled(p, slot)
    else
      var logged := if debugLevel >= 2 then LogOnChange(p) else p;
      Pulled(logged.(jumpJustPressed := false), Some(Snapshot(p)))
  }

  /** The debug level never changes what is produced, nor the cached state. */
  lemma LoggingIsObservational(p: Producer, world: World, slot: Option<ProducedInput>, d1: int, d2: int)
    ensures ProduceInput(p, world, slot, d1).slot == ProduceInput(p, world, slot, d2).slot
    ensures Snapshot(ProduceInput(p, world, slot, d1).producer)
         == Snapshot(ProduceInput(p, world, slot, d2).producer)
  {
  }

  /** Two pulls with no event in between: the edge reaches only the first. */
  lemma EdgeIsSingleUse(p: Producer, world: World, debugLevel: int)
    requires CanProduce(p, world)
    ensures var first := ProduceInput(p, world, None, debugLevel);
      var second := ProduceInput(first.producer, world, None, debugLevel);
      && first.slot.value.jumpJustPressed == p.jumpJustPressed
      && !second.slot.value.jumpJustPressed
      && second.slot.value.jumpPressed == p.jumpPressed
  {
  }

  /** A controller event, as routed by the pawn. */
  datatype ControllerEvent =
    | MoveEvent(value: Vec2)
    | LookEvent(value: Vec2)
    | JumpEvent(pressed: bool)
    | CrouchEvent(pressed: bool)

  function ApplyEvent(p: Producer, e: ControllerEvent): (r: Producer)
    ensures Valid(p) ==> Valid(r)
    ensures r.owner == p.owner
  {
    match e
    case MoveEvent(v) => OnMove(p, v)
    case LookEvent(v) => OnLook(p, v)
    case JumpEvent(b) => OnJump(p, b)
    case CrouchEvent(b) => OnCrouch(p, b)
  }

  /** The events received between two pulls, in order. */
  function ApplyEvents(p: Producer, es: seq<ControllerEvent>): Producer
    decreases |es|
  {
    if |es| == 0 then p else ApplyEvent(ApplyEvents(p, es[..|es| - 1]), es[|es| - 1])
  }

  /** Any run of events keeps the producer valid. */
  lemma {:induction false} ApplyEventsValid(p: Producer, es: seq<ControllerEvent>)
    requires Valid(p)
    ensures Valid(ApplyEvents(p, es))
    ensures ApplyEvents(p, es).owner == p.owner
    decreases |es|
  {
    if |es| > 0 {
      ApplyEventsValid(p, es[..|es| - 1]);
    }
  }

  /** The value of the last move event, if any. */
  function LastMove(es: seq<ControllerEvent>): Option<Vec2>
    decreases |es|
  {
    if |es| == 0 then None
    else if es[|es| - 1].MoveEvent? then Some(es[|es| - 1].value)
    else LastMove(es[..|es| - 1])
  }

  /** Overwrite semantics: the cached move is the clamped value of the last
      move event, or the earlier cached move when there was none. */
  lemma {:induction false} LastMoveWins(p: Producer, es: seq<ControllerEvent>)
    ensures LastMove(es).Some? ==> ApplyEvents(p, es).cachedMove == ClampUnit(LastMove(es).value)
    ensures LastMove(es).None? ==> ApplyEvents(p, es).cachedMove == p.cachedMove
    decreases |es|
  {
    if |es| > 0 && !es[|es| - 1].MoveEvent? {
      LastMoveWins(p, es[..|es| - 1]);
    }
  }

  /** The value of the last look event, if any. */
  function LastLook(es: seq<ControllerEvent>): Option<Vec2>
    decreases |es|
  {
    if |es| == 0 then None
    else if es[|es| - 1].LookEvent? then Some(es[|es| - 1].value)
    else LastLook(es[..|es| - 1])
  }

  /** The cached look is the clamped value of the last look event, or the
      earlier cached look when there was none. */
  lemma {:induction false} LastLookWins(p: Producer, es: seq<ControllerEvent>)
    ensures LastLook(es).Some? ==> ApplyEvents(p, es).cachedLook == ClampUnit(LastLook(es).value)
    ensures LastLook(es).None? ==> ApplyEvents(p, es).cachedLook == p.cachedLook
    decreases |es|
  {
    if |es| > 0 && !es[|es| - 1].LookEvent? {
      LastLookWins(p, es[..|es| - 1]);
    }
  }

  /** The state of the last crouch event, if any. */
  function LastCrouch(es: seq<ControllerEvent>): Option<bool>
    decreases |es|
  {
    if |es| == 0 then None
    else if es[|es| - 1].CrouchEvent? then Some(es[|es| - 1].pressed)
    else LastCrouch(es[..|es| - 1])
  }

  /** The crouch state is that of the last crouch event, or the earlier
      state when there was none. */
  lemma {:induction false} LastCrouchWins(p: Producer, es: seq<ControllerEvent>)
    ensures LastCrouch(es).Some? ==> ApplyEvents(p, es).crouchPressed == LastCrouch(es).value
    ensures LastCrouch(es).None? ==> ApplyEvents(p, es).crouchPressed == p.crouchPressed
    decreases |es|
  {
    if |es| > 0 && !es[|es| - 1].CrouchEvent? {
      LastCrouchWins(p, es[..|es| - 1]);
    }
  }

  /** The state of the last jump event, if any. */
  function LastJump(es: seq<ControllerEvent>): Option<bool>
    decreases |es|
  {
    if |es| == 0 then None
    else if es[|es| - 1].JumpEvent? then Some(es[|es| - 1].pressed)
    else LastJump(es[..|es| - 1])
  }

  /** The held jump state follows the last jump event, and an edge can only
      stand while that last event is a press; with no jump event both flags
      are left as they were. */
  lemma {:induction false} JumpFollowsLastEvent(p: Producer, es: seq<ControllerEvent>)
    ensures LastJump(es).None? ==>
      ApplyEvents(p, es).jumpPressed == p.jumpPressed
      && ApplyEvents(p, es).jumpJustPressed == p.jumpJustPressed
    ensures LastJump(es).Some? ==>
      && ApplyEvents(p, es).jumpPressed == LastJump(es).value
      && (ApplyEvents(p, es).jumpJustPressed ==> LastJump(es).value)
    decreases |es|
  {
    if |es| > 0 {
      var before := ApplyEvents(p, es[..|es| - 1]);
      var e := es[|es| - 1];
      assert ApplyEvents(p, es) == ApplyEvent(before, e);
      if e.JumpEvent? {
        assert ApplyEvent(before, e) == OnJump(before, e.pressed);
      } else {
        JumpFollowsLastEvent(p, es[..|es| - 1]);
        assert ApplyEvent(before, e).jumpPressed == before.jumpPressed;
        assert ApplyEvent(before, e).jumpJustPressed == before.jumpJustPressed;
      }
    }
  }

  /** After a pull has consumed the edge, a later command can only report
      one if a press arrived in between. */
  lemma {:induction false} EdgeNeedsPress(p: Producer, es: seq<ControllerEvent>)
    requires !p.jumpJustPressed
    ensures ApplyEvents(p, es).jumpJustPressed ==> JumpEvent(true) in es
    decreases |es|
  {
    if |es| > 0 {
      var init := es[..|es| - 1];
      EdgeNeedsPress(p, init);
      if ApplyEvents(p, es).jumpJustPressed {
        if es[|es| - 1] == JumpEvent(true) {
          assert es[|es| - 1] in es;
        } else {
          assert ApplyEvents(p, init).jumpJustPressed;
          assert forall e :: e in init ==> e in es;
        }
      }
    }
  }

  /** Applying two runs one after the other is applying their concatenation. */
  lemma {:induction false} ApplyEventsAppend(p: Producer, a: seq<ControllerEvent>, b: seq<ControllerEvent>)
    ensures ApplyEvents(p, a + b) == ApplyEvents(ApplyEvents(p, a), b)
    decreases |b|
  {
    if |b| > 0 {
      var init := b[..|b| - 1];
      assert (a + b)[..|a + b| - 1] == a + init;
      assert (a + b)[|a + b| - 1] == b[|b| - 1];
      ApplyEventsAppend(p, a, init);
    } else {
      assert a + b == a;
    }
  }

  /** A run with no jump event in it. */
  predicate NoJump(es: seq<ControllerEvent>) {
    forall i :: 0 <= i < |es| ==> !es[i].JumpEvent?
  }

  /** Move, look and crouch events leave both jump flags as they were. */
  lemma {:induction false} NonJumpKeepsJumpFlags(p: Producer, es: seq<ControllerEvent>)
    requires NoJump(es)
    ensures ApplyEvents(p, es).jumpPressed == p.jumpPressed
    ensures ApplyEvents(p, es).jumpJustPressed == p.jumpJustPressed
    decreases |es|
  {
    if |es| > 0 {
      var init := es[..|es| - 1];
      assert NoJump(init) by {
        forall i | 0 <= i < |init| ensures !init[i].JumpEvent? {
          assert init[i] == es[i];
        }
      }
      NonJumpKeepsJumpFlags(p, init);
      assert !es[|es| - 1].JumpEvent?;
    }
  }

  /** A press is an edge exactly when jump was released before it, and that
      edge survives any move, look and crouch events after it in the same
      tick, up to the pull, which hands it to the produced command. */
  lemma RisingPressSurvives(p: Producer, pre: seq<ControllerEvent>, post: seq<ControllerEvent>,
                            world: World, debugLevel: int)
    ensures var q := ApplyEvents(p, pre + [JumpEvent(true)] + post);
      NoJump(post) ==>
        && q.jumpPressed
        && q.jumpJustPressed == !ApplyEvents(p, pre).jumpPressed
        && (CanProduce(q, world) ==>
              ProduceInput(q, world, None, debugLevel).slot.value.jumpJustPressed
                == !ApplyEvents(p, pre).jumpPressed)
  {
    if NoJump(post) {
      var mid := pre + [JumpEvent(true)];
      ApplyEventsAppend(p, mid, post);
      ApplyEventsAppend(p, pre, [JumpEvent(true)]);
      assert [JumpEvent(true)][..0] == [];
      NonJumpKeepsJumpFlags(ApplyEvents(p, mid), post);
    }
  }

  /** With a binding that repeats while the button is held, two presses
      arriving before one pull leave no edge, and a press released before
      the pull leaves neither flag: the press is never seen by the pull. */
  lemma EdgeLostWithinOneTick(p: Producer)
    requires !p.jumpPressed
    ensures !ApplyEvents(p, [JumpEvent(true), JumpEvent(true)]).jumpJustPressed
    ensures ApplyEvents(p, [JumpEvent(true), JumpEvent(true)]).jumpPressed
    ensures var q := ApplyEvents(p, [JumpEvent(true), JumpEvent(false)]);
      !q.jumpPressed && !q.jumpJustPressed
  {
    var two := [JumpEvent(true), JumpEvent(true)];
    assert two[..1] == [JumpEvent(true)];
    assert [JumpEvent(true)][..0] == [];
    var release := [JumpEvent(true), JumpEvent(false)];
    assert release[..1] == [JumpEvent(true)];
  }

  /** Whether the i-th press of a run is a rising edge, given the held
      state before the run. */
  predicate Edge(heldBefore: bool, presses: seq<bool>, i: nat)
    requires i < |presses|
  {
    presses[i] && !(if i == 0 then heldBefore else presses[i - 1])
  }

  /** One jump event before each of a run of pulls. Each pulled command
      carries the edge exactly when its press follows a release, so no two
      consecutive commands both report the edge. */
  method ProduceAfterEachJump(p: Producer, world: World, presses: seq<bool>, debugLevel: int)
    returns (edges: seq<bool>, q: Producer)
    requires CanProduce(p, world)
    ensures |edges| == |presses|
    ensures forall i :: 0 <= i < |presses| ==> edges[i] == Edge(p.jumpPressed, presses, i)
    ensures forall i :: 0 < i < |edges| ==> !(edges[i - 1] && edges[i])
    ensures |presses| > 0 ==> q.jumpPressed == presses[|presses| - 1] && !q.jumpJustPressed
    ensures q.owner == p.owner
  {
    q := p;
    edges := [];
    var i := 0;
    while i < |presses|
      invariant 0 <= i <= |presses|
      invariant |edges| == i
      invariant q.owner == p.owner
      invariant q.jumpPressed == (if i == 0 then p.jumpPressed else presses[i - 1])
      invariant i > 0 ==> !q.jumpJustPressed
      invariant forall j :: 0 <= j < i ==> edges[j] == Edge(p.jumpPressed, presses, j)
    {
      var pulled := ProduceInput(OnJump(q, presses[i]), world, None, debugLevel);
      edges := edges + [pulled.slot.value.jumpJustPressed];
      q := pulled.producer;
      i := i + 1;
    }
    forall j | 0 < j < |edges|
      ensures !(edges[j - 1] && edges[j])
    {
      assert Edge(p.jumpPressed, presses, j - 1) ==> presses[j - 1];
    }
  }

  /** Bound to a local pawn, with jump events released, pressed, pressed
      and one pull after each: the edge is reported only on the second. */
  lemma JumpScenario(id: PawnId)
    ensures var world := map[id := PawnStatus(true, true)];
      var p := Initialize(Fresh(), Some(id));
      var t1 := ProduceInput(OnJump(p, false), world, None, 0);
      var t2 := ProduceInput(OnJump(t1.producer, true), world, None, 0);
      var t3 := ProduceInput(OnJump(t2.producer, true), world, None, 0);
      [t1.slot.value.jumpJustPressed, t2.slot.value.jumpJustPressed, t3.slot.value.jumpJustPressed]
        == [false, true, false]
  {
  }

  /** Bound to a local pawn: a move event of (0.5, -2) is pulled as
      (0.5, -1); the producer itself does not quantize. */
  lemma MoveScenario(id: PawnId)
    ensures var world := map[id := PawnStatus(true, true)];
      var p := OnMove(Initialize(Fresh(), Some(id)), Vec2(0.5, -2.0));
      ProduceInput(p, world, None, 0).slot == Some(ProducedInput(Vec2(0.5, -1.0), Zero2, false, false, false))
  {
  }

  /** Bound to a pawn controlled elsewhere: nothing is added to the slot. */
  lemma RemoteScenario(id: PawnId, hasController: bool, v: Vec2)
    ensures var world := map[id := PawnStatus(hasController, false)];
      var p := OnJump(OnMove(Initialize(Fresh(), Some(id)), v), true);
      ProduceInput(p, world, None, 2) == Pulled(p, None)
  {
  }
}
