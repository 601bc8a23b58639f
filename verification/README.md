# VortexMover input core in Dafny

This project models the input path of the VortexMover plugin. The plugin adds
client-predicted, server-reconciled character movement to Unreal Engine's
Mover framework. Its input path has two parts:

- `FVortexInputCmd` is the command sent over the network once per tick. It
  holds a move vector, an orientation vector, a control rotation and three
  flags: jump held, jump just pressed, and crouch held. The model covers its
  two-decimal move setter and its structural equality. It also covers the
  reconciliation test, interpolation between two history samples, merging,
  decay and the field order of its network serializer.
- `UVortexInputProducer` caches controller events (move, look, jump,
  crouch) between ticks. On each tick's pull it copies the cache into the
  command slot, but only for a locally controlled pawn. It derives the jump
  edge as "pressed now and not before" and clears that edge after each pull.

Every in-place C++ operation becomes a pure function that returns the updated
value. Floats are modelled as `real`. Engine rounding (`RoundToFloat`) is
`floor(x + 1/2)`. A value is "on the grid" when it is a whole number of
hundredths.

Files:

- `vectors.dfy` (module `Vectors`): vectors, rotator, rounding, clamp, lerp and scaling.
- `wrappers.dfy` (module `Wrappers`): `Option`.
- `input_cmd.dfy` (module `InputCommand`): the command and its operations.
- `net_serialize.dfy` (module `NetSerialization`): the wire layout, and a load that reads it back.
- `input_producer.dfy` (module `InputProducer`): the producer state machine and its pull.

Engine collaborators become parameters:

- The owning pawn's weak pointer is an `Option<PawnId>`.
- The pawns that are still alive, with their controller and local-control status at pull time, are a `map<PawnId, PawnStatus>`.
- The input debug console variable is an integer `debugLevel`.
- The `IsNearlyZero` tolerance is a `tolerance` parameter.
- The tick's command collection is an `Option<ProducedInput>` slot. It is `None` until a command has been added.

Some behaviour of the code differs from what client-predicted input layers
commonly do. The model follows the code:

- A pull for a pawn that is not locally controlled leaves the command slot
  untouched. No zeroed command is added.
- `Merge` ORs the three flags and keeps all continuous fields. It does not
  adopt the other command's non-zero move.
- The producer copies the cached move as is. It does not rotate the move by
  the camera and does not quantize it.
- `NetSerialize` reports success even when loading fails. Only the archive's
  own error flag shows the failure.
- Reconciliation uses exact equality, with no tolerance. A command whose orientation or rotation is rounded by the wire is therefore reconciled against its own copy.

The producer and the command header describe two different command
variants. The producer assigns a 2D `MoveInput` and a `LookInput`. The header
declares a protected 3D `MoveInput`, and an `OrientationInput` but no
`LookInput`. So the producer's output is its own record, `ProducedInput`,
and it is not passed through `SetMoveInput`.

## Model

| member | source | states |
|---|---|---|
| `Vectors.Quantize` | Plugins/VortexMover/Source/VortexMover/Private/Core/VortexInputDataTypes.cpp:9-11 | the stored axis is a whole number of hundredths, within 1/200 of the input, and an axis already on that grid is kept unchanged |
| `Vectors.ClampUnit` | Plugins/VortexMover/Source/VortexMover/Private/Core/VortexInputProducer.cpp:44 | each axis ends in [-1, 1]; in-range axes are kept, and axes below or above the range become -1 or 1 |
| `InputCommand.Default` | Plugins/VortexMover/Source/VortexMover/Public/Core/VortexInputDataTypes.h:37-45 | a new command has zero move, orientation and rotation and all three flags released; its move is on the grid and its edge flag is consistent |
| `InputCommand.SetMoveInput` | Plugins/VortexMover/Source/VortexMover/Private/Core/VortexInputDataTypes.cpp:6-12 | the stored move is on the hundredths grid and within 1/200 per axis of the input; an on-grid input is stored exactly; no other field changes |
| `InputCommand.SetMoveInputIdempotent` | Plugins/VortexMover/Source/VortexMover/Public/Core/VortexInputDataTypes.h:18 | with the getter `GetMoveInput`: setting the move to what the getter returns changes nothing, and the getter returns exactly the quantized input |
| `InputCommand.Equals` | Plugins/VortexMover/Source/VortexMover/Public/Core/VortexInputDataTypes.h:48-56 | the fieldwise comparison holds exactly when the two commands are the same value |
| `InputCommand.NotEquals` | Plugins/VortexMover/Source/VortexMover/Public/Core/VortexInputDataTypes.h:58 | inequality is exactly the negation of equality, i.e. the commands differ |
| `InputCommand.EqualsIsEquivalence` | Plugins/VortexMover/Source/VortexMover/Public/Core/VortexInputDataTypes.h:48-56 | equality is reflexive, symmetric and transitive |
| `InputCommand.ShouldReconcile` | Plugins/VortexMover/Source/VortexMover/Private/Core/VortexInputDataTypes.cpp:46-50 | a correction is requested exactly when some field differs from the authority's; never against an identical command; always when any one flag differs |
| `InputCommand.Interpolate` | Plugins/VortexMover/Source/VortexMover/Private/Core/VortexInputDataTypes.cpp:52-65 | the flags come from From below one half and from To at or above one half; move is the quantized lerp and is on the grid; orientation and rotation are lerped; edge consistency of both samples carries over |
| `InputCommand.InterpolateEndpoints` | Plugins/VortexMover/Source/VortexMover/Private/Core/VortexInputDataTypes.cpp:57-64 | at 0 the result is From with its move quantized and at 1 it is To with its move quantized; for on-grid samples it is the sample itself |
| `InputCommand.InterpolateSelf` | Plugins/VortexMover/Source/VortexMover/Private/Core/VortexInputDataTypes.cpp:62-64 | blending a sample with itself at any fraction returns that sample with its move quantized |
| `InputCommand.Merge` | Plugins/VortexMover/Source/VortexMover/Private/Core/VortexInputDataTypes.cpp:67-73 | each flag becomes the OR of both commands' flags; move, orientation and rotation are unchanged; edge consistency is kept |
| `InputCommand.MergeLaws` | Plugins/VortexMover/Source/VortexMover/Private/Core/VortexInputDataTypes.cpp:67-73 | merging is idempotent, the order of merged-in commands does not matter, a released default command is neutral, and the flags are symmetric |
| `InputCommand.Decay` | Plugins/VortexMover/Source/VortexMover/Private/Core/VortexInputDataTypes.cpp:75-83 | move is scaled by 1 - amount/4 and never grows for amounts in [0, 4]; the edge survives only when amount/4 is nearly zero; held jump, crouch, orientation and rotation are unchanged |
| `InputCommand.DecayEndpoints` | Plugins/VortexMover/Source/VortexMover/Private/Core/VortexInputDataTypes.cpp:75-83 | a zero decay changes nothing; a full decay keeps three quarters of the move and clears the edge |
| `InputCommand.DecayLeavesGrid` | Plugins/VortexMover/Source/VortexMover/Private/Core/VortexInputDataTypes.cpp:79 | decay does not re-quantize: an on-grid move of 0.01 decays to 0.0075, which is off the grid |
| `NetSerialization.PackMatchesQuantize` | Plugins/VortexMover/Source/VortexMover/Private/Core/VortexInputDataTypes.cpp:24 | the packed move on the wire has exactly the setter's two-decimal precision |
| `NetSerialization.FixedRoundTrip` | Plugins/VortexMover/Source/VortexMover/Private/Core/VortexInputDataTypes.cpp:25 | an orientation axis reads back as a whole number of 1/32767 steps, unchanged when it already is one, and within half a step of the input when the input is in [-1, 1] |
| `NetSerialization.RotatorRoundTrip` | Plugins/VortexMover/Source/VortexMover/Private/Core/VortexInputDataTypes.cpp:26 | a rotator angle reads back as a whole number of 360/65536-degree steps in [0, 360), unchanged when it already is one, and within half a step of the input modulo a full turn |
| `NetSerialization.WireImage` | Plugins/VortexMover/Source/VortexMover/Private/Core/VortexInputDataTypes.cpp:24-30 | the command as read back is exactly representable on the wire, keeps the three flags, and equals the sent command exactly when every continuous field of it was already representable |
| `NetSerialization.Encode` | Plugins/VortexMover/Source/VortexMover/Private/Core/VortexInputDataTypes.cpp:24-30 | one command is six items: packed move, fixed orientation, compressed rotation, then exactly three single-bit flags in the order jump, just-jumped, crouch; every item is readable in its position |
| `NetSerialization.Decode` | Plugins/VortexMover/Source/VortexMover/Private/Core/VortexInputDataTypes.cpp:24-30 | a whole command is read exactly when the first six items are readable in order; reading consumes exactly those six items and leaves the rest |
| `NetSerialization.NetSerialize` | Plugins/VortexMover/Source/VortexMover/Private/Core/VortexInputDataTypes.cpp:20-34 | success is always reported; saving appends the encoding and keeps the command; a full load replaces the command with the one read and consumes six items; a short stream raises the archive's error flag; an archive already in error reads nothing and leaves every field to what it yields |
| `NetSerialization.DecodeEncode` | Plugins/VortexMover/Source/VortexMover/Private/Core/VortexInputDataTypes.cpp:24-30 | reading back what was written gives the command with move, orientation and rotation each at wire precision and the flags exact, and gives the command itself when it was already at wire precision; trailing data is untouched |
| `NetSerialization.ReconcileAfterWireIffInexact` | Plugins/VortexMover/Source/VortexMover/Private/Core/VortexInputDataTypes.cpp:24-33 | a command loaded from another's encoding is that command at wire precision, with no archive error and nothing left over; it triggers a reconciliation exactly when some continuous field of the sent command is not representable on the wire |
| `NetSerialization.SetMoveInputSurvivesWire` | Plugins/VortexMover/Source/VortexMover/Private/Core/VortexInputDataTypes.cpp:8-30 | a command whose move was set through the setter, and whose orientation and rotation are already at wire precision, is saved and loaded back exactly and triggers no reconciliation |
| `NetSerialization.OrientationNotStoredAtWirePrecision` | Plugins/VortexMover/Source/VortexMover/Private/Core/VortexInputDataTypes.cpp:6-12 | the setter quantizes only the move: a command with orientation (0.3, 0, 0) set through it loads back different and is reconciled against itself |
| `NetSerialization.NegativeYawReadsBackWrapped` | Plugins/VortexMover/Source/VortexMover/Private/Core/VortexInputDataTypes.cpp:26 | a yaw of -90 reads back as 270, so exact comparison reconciles the command against itself |
| `NetSerialization.TruncatedRejected` | Plugins/VortexMover/Source/VortexMover/Private/Core/VortexInputDataTypes.cpp:24-30 | a stream cut anywhere inside a command does not decode |
| `NetSerialization.TruncatedLoadReportsSuccess` | Plugins/VortexMover/Source/VortexMover/Private/Core/VortexInputDataTypes.cpp:24-33 | loading a stream cut after n items still reports success and raises the archive's error flag; the first n fields hold the sent values at wire precision, the rest what the errored archive yields, and the command's previous contents play no part |
| `InputProducer.Fresh` | Plugins/VortexMover/Source/VortexMover/Public/Core/VortexInputProducer.h:42-55 | a new producer has no owner, zero move and look, and every flag and shadow value cleared |
| `InputProducer.ResetCachedInput` | Plugins/VortexMover/Source/VortexMover/Private/Core/VortexInputProducer.cpp:65-77 | all cached and shadow input is zero or false afterwards, the owner is kept, and the state is valid |
| `InputProducer.Initialize` | Plugins/VortexMover/Source/VortexMover/Private/Core/VortexInputProducer.cpp:11-16 | the owner is bound (even when absent) and the state is exactly the reset state |
| `InputProducer.ResetForgetsHistory` | Plugins/VortexMover/Source/VortexMover/Public/Core/VortexInputProducer.h:38-39 | after a reset no earlier event is visible: producers with the same owner coincide, reset is idempotent, and it equals initializing a new producer |
| `InputProducer.OnMove` | Plugins/VortexMover/Source/VortexMover/Private/Core/VortexInputProducer.cpp:41-45 | the cached move is the event value clamped into [-1, 1] per axis, in-range values are kept exactly, and nothing else changes |
| `InputProducer.OnLook` | Plugins/VortexMover/Source/VortexMover/Private/Core/VortexInputProducer.cpp:47-51 | the cached look is the event value clamped into [-1, 1] per axis, in-range values are kept exactly, and nothing else changes |
| `InputProducer.LastAxisEventWins` | Plugins/VortexMover/Source/VortexMover/Private/Core/VortexInputProducer.cpp:41-51 | a second move or look event overrides the first entirely |
| `InputProducer.OnJump` | Plugins/VortexMover/Source/VortexMover/Private/Core/VortexInputProducer.cpp:53-58 | the edge is set exactly when pressed now and not held before; held becomes the new value; nothing else changes |
| `InputProducer.JumpHeldIsNotAnEdge` | Plugins/VortexMover/Source/VortexMover/Private/Core/VortexInputProducer.cpp:53-58 | from released, press gives an edge, a second press gives none, and a release gives none |
| `InputProducer.OnCrouch` | Plugins/VortexMover/Source/VortexMover/Private/Core/VortexInputProducer.cpp:60-63 | crouch is overwritten and no other state changes |
| `InputProducer.LogOnChange` | Plugins/VortexMover/Source/VortexMover/Private/Core/VortexInputProducer.cpp:89-117 | only the shadow values change, to the current cached values; what a pull copies out is untouched |
| `InputProducer.ProduceInput` | Plugins/VortexMover/Source/VortexMover/Private/Core/VortexInputProducer.cpp:18-39 | with no live, controlled, local owner nothing changes; otherwise the slot gets the cached move, look and flags, only the edge is cleared, shadows refresh only at debug level 2 or more, and validity is kept |
| `InputProducer.LoggingIsObservational` | Plugins/VortexMover/Source/VortexMover/Private/Core/VortexInputProducer.cpp:34-36 | the debug level never changes the produced command or the cached state |
| `InputProducer.EdgeIsSingleUse` | Plugins/VortexMover/Source/VortexMover/Private/Core/VortexInputProducer.cpp:31-38 | with no event between two pulls the edge reaches only the first command, while held jump is repeated |
| `InputProducer.ApplyEvent` | Plugins/VortexMover/Source/VortexMover/Private/Core/VortexInputProducer.cpp:41-63 | every controller event keeps axes in [-1, 1] and the edge only while held, and never changes the owner |
| `InputProducer.ApplyEventsValid` | Plugins/VortexMover/Source/VortexMover/Private/Core/VortexInputProducer.cpp:41-63 | any sequence of controller events keeps the producer valid and its owner unchanged |
| `InputProducer.LastMoveWins` | Plugins/VortexMover/Source/VortexMover/Private/Core/VortexInputProducer.cpp:41-45 | after any run of events the cached move is the clamped last move event, or the earlier value when there was none |
| `InputProducer.LastLookWins` | Plugins/VortexMover/Source/VortexMover/Private/Core/VortexInputProducer.cpp:47-51 | after any run of events the cached look is the clamped last look event, or the earlier value when there was none |
| `InputProducer.LastCrouchWins` | Plugins/VortexMover/Source/VortexMover/Private/Core/VortexInputProducer.cpp:60-63 | after any run of events the crouch state is that of the last crouch event, or the earlier state when there was none |
| `InputProducer.JumpFollowsLastEvent` | Plugins/VortexMover/Source/VortexMover/Private/Core/VortexInputProducer.cpp:53-58 | after any run of events the held jump state is the last jump event's, an edge can stand only if that event is a press, and with no jump event both flags are as before |
| `InputProducer.EdgeNeedsPress` | Plugins/VortexMover/Source/VortexMover/Private/Core/VortexInputProducer.cpp:31-58 | once a pull has cleared the edge, the next command can carry one only if a jump press arrived in between |
| `InputProducer.ApplyEventsAppend` | Plugins/VortexMover/Source/VortexMover/Private/Core/VortexInputProducer.cpp:41-63 | events are applied one at a time, so two runs in turn act as their concatenation |
| `InputProducer.NonJumpKeepsJumpFlags` | Plugins/VortexMover/Source/VortexMover/Private/Core/VortexInputProducer.cpp:41-63 | move, look and crouch events leave the held jump state and the edge unchanged |
| `InputProducer.RisingPressSurvives` | Plugins/VortexMover/Source/VortexMover/Private/Core/VortexInputProducer.cpp:28-63 | a press followed only by move, look or crouch events leaves jump held and the edge set exactly when jump was released before the press, and the next pull hands that edge to the produced command |
| `InputProducer.EdgeLostWithinOneTick` | Plugins/VortexMover/Source/VortexMover/Private/Core/VortexInputProducer.cpp:53-58 | from released, two presses before one pull leave jump held but no edge, and a press then a release before one pull leave neither flag |
| `InputProducer.ProduceAfterEachJump` | Plugins/VortexMover/Source/VortexMover/Private/Core/VortexInputProducer.cpp:28-58 | with one jump event before each pull, each command carries the edge exactly when its press follows a release, no two consecutive commands both carry it, and the edge is cleared at the end |
| `InputProducer.JumpScenario` | Plugins/VortexMover/Source/VortexMover/Private/Core/VortexInputProducer.cpp:53-58 | events released, pressed, pressed with a pull after each give edges false, true, false |
| `InputProducer.MoveScenario` | Plugins/VortexMover/Source/VortexMover/Private/Core/VortexInputProducer.cpp:28-45 | for a local pawn, a move event of (0.5, -2) is pulled as (0.5, -1) |
| `InputProducer.RemoteScenario` | Plugins/VortexMover/Source/VortexMover/Public/Core/VortexInputProducer.h:19 | for a pawn that is not locally controlled, a pull adds nothing to the slot and leaves the producer as it was |

## Left out

- `Clone` and `ToString` are a heap copy and text formatting. `LogPerFrame` and the log text of `LogOnChange` are diagnostic output. Only `LogOnChange`'s effect on the shadow fields is modelled.
- `Super::NetSerialize` and `AddReferencedObjects` belong to the engine base struct, which is not part of this model.
- NetSerialization.Encode: the engine's fixed-point and compressed-rotator codecs are not part of this model. They are modelled as the engine is understood to implement them. The orientation axis is scaled by 32767, rounded to the nearest integer, biased by 32768 and clamped into 16 bits, and reads back as (code - 32768) / 32767. The rotator angle is rounded to the nearest of 65536 steps per turn and wrapped into 16 bits, and reads back as code * 360 / 65536. The engine's handling of orientation axes outside [-1, 1] is modelled as that clamp. The zero-angle flag bits of the compressed rotator and the packed move's 30-bit component limit are not modelled.
- NetSerialization.SetMoveInputSurvivesWire: requires the orientation and rotation to be at wire precision already, because the setter quantizes only the move. `OrientationNotStoredAtWirePrecision` and `NegativeYawReadsBackWrapped` show commands that the code reconciles against their own wire image.
- The packed move encoder is assumed to round like `RoundToFloat`, to the nearest hundredth with halves rounded up. The engine's rounding code is not part of this model.
- NetSerialization.NetSerialize: the stream is a sequence of typed items, one per engine serializer call, not an untyped bit stream. An item of the wrong kind stops the read like the end of the stream, whereas the program would read its bits as the next fields. On a short stream, or from an archive already in error, the engine archive yields unspecified data for the fields it cannot read. The model takes those fields from a `filler` command parameter and constrains them no further. Which items an errored archive still consumes is not modelled: the model consumes exactly the readable prefix.
- NetSerialization.TruncatedLoadReportsSuccess: the unread fields are only stated to be the `filler` values, standing for whatever the errored archive yields.
- IEEE floats are not modelled: no rounding error, NaN, signed zero or single/double mix. All float arithmetic and comparisons are exact real arithmetic.
- InputCommand.Decay: the `IsNearlyZero` tolerance is a parameter. The engine's default value is not fixed here.
- Vectors.LerpRotator: the engine's rotator lerp takes the shortest path and normalizes angles. The model lerps each component linearly, so at fraction 1 it returns the target exactly instead of the target modulo 360 degrees.
- InputProducer.OnJump: with the demo controller's binding, which fires jump on every triggered frame while the button is held, the edge is lost when two presses, or a press and a release, arrive before one pull (`EdgeLostWithinOneTick`). The code derives the edge per event and does not latch it until the next pull. The model follows the code and models no latching variant.
- The `SimTimeMs` argument of `ProduceInput` is unused by the code and is omitted.
- The `ensure` in `Initialize` only reports a missing pawn. The model binds the absent owner and carries on, as the code does.
- Reading the debug console variable is replaced by the `debugLevel` parameter.
- Threading is left out: the cache is written on the game thread and the pull may run on the simulation thread. The model treats events and pulls as one sequence.
- Pawn wiring, controller delegate binding, the demo pawn and controller, the input mapping assets, the mover component's movement-mode registration and the build files carry no input logic and are not part of this model.
