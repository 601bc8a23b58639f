/** FVortexInputCmd: the per-tick networked input command, with its
    quantized move setter, structural equality, reconciliation test, and the
    interpolate / merge / decay operations the movement history uses. Each
    in-place C++ operation is modelled as a pure function returning the
    updated command. */
module InputCommand {
  import opened Vectors

  datatype InputCmd = InputCmd(
    move: Vec3,               // protected; written through SetMoveInput
    orientation: Vec3,
    controlRotation: Rotator,
    jumpPressed: bool,
    jumpJustPressed: bool,
    crouchPressed: bool)

  /** A just-pressed edge is only ever reported while the button is held. */
  predicate EdgeConsistent(c: InputCmd) {
    c.jumpJustPressed ==> c.jumpPressed
  }

  predicate SameFlags(a: InputCmd, b: InputCmd) {
    && a.jumpPressed == b.jumpPressed
    && a.jumpJustPressed == b.jumpJustPressed
    && a.crouchPressed == b.crouchPressed
  }

  /** The default constructor. */
  function Default(): (r: InputCmd)
    ensures r.move == Zero3 && r.orientation == Zero3 && r.controlRotation == ZeroRotator
    ensures !r.jumpPressed && !r.jumpJustPressed && !r.crouchPressed
    ensures OnGrid3(r.move) && EdgeConsistent(r)
  {
    InputCmd(Zero3, Zero3, ZeroRotator, false, false, false)
  }

  /** Stores the move vector at the two-decimal precision the wire carries. */
  function SetMoveInput(c: InputCmd, v: Vec3): (r: InputCmd)
    ensures OnGrid3(r.move)
    ensures -0.005 < r.move.x - v.x <= 0.005
    ensures -0.005 < r.move.y - v.y <= 0.005
    ensures -0.005 < r.move.z - v.z <= 0.005
    ensures OnGrid3(v) ==> r.move == v
    ensures r == c.(move := r.move)
  {
    c.(move := Quantize3(v))
  }

  function GetMoveInput(c: InputCmd): Vec3 {
    c.move
  }

  /** Setting an already-quantized move again changes nothing, and the
      getter returns exactly what the setter stored. */
  lemma SetMoveInputIdempotent(c: InputCmd, v: Vec3)
    ensures SetMoveInput(SetMoveInput(c, v), GetMoveInput(SetMoveInput(c, v))) == SetMoveInput(c, v)
    ensures GetMoveInput(SetMoveInput(c, v)) == Quantize3(v)
  {
  }

  /** operator==: every field compared exactly. */
  function Equals(a: InputCmd, b: InputCmd): (r: bool)
    ensures r <==> a == b
  {
    && a.move == b.move
    && a.orientation == b.orientation
    && a.controlRotation == b.controlRotation
    && a.jumpPressed == b.jumpPressed
    && a.jumpJustPressed == b.jumpJustPressed
    && a.crouchPressed == b.crouchPressed
  }

  /** operator!=. */
  function NotEquals(a: InputCmd, b: InputCmd): (r: bool)
    ensures r <==> !Equals(a, b)
    ensures r <==> a != b
  {
    !Equals(a, b)
  }

  /** operator== is reflexive and symmetric, and transitive. */
  lemma EqualsIsEquivalence(a: InputCmd, b: InputCmd, c: InputCmd)
    ensures Equals(a, a)
    ensures Equals(a, b) == Equals(b, a)
    ensures Equals(a, b) && Equals(b, c) ==> Equals(a, c)
  {
  }

  /** The predicted command must be corrected exactly when it differs from
      the authority's in any field. */
  function ShouldReconcile(c: InputCmd, authority: InputCmd): (r: bool)
    ensures r <==> c != authority
    ensures c == authority ==> !r
    ensures !SameFlags(c, authority) ==> r
    ensures !r ==> c.move == authority.move && c.orientation == authority.orientation
                   && c.controlRotation == authority.controlRotation && SameFlags(c, authority)
  {
    NotEquals(c, authority)
  }

  /** Blend of two history samples. Flags come from the nearer sample
      (From below one half, To from one half on); move is the lerp
      re-quantized through SetMoveInput; orientation and rotation are lerped.
      The receiver's previous contents do not matter, since every field is
      overwritten. */
  function Interpolate(from: InputCmd, to: InputCmd, pct: real): (r: InputCmd)
    ensures pct < 0.5 ==> SameFlags(r, from)
    ensures pct >= 0.5 ==> SameFlags(r, to)
    ensures OnGrid3(r.move)
    ensures r.move == Quantize3(Lerp3(from.move, to.move, pct))
    ensures r.orientation == Lerp3(from.orientation, to.orientation, pct)
    ensures r.controlRotation == LerpRotator(from.controlRotation, to.controlRotation, pct)
    ensures EdgeConsistent(from) && EdgeConsistent(to) ==> EdgeConsistent(r)
  {
    var closest := if pct < 0.5 then from else to;
    var flagged := InputCmd(Zero3, Zero3, ZeroRotator,
                            closest.jumpPressed, closest.jumpJustPressed, closest.crouchPressed);
    SetMoveInput(flagged, Lerp3(from.move, to.move, pct)).(
      orientation := Lerp3(from.orientation, to.orientation, pct),
      controlRotation := LerpRotator(from.controlRotation, to.controlRotation, pct))
  }

  /** At the end points interpolation returns the end sample, with its move
      quantized; for samples whose move is already quantized it returns the
      sample itself. */
  lemma InterpolateEndpoints(from: InputCmd, to: InputCmd)
    ensures Interpolate(from, to, 0.0) == from.(move := Quantize3(from.move))
    ensures Interpolate(from, to, 1.0) == to.(move := Quantize3(to.move))
    ensures OnGrid3(from.move) ==> Interpolate(from, to, 0.0) == from
    ensures OnGrid3(to.move) ==> Interpolate(from, to, 1.0) == to
  {
  }

  /** Interpolating a sample with itself gives back the (quantized) sample. */
  lemma InterpolateSelf(c: InputCmd, pct: real)
    ensures Interpolate(c, c, pct) == c.(move := Quantize3(c.move))
  {
  }

  /** Folds another tick's command into this one: each flag is OR-ed, all
      continuous fields are kept. */
  function Merge(c: InputCmd, from: InputCmd): (r: InputCmd)
    ensures r.jumpPressed == (c.jumpPressed || from.jumpPressed)
    ensures r.jumpJustPressed == (c.jumpJustPressed || from.jumpJustPressed)
    ensures r.crouchPressed == (c.crouchPressed || from.crouchPressed)
    ensures r.move == c.move && r.orientation == c.orientation
    ensures r.controlRotation == c.controlRotation
    ensures EdgeConsistent(c) && EdgeConsistent(from) ==> EdgeConsistent(r)
  {
    c.(jumpJustPressed := c.jumpJustPressed || from.jumpJustPressed,
       jumpPressed := c.jumpPressed || from.jumpPressed,
       crouchPressed := c.crouchPressed || from.crouchPressed)
  }

  /** Merging is idempotent, order-insensitive in what it merges in, and a
      default (all-released) command is a neutral element. */
  lemma MergeLaws(a: InputCmd, b: InputCmd, d: InputCmd)
    ensures Merge(a, a) == a
    ensures Merge(Merge(a, b), d) == Merge(Merge(a, d), b)
    ensures Merge(Merge(a, b), b) == Merge(a, b)
    ensures Merge(a, Default()) == a
    ensures SameFlags(Merge(a, b), Merge(b, a))
  {
  }

  /** IsNearlyZero with an abstract tolerance. */
  predicate NearlyZero(x: real, tolerance: real) {
    -tolerance <= x <= tolerance
  }

  /** The fixed decay rate applied to the caller's amount. */
  const DecayRate: real := 0.25

  /** Fades stale input: move is scaled by 1 - amount/4 and the single-use
      jump edge is dropped unless the scaled amount is nearly zero. */
  function Decay(c: InputCmd, amount: real, tolerance: real): (r: InputCmd)
    ensures r.move == Scale3(c.move, 1.0 - DecayRate * amount)
    ensures NearlyZero(DecayRate * amount, tolerance) ==> r.jumpJustPressed == c.jumpJustPressed
    ensures !NearlyZero(DecayRate * amount, tolerance) ==> !r.jumpJustPressed
    ensures r == c.(move := r.move, jumpJustPressed := r.jumpJustPressed)
    ensures EdgeConsistent(c) ==> EdgeConsistent(r)
    ensures 0.0 <= amount <= 4.0 ==>
      Abs(r.move.x) <= Abs(c.move.x) && Abs(r.move.y) <= Abs(c.move.y) && Abs(r.move.z) <= Abs(c.move.z)
  {
    var scaled := amount * DecayRate;
    c.(move := Scale3(c.move, 1.0 - scaled),
       jumpJustPressed := if NearlyZero(scaled, tolerance) then c.jumpJustPressed else false)
  }

  /** A zero decay leaves the command as it was; a full decay keeps three
      quarters of the move and clears the edge. */
  lemma DecayEndpoints(c: InputCmd, tolerance: real)
    requires 0.0 <= tolerance < DecayRate
    ensures Decay(c, 0.0, tolerance) == c
    ensures Decay(c, 1.0, tolerance).move == Scale3(c.move, 0.75)
    ensures !Decay(c, 1.0, tolerance).jumpJustPressed
  {
  }

  /** Decay does not keep the move on the hundredths grid: a quantized
      0.01 decays to 0.0075. */
  lemma DecayLeavesGrid()
    ensures var c := Default().(move := Vec3(0.01, 0.0, 0.0));
      OnGrid3(c.move) && !OnGrid3(Decay(c, 1.0, 0.0).move)
  {
  }
}
