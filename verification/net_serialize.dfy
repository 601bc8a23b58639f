/** FVortexInputCmd::NetSerialize: the fixed field order on the wire. Each
    engine serializer it calls is one wire item:
    - the packed move vector carries whole hundredths (its scale factor is 100);
    - the fixed-point orientation carries one 16-bit code per axis over [-1, 1];
    - the compressed rotator carries one 16-bit code per angle, 65536 steps per turn;
    - each flag is a single bit.
    The bit-level packing inside each item is not modelled. */
module NetSerialization {
  import opened Vectors
  import opened Wrappers
  import opened InputCommand

  datatype WireItem =
    | PackedVector(hx: int, hy: int, hz: int)   // move, in hundredths
    | FixedVector(dx: int, dy: int, dz: int)    // orientation, biased 16-bit codes
    | CompressedRotator(cp: int, cy: int, cr: int)  // control rotation, 16-bit codes
    | Bit(b: bool)                              // one flag, one bit

  /** An archive: saving appends to `stream`, loading consumes it; `error`
      is the archive's own failure flag. */
  datatype Archive = Archive(loading: bool, stream: seq<WireItem>, error: bool)

  datatype Serialized = Serialized(cmd: InputCmd, archive: Archive, success: bool)

  /** Number of wire items one command occupies. */
  const ItemCount: nat := 6

  /** Number of distinct 16-bit codes. */
  const CodeCount: int := 65536

  predicate IsCode(k: int) {
    0 <= k < CodeCount
  }

  // ---- packed move vector: scale factor 100 ----

  function PackVector(v: Vec3): WireItem {
    PackedVector(RoundHalfUp(v.x * 100.0), RoundHalfUp(v.y * 100.0), RoundHalfUp(v.z * 100.0))
  }

  function UnpackVector(w: WireItem): Vec3
    requires w.PackedVector?
  {
    Vec3(w.hx as real / 100.0, w.hy as real / 100.0, w.hz as real / 100.0)
  }

  /** The packed move vector has exactly SetMoveInput's precision. */
  lemma PackMatchesQuantize(v: Vec3)
    ensures UnpackVector(PackVector(v)) == Quantize3(v)
  {
  }

  // ---- fixed-point orientation: max value 1, 16 bits ----

  /** Largest code magnitude, (1 << 15) - 1: the scale for a max value of 1. */
  const FixedScale: int := 32767
  /** Bias that makes the signed scaled value unsigned, 1 << 15. */
  const FixedBias: int := 32768

  /** Scale, round to the nearest integer, bias, and clamp into 16 bits. */
  function FixedCode(x: real): (d: int)
    ensures IsCode(d)
  {
    var delta := RoundHalfUp(x * FixedScale as real) + FixedBias;
    if delta < 0 then 0 else if delta >= CodeCount then CodeCount - 1 else delta
  }

  function FixedValue(d: int): real {
    (d - FixedBias) as real / FixedScale as real
  }

  /** x is exactly representable: a whole number of 1/32767 steps within the code range. */
  predicate FixedExact(x: real) {
    var y := x * FixedScale as real;
    y.Floor as real == y && -FixedBias as real <= y <= (CodeCount - 1 - FixedBias) as real
  }

  /** What one orientation axis reads back as: within half a step of the
      input over [-1, 1]. */
  function FixedRoundTrip(x: real): (r: real)
    ensures FixedExact(r)
    ensures FixedExact(x) ==> r == x
    ensures -1.0 <= x <= 1.0 ==> -0.5 / 32767.0 < r - x <= 0.5 / 32767.0
  {
    FixedRoundTripFacts(x);
    FixedValue(FixedCode(x))
  }

  lemma FixedRoundTripFacts(x: real)
    ensures var r := FixedValue(FixedCode(x));
      && FixedExact(r)
      && (FixedExact(x) ==> r == x)
      && (-1.0 <= x <= 1.0 ==> -0.5 / 32767.0 < r - x <= 0.5 / 32767.0)
  {
    var d := FixedCode(x);
    var r := FixedValue(d);
    assert r * 32767.0 == (d - FixedBias) as real;
    assert (((d - FixedBias) as real).Floor) == d - FixedBias;
    var y := x * 32767.0;
    var k := RoundHalfUp(y);
    if FixedExact(x) {
      var n := y.Floor;
      assert (n as real + 0.5).Floor == n;
      assert k == n;
      assert d == k + FixedBias;
    }
    if -1.0 <= x <= 1.0 {
      assert -32767.0 <= y <= 32767.0;
      assert -32767 <= k <= 32767;
      assert d == k + FixedBias;
      assert r * 32767.0 == k as real;
      assert -0.5 < k as real - y <= 0.5;
      assert r - x == (k as real - y) / 32767.0;
    }
  }

  predicate FixedExact3(v: Vec3) {
    FixedExact(v.x) && FixedExact(v.y) && FixedExact(v.z)
  }

  function FixedRoundTrip3(v: Vec3): (r: Vec3)
    ensures FixedExact3(r)
    ensures FixedExact3(v) ==> r == v
  {
    Vec3(FixedRoundTrip(v.x), FixedRoundTrip(v.y), FixedRoundTrip(v.z))
  }

  // ---- compressed rotator: 65536 steps per turn ----

  /** Round the angle to the nearest step and wrap into 16 bits. */
  function RotatorCode(a: real): (k: int)
    ensures IsCode(k)
  {
    RoundHalfUp(a * 65536.0 / 360.0) % CodeCount
  }

  function RotatorValue(k: int): real {
    k as real * 360.0 / 65536.0
  }

  /** a is exactly representable: in [0, 360) and a whole number of steps. */
  predicate RotatorExact(a: real) {
    var y := a * 65536.0 / 360.0;
    0.0 <= a < 360.0 && y.Floor as real == y
  }

  /** What one rotator angle reads back as: the step nearest the input,
      after removing the whole turns `turns`, so within half a step of the
      input modulo a full turn. */
  function RotatorRoundTrip(a: real): (r: real)
    ensures RotatorExact(r)
    ensures RotatorExact(a) ==> r == a
    ensures var turns := RoundHalfUp((a - r) / 360.0);
      -180.0 / 65536.0 < r + 360.0 * turns as real - a <= 180.0 / 65536.0
  {
    RotatorRoundTripFacts(a);
    RotatorValue(RotatorCode(a))
  }

  lemma RotatorRoundTripFacts(a: real)
    ensures var r := RotatorValue(RotatorCode(a));
      && RotatorExact(r) && (RotatorExact(a) ==> r == a)
      && var turns := RoundHalfUp((a - r) / 360.0);
         -180.0 / 65536.0 < r + 360.0 * turns as real - a <= 180.0 / 65536.0
  {
    var y := a * 65536.0 / 360.0;
    var k0 := RoundHalfUp(y);
    var k := RotatorCode(a);
    var r := RotatorValue(k);
    assert r * 65536.0 / 360.0 == k as real;
    assert (k as real).Floor == k;
    if RotatorExact(a) {
      var n := y.Floor;
      assert (n as real + 0.5).Floor == n;
      assert 0 <= n < CodeCount;
      assert k == n;
    }
    var m := k0 / CodeCount;
    assert k0 == m * CodeCount + k;
    assert r + 360.0 * m as real == k0 as real * 360.0 / 65536.0;
    assert -0.5 <= y - k0 as real < 0.5;
    assert (a - r) / 360.0 == m as real + (y - k0 as real) / 65536.0;
    assert RoundHalfUp((a - r) / 360.0) == m;
    assert r + 360.0 * m as real - a == (k0 as real - y) * 360.0 / 65536.0;
  }

  predicate RotatorExact3(r: Rotator) {
    RotatorExact(r.pitch) && RotatorExact(r.yaw) && RotatorExact(r.roll)
  }

  function RotatorRoundTrip3(r: Rotator): (q: Rotator)
    ensures RotatorExact3(q)
    ensures RotatorExact3(r) ==> q == r
  {
    Rotator(RotatorRoundTrip(r.pitch), RotatorRoundTrip(r.yaw), RotatorRoundTrip(r.roll))
  }

  // ---- the command on the wire ----

  /** A command every field of which the wire carries without loss. */
  predicate WireExact(c: InputCmd) {
    OnGrid3(c.move) && FixedExact3(c.orientation) && RotatorExact3(c.controlRotation)
  }

  /** The command as the receiving side reads it back. */
  function WireImage(c: InputCmd): (r: InputCmd)
    ensures WireExact(r)
    ensures SameFlags(r, c)
    ensures WireExact(c) <==> r == c
  {
    c.(move := Quantize3(c.move),
       orientation := FixedRoundTrip3(c.orientation),
       controlRotation := RotatorRoundTrip3(c.controlRotation))
  }

  /** Move, orientation, rotation, then the jump, just-jumped and crouch bits. */
  function Encode(c: InputCmd): (w: seq<WireItem>)
    ensures |w| == ItemCount
    ensures Fits(w, ItemCount)
    ensures w[3].b == c.jumpPressed && w[4].b == c.jumpJustPressed && w[5].b == c.crouchPressed
  {
    [PackVector(c.move),
     FixedVector(FixedCode(c.orientation.x), FixedCode(c.orientation.y), FixedCode(c.orientation.z)),
     CompressedRotator(RotatorCode(c.controlRotation.pitch), RotatorCode(c.controlRotation.yaw),
                       RotatorCode(c.controlRotation.roll)),
     Bit(c.jumpPressed), Bit(c.jumpJustPressed), Bit(c.crouchPressed)]
  }

  /** Whether `item` can be read as the i-th field of a command. */
  predicate ItemFits(i: nat, item: WireItem) {
    if i == 0 then item.PackedVector?
    else if i == 1 then item.FixedVector? && IsCode(item.dx) && IsCode(item.dy) && IsCode(item.dz)
    else if i == 2 then item.CompressedRotator? && IsCode(item.cp) && IsCode(item.cy) && IsCode(item.cr)
    else i < ItemCount && item.Bit?
  }

  /** The first n items of the stream are readable as the first n fields. */
  predicate Fits(w: seq<WireItem>, n: nat) {
    n <= |w| && forall i :: 0 <= i < n ==> ItemFits(i, w[i])
  }

  /** How many fields a load reads before the archive runs dry. An item of
      the wrong kind is treated like the end of the stream. */
  function ReadableCount(w: seq<WireItem>): (k: nat)
    ensures k <= ItemCount && Fits(w, k)
    ensures k < ItemCount ==> !Fits(w, k + 1)
  {
    if Fits(w, 6) then 6
    else if Fits(w, 5) then 5
    else if Fits(w, 4) then 4
    else if Fits(w, 3) then 3
    else if Fits(w, 2) then 2
    else if Fits(w, 1) then 1
    else 0
  }

  /** The command a load leaves behind: the fields it could read, and for
      the rest whatever `filler` holds (what an errored archive yields). */
  function ReadFields(w: seq<WireItem>, filler: InputCmd): InputCmd {
    var k := ReadableCount(w);
    InputCmd(
      if k > 0 then UnpackVector(w[0]) else filler.move,
      if k > 1 then Vec3(FixedValue(w[1].dx), FixedValue(w[1].dy), FixedValue(w[1].dz))
      else filler.orientation,
      if k > 2 then Rotator(RotatorValue(w[2].cp), RotatorValue(w[2].cy), RotatorValue(w[2].cr))
      else filler.controlRotation,
      if k > 3 then w[3].b else filler.jumpPressed,
      if k > 4 then w[4].b else filler.jumpJustPressed,
      if k > 5 then w[5].b else filler.crouchPressed)
  }

  /** Reads one whole command from the front of the stream, returning it and
      the unread rest, or None when the stream is too short. */
  function Decode(w: seq<WireItem>): (r: Option<(InputCmd, seq<WireItem>)>)
    ensures r.Some? <==> Fits(w, ItemCount)
    ensures r.Some? ==> r.value.1 == w[ItemCount..]
  {
    if ReadableCount(w) < ItemCount then None
    else Some((ReadFields(w, Default()), w[ItemCount..]))
  }

  /** Saving appends the command's encoding and keeps the command. Loading
      overwrites every field: those it can read come from the stream, the
      rest from `filler`, and a short stream raises the archive's error
      flag. An archive already in error reads nothing, so every field comes
      from `filler`. Either way the reported success is true. */
  function NetSerialize(c: InputCmd, ar: Archive, filler: InputCmd): (r: Serialized)
    ensures r.success
    ensures r.archive.loading == ar.loading
    ensures !ar.loading ==> r.cmd == c && r.archive.stream == ar.stream + Encode(c)
                            && r.archive.error == ar.error
    ensures ar.loading && !ar.error && Decode(ar.stream).Some? ==>
              r.cmd == Decode(ar.stream).value.0 && r.archive.stream == ar.stream[ItemCount..]
              && !r.archive.error
    ensures ar.loading && Decode(ar.stream).None? ==> r.archive.error
    ensures ar.loading && ar.error ==> r.cmd == filler && r.archive.stream == ar.stream && r.archive.error
  {
    if !ar.loading then
      Serialized(c, ar.(stream := ar.stream + Encode(c)), true)
    else if ar.error then
      Serialized(filler, ar, true)
    else
      var k := ReadableCount(ar.stream);
      Serialized(ReadFields(ar.stream, filler),
                 ar.(stream := ar.stream[k..], error := k < ItemCount), true)
  }

  lemma EncodeFits(c: InputCmd, rest: seq<WireItem>)
    ensures ReadableCount(Encode(c) + rest) == ItemCount
    ensures (Encode(c) + rest)[..ItemCount] == Encode(c)
    ensures (Encode(c) + rest)[ItemCount..] == rest
  {
    var w := Encode(c) + rest;
    assert forall i :: 0 <= i < ItemCount ==> w[i] == Encode(c)[i];
  }

  /** Reading back what was written yields the command's wire image (move,
      orientation and rotation each at wire precision, flags exact) and
      leaves whatever followed it in the stream. */
  lemma DecodeEncode(c: InputCmd, rest: seq<WireItem>)
    ensures Decode(Encode(c) + rest) == Some((WireImage(c), rest))
    ensures WireExact(c) ==> Decode(Encode(c) + rest) == Some((c, rest))
  {
    EncodeFits(c, rest);
    var w := Encode(c) + rest;
    assert w[1] == Encode(c)[1] && w[2] == Encode(c)[2] && w[0] == Encode(c)[0];
    PackMatchesQuantize(c.move);
  }

  /** A command loaded from another's encoding differs from it, and so
      triggers a reconciliation, exactly when some continuous field of the
      sent command is not exactly representable on the wire. */
  lemma ReconcileAfterWireIffInexact(sent: InputCmd, loadInto: InputCmd, filler: InputCmd)
    ensures var loaded := NetSerialize(loadInto, Archive(true, Encode(sent), false), filler);
      && loaded.cmd == WireImage(sent)
      && !loaded.archive.error
      && loaded.archive.stream == []
      && (ShouldReconcile(loaded.cmd, sent) <==> !WireExact(sent))
  {
    DecodeEncode(sent, []);
    assert Encode(sent) + [] == Encode(sent);
  }

  /** A command whose move was stored through SetMoveInput, and whose
      orientation and rotation are already at wire precision, survives the
      whole save-then-load path exactly. */
  lemma SetMoveInputSurvivesWire(c: InputCmd, v: Vec3, loadInto: InputCmd, filler: InputCmd)
    requires FixedExact3(c.orientation) && RotatorExact3(c.controlRotation)
    ensures var sent := SetMoveInput(c, v);
      var saved := NetSerialize(sent, Archive(false, [], false), filler);
      var loaded := NetSerialize(loadInto, Archive(true, saved.archive.stream, false), filler);
      loaded.cmd == sent && !ShouldReconcile(loaded.cmd, sent)
  {
    var sent := SetMoveInput(c, v);
    assert [] + Encode(sent) == Encode(sent);
    ReconcileAfterWireIffInexact(sent, loadInto, filler);
  }

  /** Only the move is stored at wire precision: a command set through
      SetMoveInput with orientation (0.3, 0, 0) loads back different and is
      reconciled against itself. */
  lemma OrientationNotStoredAtWirePrecision(loadInto: InputCmd, filler: InputCmd)
    ensures var sent := SetMoveInput(Default().(orientation := Vec3(0.3, 0.0, 0.0)), Zero3);
      var loaded := NetSerialize(loadInto, Archive(true, Encode(sent), false), filler);
      loaded.cmd != sent && ShouldReconcile(loaded.cmd, sent)
  {
    var sent := SetMoveInput(Default().(orientation := Vec3(0.3, 0.0, 0.0)), Zero3);
    assert (0.3 * 32767.0).Floor == 9830;
    assert !FixedExact(0.3);
    ReconcileAfterWireIffInexact(sent, loadInto, filler);
  }

  /** The compressed rotator wraps angles into [0, 360): a yaw of -90 reads
      back as 270, which exact comparison treats as a different command. */
  lemma NegativeYawReadsBackWrapped(loadInto: InputCmd, filler: InputCmd)
    ensures RotatorRoundTrip(-90.0) == 270.0
    ensures var sent := Default().(controlRotation := Rotator(0.0, -90.0, 0.0));
      var loaded := NetSerialize(loadInto, Archive(true, Encode(sent), false), filler);
      loaded.cmd.controlRotation.yaw == 270.0 && ShouldReconcile(loaded.cmd, sent)
  {
    assert RoundHalfUp(-90.0 * 65536.0 / 360.0) == -16384;
    assert RotatorCode(-90.0) == 49152;
    var sent := Default().(controlRotation := Rotator(0.0, -90.0, 0.0));
    ReconcileAfterWireIffInexact(sent, loadInto, filler);
  }

  /** A stream cut short anywhere inside a command is rejected. */
  lemma TruncatedRejected(c: InputCmd, n: nat)
    requires n < ItemCount
    ensures Decode(Encode(c)[..n]).None?
  {
  }

  /** Loading a stream cut after n items still reports success but raises
      the archive's error flag; the first n fields hold what was sent (at
      wire precision), the others whatever the errored archive yields, and
      the command's previous contents play no part. */
  lemma TruncatedLoadReportsSuccess(c: InputCmd, previous: InputCmd, filler: InputCmd, n: nat)
    requires n < ItemCount
    ensures var r := NetSerialize(previous, Archive(true, Encode(c)[..n], false), filler);
      var sent := WireImage(c);
      && r.success && r.archive.error
      && r.cmd.move == (if n > 0 then sent.move else filler.move)
      && r.cmd.orientation == (if n > 1 then sent.orientation else filler.orientation)
      && r.cmd.controlRotation == (if n > 2 then sent.controlRotation else filler.controlRotation)
      && r.cmd.jumpPressed == (if n > 3 then sent.jumpPressed else filler.jumpPressed)
      && r.cmd.jumpJustPressed == (if n > 4 then sent.jumpJustPressed else filler.jumpJustPressed)
      && r.cmd.crouchPressed == filler.crouchPressed
  {
    var w := Encode(c)[..n];
    assert forall i :: 0 <= i < n ==> w[i] == Encode(c)[i];
    assert ReadableCount(w) == n;
    PackMatchesQuantize(c.move);
  }
}
