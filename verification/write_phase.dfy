/** The write phase (write): select each joint's target, mask the joints whose
    target did not change since the previous write, encode the targets into
    strokes, choose per segment between the masked and the unmasked strokes,
    and read the state back. */
module WritePhase {
  import opened JointTypes
  import opened Collaborators
  import opened JointRegistry
  import opened ReadPhase

  /** The target a joint's control method takes from its commands. Only
      Position does anything; the other cases leave the zeroed entry. */
  function TargetOf(m: ControlMethod, command: Angle): Angle {
    match m
    case Position => command
    case Velocity => 0.0
    case Effort => 0.0
    case PositionPid => 0.0
    case VelocityPid => 0.0
  }

  /** The per-joint target angles of one write. */
  function Targets(s: State): (r: seq<Angle>)
    requires s.Valid()
    ensures |r| == |s.joints|
    ensures forall j :: 0 <= j < |r| ==> (s.methods[j] == Position ==> r[j] == s.positionCommand[j])
    ensures forall j :: 0 <= j < |r| ==> (s.methods[j] != Position ==> r[j] == 0.0)
  {
    seq(|s.joints|, j requires 0 <= j < |s.joints| => TargetOf(s.methods[j], s.positionCommand[j]))
  }

  /** The per-joint change mask: true means "send". */
  function ChangeMask(targets: seq<Angle>, snapshot: seq<Angle>): (mask: seq<bool>)
    requires |targets| == |snapshot|
    ensures |mask| == |targets|
    ensures forall i :: 0 <= i < |mask| ==> (mask[i] <==> targets[i] != snapshot[i])
  {
    seq(|targets|, i requires 0 <= i < |targets| => targets[i] != snapshot[i])
  }

  /** The masking loop as the interface runs it: start from an all-true mask,
      clear an entry whose target equals the snapshot entry, and overwrite the
      snapshot entry with the target whatever the comparison gave. */
  method UpdateMask(targets: seq<Angle>, snapshot: seq<Angle>) returns (mask: seq<bool>, snapshot': seq<Angle>)
    requires |targets| == |snapshot|
    ensures |mask| == |targets|
    ensures forall i :: 0 <= i < |mask| ==> (!mask[i] <==> targets[i] == snapshot[i])
    ensures snapshot' == targets
    ensures mask == ChangeMask(targets, snapshot)
  {
    mask := seq(|targets|, _ => true);
    snapshot' := snapshot;
    var i := 0;
    while i < |targets|
      invariant 0 <= i <= |targets|
      invariant |mask| == |targets| && |snapshot'| == |targets|
      invariant forall k :: 0 <= k < i ==> (!mask[k] <==> targets[k] == snapshot[k])
      invariant forall k :: 0 <= k < i ==> snapshot'[k] == targets[k]
      invariant forall k :: i <= k < |targets| ==> mask[k] && snapshot'[k] == snapshot[k]
    {
      var tmp := targets[i];
      if tmp == snapshot'[i] {
        mask := mask[i := false];
      }
      snapshot' := snapshot'[i := tmp];
      i := i + 1;
    }
  }

  /** The whole-body stroke vector encoded from the targets, one entry per
      canonical channel of both segments. With an unknown robot model the
      zeroed buffer is left as it is. */
  function EncodeStrokes(hw: Hardware, targets: seq<Angle>): (r: seq<Int16>)
    ensures |r| == hw.upper.dof + hw.lower.dof
    ensures hw.robotModel == "typeF" ==>
      forall k :: 0 <= k < |r| ==> r[k] == hw.typeF.angleToStroke(targets, k)
    ensures hw.robotModel == "typeFCETy" ==>
      forall k :: 0 <= k < |r| ==> r[k] == hw.typeFCETy.angleToStroke(targets, k)
    ensures !KnownModel(hw.robotModel) ==> forall k :: 0 <= k < |r| ==> r[k] == 0
  {
    var width := hw.upper.dof + hw.lower.dof;
    match SelectConverter(hw)
    case Some(c) =>
      var r := seq(width, k requires 0 <= k < width => c.angleToStroke(targets, k));
      assert forall k :: 0 <= k < |r| ==> r[k] == c.angleToStroke(targets, k);
      r
    case None => ZeroStrokes(width)
  }

  /** The strokes with the mask applied by the masking routine. */
  function MaskStrokes(hw: Hardware, strokes: seq<Int16>, mask: seq<bool>): (r: seq<Int16>)
    ensures |r| == |strokes|
  {
    var r := seq(|strokes|, k requires 0 <= k < |strokes| => hw.maskCommand(strokes, mask, k));
    assert forall k :: 0 <= k < |r| ==> r[k] == hw.maskCommand(strokes, mask, k);
    r
  }

  /** The device-order strokes sent to one segment: an open segment gets the
      masked strokes, a closed one the unmasked strokes. */
  function SegmentStrokes(link: SegmentLink, masked: seq<Int16>, unmasked: seq<Int16>): (r: seq<Int16>)
    ensures |r| == DeviceArraySize
    ensures link.isOpen ==> r == RemapToDevice(link, masked)
    ensures !link.isOpen ==> r == RemapToDevice(link, unmasked)
  {
    RemapToDevice(link, if link.isOpen then masked else unmasked)
  }

  /** What one write computes, besides the new registry state. */
  datatype WriteResult = WriteResult(
    state: State,
    mask: seq<bool>,
    refStrokes: seq<Int16>,    // encoded targets
    sntStrokes: seq<Int16>,    // encoded targets, masked
    upperStrokes: seq<Int16>,  // sent to the upper segment
    lowerStrokes: seq<Int16>)  // sent to the lower segment

  /** One write, ending with the read-back that decodes `rawUpper`/`rawLower`,
      the segments' raw data at that point (no fresh fetch is made). */
  function Write(hw: Hardware, s: State, rawUpper: seq<Int16>, rawLower: seq<Int16>): (r: WriteResult)
    requires s.Valid()
    ensures r.state.Valid() && r.state.joints == s.joints
    ensures r.state.initialized
    ensures |r.mask| == |s.joints|
    ensures forall i :: 0 <= i < |r.mask| ==> (!r.mask[i] <==> Targets(s)[i] == s.prevRef[i])
    ensures s.initialized ==> r.state.prevRef == Targets(s)
    ensures s.initialized ==> r.state.positionCommand == s.positionCommand
    ensures !s.initialized ==> r.state.positionCommand == r.state.position && r.state.prevRef == r.state.position
    ensures r.state.methods == s.methods
    ensures r.state.velocityCommand == s.velocityCommand && r.state.effortCommand == s.effortCommand
    ensures forall j :: 0 <= j < |s.joints| ==> r.state.velocity[j] == 0.0 && r.state.effort[j] == 0.0
    ensures forall j :: 0 <= j < |s.joints| ==>
      r.state.position[j] == hw.toSingle(SensedAngles(hw, |s.joints|, rawUpper, rawLower)[j])
    ensures r.refStrokes == EncodeStrokes(hw, Targets(s))
    ensures r.sntStrokes == MaskStrokes(hw, r.refStrokes, r.mask)
    ensures |r.upperStrokes| == DeviceArraySize && |r.lowerStrokes| == DeviceArraySize
    ensures r.upperStrokes == RemapToDevice(hw.upper, if hw.upper.isOpen then r.sntStrokes else r.refStrokes)
    ensures r.lowerStrokes == RemapToDevice(hw.lower, if hw.lower.isOpen then r.sntStrokes else r.refStrokes)
  {
    var targets := Targets(s);
    var mask := ChangeMask(targets, s.prevRef);
    var remembered := s.(prevRef := targets);
    var refStrokes := EncodeStrokes(hw, targets);
    var sntStrokes := MaskStrokes(hw, refStrokes, mask);
    var upperStrokes := SegmentStrokes(hw.upper, sntStrokes, refStrokes);
    var lowerStrokes := SegmentStrokes(hw.lower, sntStrokes, refStrokes);
    var readBack := ReadPos(remembered, SensedAngles(hw, |s.joints|, rawUpper, rawLower), hw.toSingle);
    WriteResult(readBack, mask, refStrokes, sntStrokes, upperStrokes, lowerStrokes)
  }

  /** The mask is all clear exactly when every target equals its snapshot entry. */
  lemma MaskClearIffUnchanged(hw: Hardware, s: State, rawUpper: seq<Int16>, rawLower: seq<Int16>)
    requires s.Valid()
    ensures (forall i :: 0 <= i < |s.joints| ==> !Write(hw, s, rawUpper, rawLower).mask[i])
            <==> Targets(s) == s.prevRef
  {
    var r := Write(hw, s, rawUpper, rawLower);
    if forall i :: 0 <= i < |s.joints| ==> !r.mask[i] {
      assert forall i :: 0 <= i < |s.joints| ==> Targets(s)[i] == s.prevRef[i];
    }
  }

  /** Two writes in a row whose targets are identical: the second masks every
      joint, whatever the commands were changed to in between (as long as the
      targets come out the same) and whatever raw data was read back. */
  lemma SecondWriteMasksAll(hw: Hardware, s: State, command: seq<Angle>,
                            raw1: (seq<Int16>, seq<Int16>), raw2: (seq<Int16>, seq<Int16>))
    requires s.Valid() && s.initialized && |command| == |s.joints|
    requires var first := Write(hw, s, raw1.0, raw1.1);
             Targets(first.state.(positionCommand := command)) == Targets(s)
    ensures var first := Write(hw, s, raw1.0, raw1.1);
            forall i :: 0 <= i < |s.joints| ==>
              !Write(hw, first.state.(positionCommand := command), raw2.0, raw2.1).mask[i]
  {
  }

  /** The two serial segments of the robot. */
  datatype Side = Upper | Lower {
    function Other(): Side {
      if this == Upper then Lower else Upper
    }
  }

  /** The link of one segment. */
  function LinkOf(hw: Hardware, side: Side): SegmentLink {
    if side == Upper then hw.upper else hw.lower
  }

  /** The hardware with one segment's open state flipped. */
  function FlipOpen(hw: Hardware, side: Side): (flipped: Hardware)
    ensures LinkOf(flipped, side).isOpen == !LinkOf(hw, side).isOpen
    ensures LinkOf(flipped, side.Other()) == LinkOf(hw, side.Other())
  {
    if side == Upper then hw.(upper := hw.upper.(isOpen := !hw.upper.isOpen))
    else hw.(lower := hw.lower.(isOpen := !hw.lower.isOpen))
  }

  /** The device-order strokes a write sends to one segment. */
  function SentTo(r: WriteResult, side: Side): seq<Int16> {
    if side == Upper then r.upperStrokes else r.lowerStrokes
  }

  /** Whether a segment is open changes nothing but which of the two stroke
      vectors that segment is sent; when masking left the strokes as they
      were, the segment gets the same strokes either way. */
  lemma OpenOnlyChoosesVector(hw: Hardware, s: State, side: Side, rawUpper: seq<Int16>, rawLower: seq<Int16>)
    requires s.Valid()
    ensures var a := Write(hw, s, rawUpper, rawLower);
            var b := Write(FlipOpen(hw, side), s, rawUpper, rawLower);
            && a.state == b.state
            && a.mask == b.mask
            && a.refStrokes == b.refStrokes
            && a.sntStrokes == b.sntStrokes
            && SentTo(a, side.Other()) == SentTo(b, side.Other())
            && (a.sntStrokes == a.refStrokes ==> SentTo(a, side) == SentTo(b, side))
  {
  }

  /** A closed segment is sent the unmasked strokes, so the snapshot (and with
      it the mask) has no effect on what it receives. */
  lemma ClosedSegmentIgnoresMask(hw: Hardware, s: State, side: Side, snapshot: seq<Angle>,
                                 rawUpper: seq<Int16>, rawLower: seq<Int16>)
    requires s.Valid() && |snapshot| == |s.joints|
    requires !LinkOf(hw, side).isOpen
    ensures SentTo(Write(hw, s, rawUpper, rawLower), side)
         == SentTo(Write(hw, s.(prevRef := snapshot), rawUpper, rawLower), side)
  {
  }
}
