/** The code the hardware interface calls but does not define: the per-robot
    angle/stroke converters, the two serial segment controllers' channel
    remapping, the command masking routine and the double-to-float narrowing.

    The converters and the remapping fill a vector that the caller has already
    sized and zeroed; the masking routine rewrites, in place, a copy of the
    encoded strokes. So each of these is given here as a function from its
    inputs and an output index to the entry at that index, and the caller
    decides the length. The narrowing is a cast of one value. */
module Collaborators {
  import opened JointTypes

  /** Number of channels in a device-order stroke array of either segment. */
  const DeviceArraySize: nat := 30

  /** The conversion pair of one robot variant. */
  datatype Converter = Converter(
    strokeToAngle: (seq<Int16>, nat) -> Angle,  // whole-body strokes, joint index
    angleToStroke: (seq<Angle>, nat) -> Int16)  // joint angles, stroke channel

  /** One of the two serial segment controllers (upper or lower body). */
  datatype SegmentLink = SegmentLink(
    dof: nat,                              // number of canonical stroke channels
    isOpen: bool,                          // whether the serial port is open
    aeroToRos: (seq<Int16>, nat) -> Int16,  // raw device data, canonical channel
    rosToAero: (seq<Int16>, nat) -> Int16)  // whole-body strokes, device channel

  /** Everything outside the interface that the control cycle depends on. */
  datatype Hardware = Hardware(
    robotModel: string,
    typeF: Converter,
    typeFCETy: Converter,
    upper: SegmentLink,
    lower: SegmentLink,
    maskCommand: (seq<Int16>, seq<bool>, nat) -> Int16,  // strokes, per-joint mask, channel
    toSingle: Angle -> Angle)                           // narrowing of a double to a float

  datatype Option<T> = None | Some(value: T)

  /** The robot models the interface knows a converter for. */
  predicate KnownModel(robotModel: string) {
    robotModel == "typeF" || robotModel == "typeFCETy"
  }

  /** The converter selected by the robot-model name; an unknown name selects
      none (the interface then only logs an error). */
  function SelectConverter(hw: Hardware): (r: Option<Converter>)
    ensures r.Some? <==> KnownModel(hw.robotModel)
  {
    if hw.robotModel == "typeF" then Some(hw.typeF)
    else if hw.robotModel == "typeFCETy" then Some(hw.typeFCETy)
    else None
  }

  /** A segment's raw device data remapped to its canonical stroke channels. */
  function RemapToCanonical(link: SegmentLink, raw: seq<Int16>): (r: seq<Int16>)
    ensures |r| == link.dof
  {
    seq(link.dof, i requires 0 <= i < link.dof => link.aeroToRos(raw, i))
  }

  /** Whole-body strokes remapped to one segment's device channel order. */
  function RemapToDevice(link: SegmentLink, strokes: seq<Int16>): (r: seq<Int16>)
    ensures |r| == DeviceArraySize
  {
    var r := seq(DeviceArraySize, c requires 0 <= c < DeviceArraySize => link.rosToAero(strokes, c));
    assert forall c :: 0 <= c < |r| ==> r[c] == link.rosToAero(strokes, c);
    r
  }
}
