/** The read phase (readPos): decode the segments' raw data into joint angles,
    overwrite the sensed state and, on the very first read only, seed the
    commands and the change-mask snapshot with the sensed positions. */
module ReadPhase {
  import opened JointTypes
  import opened Collaborators
  import opened JointRegistry

  /** The whole-body canonical stroke vector: the upper segment's channels
      followed by the lower segment's. */
  function CanonicalStrokes(hw: Hardware, rawUpper: seq<Int16>, rawLower: seq<Int16>): (r: seq<Int16>)
    ensures |r| == hw.upper.dof + hw.lower.dof
    ensures forall i :: 0 <= i < hw.upper.dof ==> r[i] == hw.upper.aeroToRos(rawUpper, i)
    ensures forall i :: hw.upper.dof <= i < |r| ==> r[i] == hw.lower.aeroToRos(rawLower, i - hw.upper.dof)
  {
    RemapToCanonical(hw.upper, rawUpper) + RemapToCanonical(hw.lower, rawLower)
  }

  /** The joint angles decoded from the raw data of both segments, one per
      joint. With an unknown robot model the zeroed buffer is left as it is. */
  function SensedAngles(hw: Hardware, n: nat, rawUpper: seq<Int16>, rawLower: seq<Int16>): (r: seq<Angle>)
    ensures |r| == n
    ensures hw.robotModel == "typeF" ==>
      forall j :: 0 <= j < n ==> r[j] == hw.typeF.strokeToAngle(CanonicalStrokes(hw, rawUpper, rawLower), j)
    ensures hw.robotModel == "typeFCETy" ==>
      forall j :: 0 <= j < n ==> r[j] == hw.typeFCETy.strokeToAngle(CanonicalStrokes(hw, rawUpper, rawLower), j)
    ensures !KnownModel(hw.robotModel) ==> forall j :: 0 <= j < n ==> r[j] == 0.0
  {
    var strokes := CanonicalStrokes(hw, rawUpper, rawLower);
    match SelectConverter(hw)
    case Some(c) => seq(n, j requires 0 <= j < n => c.strokeToAngle(strokes, j))
    case None => Zeros(n)
  }

  /** One read: `actPositions` are the decoded angles, `toSingle` the
      narrowing each passes through before it is stored. */
  function ReadPos(s: State, actPositions: seq<Angle>, toSingle: Angle -> Angle): (r: State)
    requires s.Valid() && |actPositions| == |s.joints|
    ensures r.Valid() && r.joints == s.joints
    ensures forall j :: 0 <= j < |r.joints| ==>
      && r.position[j] == toSingle(actPositions[j])
      && r.velocity[j] == 0.0
      && r.effort[j] == 0.0
    ensures r.initialized
    ensures !s.initialized ==> r.positionCommand == r.position && r.prevRef == r.position
    ensures s.initialized ==> r.positionCommand == s.positionCommand && r.prevRef == s.prevRef
    ensures r.methods == s.methods
    ensures r.velocityCommand == s.velocityCommand && r.effortCommand == s.effortCommand
  {
    var n := |s.joints|;
    var sensed := s.(position := seq(n, j requires 0 <= j < n => toSingle(actPositions[j])),
                     velocity := Zeros(n),
                     effort := Zeros(n));
    if s.initialized then sensed
    else sensed.(positionCommand := sensed.position, prevRef := sensed.position, initialized := true)
  }

  /** Every sample has one angle per joint. */
  predicate SamplesFit(samples: seq<seq<Angle>>, n: nat) {
    forall k :: 0 <= k < |samples| ==> |samples[k]| == n
  }

  /** A run of reads, one per sample, in order. */
  function ReadPosAll(s: State, samples: seq<seq<Angle>>, toSingle: Angle -> Angle): (r: State)
    requires s.Valid() && SamplesFit(samples, |s.joints|)
    ensures r.Valid() && r.joints == s.joints
    ensures r.methods == s.methods
    ensures r.velocityCommand == s.velocityCommand && r.effortCommand == s.effortCommand
    ensures |samples| > 0 ==> r.initialized
    decreases |samples|
  {
    if |samples| == 0 then s
    else ReadPosAll(ReadPos(s, samples[0], toSingle), samples[1..], toSingle)
  }

  /** Seeding happens at most once: an initialized registry keeps its commands
      and snapshot through any number of reads, and an uninitialized one ends
      up with both equal to the positions of the first sample read. */
  lemma {:induction false} SeedAtMostOnce(s: State, samples: seq<seq<Angle>>, toSingle: Angle -> Angle)
    requires s.Valid() && SamplesFit(samples, |s.joints|)
    ensures ReadPosAll(s, samples, toSingle).initialized <==> s.initialized || |samples| > 0
    ensures s.initialized ==>
      && ReadPosAll(s, samples, toSingle).positionCommand == s.positionCommand
      && ReadPosAll(s, samples, toSingle).prevRef == s.prevRef
    ensures !s.initialized && |samples| > 0 ==>
      forall j :: 0 <= j < |s.joints| ==>
        && ReadPosAll(s, samples, toSingle).positionCommand[j] == toSingle(samples[0][j])
        && ReadPosAll(s, samples, toSingle).prevRef[j] == toSingle(samples[0][j])
    decreases |samples|
  {
    if |samples| > 0 {
      var s1 := ReadPos(s, samples[0], toSingle);
      assert SamplesFit(samples[1..], |s1.joints|) by {
        forall k | 0 <= k < |samples[1..]| ensures |samples[1..][k]| == |s1.joints| {
          assert samples[1..][k] == samples[k + 1];
        }
      }
      SeedAtMostOnce(s1, samples[1..], toSingle);
      assert ReadPosAll(s, samples, toSingle) == ReadPosAll(s1, samples[1..], toSingle);
    }
  }
}
