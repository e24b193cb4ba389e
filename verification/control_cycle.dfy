/** Initialisation of the hardware interface and the periodic control cycle
    built from the read and write phases. */
module ControlCycle {
  import opened JointTypes
  import opened Collaborators
  import opened JointRegistry
  import opened ReadPhase
  import opened WritePhase

  /** Initialisation: build the joint list, size the arrays, do the first read
      (which seeds commands and snapshot), then zero the velocities, efforts
      and their commands and put every joint under position control.
      `rawUpper`/`rawLower` are what the first fetch returns. */
  function Init(hw: Hardware, upper: seq<string>, lower: seq<string>,
                rawUpper: seq<Int16>, rawLower: seq<Int16>): (s: State)
    ensures s.Valid()
    ensures s.joints == upper + lower && |s.joints| == |upper| + |lower|
    ensures s.initialized
    ensures s.AllPosition()
    ensures s.positionCommand == s.position && s.prevRef == s.position
    ensures forall j :: 0 <= j < |s.joints| ==>
      s.position[j] == hw.toSingle(SensedAngles(hw, |s.joints|, rawUpper, rawLower)[j])
    ensures forall j :: 0 <= j < |s.joints| ==>
      && s.velocity[j] == 0.0 && s.effort[j] == 0.0
      && s.velocityCommand[j] == 0.0 && s.effortCommand[j] == 0.0
  {
    var n := |upper| + |lower|;
    var seeded := ReadPos(Fresh(upper, lower), SensedAngles(hw, n, rawUpper, rawLower), hw.toSingle);
    seeded.(velocity := Zeros(n), velocityCommand := Zeros(n),
            effort := Zeros(n), effortCommand := Zeros(n),
            methods := seq(n, _ => Position))
  }

  /** A write right after initialisation, with the commands left as seeded,
      masks every joint: the snapshot was seeded with the same positions. */
  lemma FirstWriteAfterInitMasksAll(hw: Hardware, upper: seq<string>, lower: seq<string>,
                                    rawUpper: seq<Int16>, rawLower: seq<Int16>,
                                    rawUpper': seq<Int16>, rawLower': seq<Int16>)
    ensures var s := Init(hw, upper, lower, rawUpper, rawLower);
            forall i :: 0 <= i < |upper| + |lower| ==> !Write(hw, s, rawUpper', rawLower').mask[i]
  {
  }

  /** One control tick: the controller's position commands (as set through the
      joint handles, after limit enforcement) and the raw data decoded by the
      read-back of the write. */
  datatype Tick = Tick(command: seq<Angle>, rawUpper: seq<Int16>, rawLower: seq<Int16>)

  /** Every tick carries one command per joint. */
  predicate TicksFit(ticks: seq<Tick>, n: nat) {
    forall k :: 0 <= k < |ticks| ==> |ticks[k].command| == n
  }

  /** The writes of a run of ticks, in order. */
  function Run(hw: Hardware, s: State, ticks: seq<Tick>): (r: seq<WriteResult>)
    requires s.Valid() && TicksFit(ticks, |s.joints|)
    ensures |r| == |ticks|
    ensures forall k :: 0 <= k < |r| ==> |r[k].mask| == |s.joints|
    ensures forall k :: 0 <= k < |r| ==>
      && r[k].state.Valid() && r[k].state.joints == s.joints
      && r[k].state.methods == s.methods
      && r[k].state.initialized
    decreases |ticks|
  {
    if |ticks| == 0 then []
    else
      var w := Write(hw, s.(positionCommand := ticks[0].command), ticks[0].rawUpper, ticks[0].rawLower);
      assert TicksFit(ticks[1..], |w.state.joints|) by {
        forall k | 0 <= k < |ticks[1..]| ensures |ticks[1..][k].command| == |w.state.joints| {
          assert ticks[1..][k] == ticks[k + 1];
        }
      }
      [w] + Run(hw, w.state, ticks[1..])
  }

  /** The command each tick is compared against: the snapshot for the first
      tick, the previous tick's command after that. */
  function PreviousCommand(s: State, ticks: seq<Tick>, k: nat): seq<Angle>
    requires k < |ticks|
  {
    if k == 0 then s.prevRef else ticks[k - 1].command
  }

  /** Under position control, each write's mask marks exactly the joints whose
      command differs from the previous tick's (from the snapshot, for the
      first tick). */
  lemma {:induction false} MaskTracksCommandChanges(hw: Hardware, s: State, ticks: seq<Tick>)
    requires s.Valid() && s.initialized && s.AllPosition()
    requires TicksFit(ticks, |s.joints|)
    ensures forall k, i :: 0 <= k < |ticks| && 0 <= i < |s.joints| ==>
      (Run(hw, s, ticks)[k].mask[i] <==> ticks[k].command[i] != PreviousCommand(s, ticks, k)[i])
    decreases |ticks|
  {
    if |ticks| > 0 {
      var s0 := s.(positionCommand := ticks[0].command);
      var w := Write(hw, s0, ticks[0].rawUpper, ticks[0].rawLower);
      assert Targets(s0) == ticks[0].command;
      assert TicksFit(ticks[1..], |w.state.joints|) by {
        forall k | 0 <= k < |ticks[1..]| ensures |ticks[1..][k].command| == |w.state.joints| {
          assert ticks[1..][k] == ticks[k + 1];
        }
      }
      MaskTracksCommandChanges(hw, w.state, ticks[1..]);
      var run := Run(hw, s, ticks);
      assert run == [w] + Run(hw, w.state, ticks[1..]);
      forall k, i | 0 <= k < |ticks| && 0 <= i < |s.joints|
        ensures run[k].mask[i] <==> ticks[k].command[i] != PreviousCommand(s, ticks, k)[i]
      {
        if k > 0 {
          assert run[k] == Run(hw, w.state, ticks[1..])[k - 1];
          assert ticks[1..][k - 1] == ticks[k];
          assert PreviousCommand(w.state, ticks[1..], k - 1) == PreviousCommand(s, ticks, k);
        }
      }
    }
  }

  /** After initialisation, as long as the controller keeps commanding the
      positions sensed at startup, no write marks any joint to be sent. */
  lemma {:induction false} SteadyCommandsSendNothing(hw: Hardware, upper: seq<string>, lower: seq<string>,
                                                    rawUpper: seq<Int16>, rawLower: seq<Int16>, ticks: seq<Tick>)
    requires var s := Init(hw, upper, lower, rawUpper, rawLower);
             forall k :: 0 <= k < |ticks| ==> ticks[k].command == s.positionCommand
    ensures var s := Init(hw, upper, lower, rawUpper, rawLower);
            forall k, i :: 0 <= k < |ticks| && 0 <= i < |s.joints| ==> !Run(hw, s, ticks)[k].mask[i]
  {
    var s := Init(hw, upper, lower, rawUpper, rawLower);
    MaskTracksCommandChanges(hw, s, ticks);
    forall k, i | 0 <= k < |ticks| && 0 <= i < |s.joints|
      ensures ticks[k].command[i] == PreviousCommand(s, ticks, k)[i]
    {
    }
  }

  /** Three joints (two upper, one lower) sensing 0.1, 0.2 and 0.3 at start:
      the commands and the snapshot both hold the sensed (narrowed) values,
      so the first write with unchanged commands sends no joint at all. */
  lemma StartupScenario(hw: Hardware, rawUpper: seq<Int16>, rawLower: seq<Int16>)
    requires hw.robotModel == "typeF"
    requires forall j :: 0 <= j < 3 ==>
      hw.typeF.strokeToAngle(CanonicalStrokes(hw, rawUpper, rawLower), j) == [0.1, 0.2, 0.3][j]
    ensures var s := Init(hw, ["neck_y", "neck_p"], ["knee"], rawUpper, rawLower);
            && s.positionCommand == [hw.toSingle(0.1), hw.toSingle(0.2), hw.toSingle(0.3)]
            && s.prevRef == s.positionCommand
            && Write(hw, s, rawUpper, rawLower).mask == [false, false, false]
  {
  }
}
