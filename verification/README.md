# Noid robot hardware interface: per-joint bookkeeping

This project models the control-cycle bookkeeping of `NoidRobotHW`, the ROS
hardware interface of the Noid robot. The robot's body is split into two
serial segments, upper and lower. The interface keeps one canonical joint
list, with the upper joints first. Per joint it keeps the sensed position,
velocity and effort, the commands, the control method and the change-mask
snapshot. The snapshot holds the previous write's target, or the first sensed
positions before any write. It also keeps one `initialized`
flag for the whole registry.

The model is functional. An immutable `State` record holds `seq`-based
per-joint arrays, and pure functions model the three operations:

- building the joint list and initialising (`JointList`, `Fresh`, `Init`);
- the read phase `readPos`: decode, overwrite the sensed state, and seed the
  commands and the snapshot on the first read only (`SensedAngles`, `ReadPos`);
- the write phase `write`: select targets by control method, compute the
  per-joint change mask against the snapshot, then update the snapshot. It
  then encodes strokes and gives each segment either the masked or the
  unmasked strokes, depending on whether the segment is open. It ends with
  the read-back (`Write`).

The code the interface calls but does not define is passed in as
function-valued fields of a `Hardware` record:

- the per-robot `Stroke2Angle`/`Angle2Stroke`;
- each segment's `remapAeroToRos`/`remapRosToAero`;
- `MaskRobotCommand`;
- the narrowing of a double to a float at line 228.

The converters and the remap functions fill a vector that the caller has
already sized and zeroed. `MaskRobotCommand` rewrites, in place, a copy of
the encoded strokes. So each of these is given as a function from its inputs
and an output index to the entry at that index, and the caller's sizes fix
every length. The narrowing is a cast of one value, given as a function on
angles. Angles are `real`, because the interface only compares them for
equality. Strokes are 16-bit integers. The robot-model dispatch is modelled
as written: "typeF" and "typeFCETy" select a converter, and any other name
leaves the zeroed buffer as it is. So positions read as 0.0 and the encoded
strokes are 0. What a segment is then sent is the remap of those zero strokes,
masked when the segment is open, and that remap is not part of this model.

Points of the code worth stating plainly, since a reader might expect
otherwise:

- The change mask is per joint. It is computed on the angle targets before
  `Angle2Stroke` runs, not per stroke channel.
- The snapshot is seeded with the sensed positions at the first read. A first
  write whose commands are still the seeded ones therefore masks every joint.
- A joint whose method is not Position gets the target 0.0, which is the
  freshly zeroed entry.
- Sensed velocity and effort are set to zero on every read.

## Model

| member | source | states |
|---|---|---|
| JointRegistry.JointList | noid_ros_controller/src/noid_robot_hardware.cpp:84-91 | the joint list built index by index is exactly the upper names followed by the lower names (so its length is the sum of the two) |
| JointRegistry.Fresh | noid_ros_controller/src/noid_robot_hardware.cpp:85-125 | before the first read every per-joint array has one entry per joint of the upper-then-lower list, and the registry is not initialized |
| Collaborators.SelectConverter | noid_ros_controller/src/noid_robot_hardware.cpp:221-223 | a converter is selected exactly when the robot model is "typeF" or "typeFCETy" |
| ReadPhase.CanonicalStrokes | noid_ros_controller/src/noid_robot_hardware.cpp:205-215 | the whole-body stroke vector has DOF_upper + DOF_lower channels; the first DOF_upper come from the upper segment's raw data, the rest from the lower segment's (re-indexed from 0) |
| ReadPhase.SensedAngles | noid_ros_controller/src/noid_robot_hardware.cpp:217-223 | one angle per joint: the selected converter's angle for the joint index, or 0.0 for every joint when the robot model is unknown |
| ReadPhase.ReadPos | noid_ros_controller/src/noid_robot_hardware.cpp:226-242 | each position becomes the narrowed decoded angle at its index, and velocity and effort become 0. On an uninitialized registry, commands and snapshot both become the new positions; on an initialized one both are unchanged. Afterwards the registry is initialized, and methods and the other commands are untouched |
| ReadPhase.SeedAtMostOnce | noid_ros_controller/src/noid_robot_hardware.cpp:236-242 | over any run of reads, an initialized registry keeps its commands and snapshot. An uninitialized one ends with both equal to the positions of the first read, and it is initialized exactly when it was already or some read happened |
| WritePhase.Targets | noid_ros_controller/src/noid_robot_hardware.cpp:256-282 | a Position joint's target is its position command; a joint under any other method gets 0.0 |
| WritePhase.ChangeMask | noid_ros_controller/src/noid_robot_hardware.cpp:284-291 | one mask entry per joint, true ("send") exactly when the joint's target differs from its snapshot entry; `UpdateMask` is proved to compute it |
| WritePhase.UpdateMask | noid_ros_controller/src/noid_robot_hardware.cpp:284-293 | the in-place masking loop clears a joint's mask entry exactly when its target equals the snapshot entry it started from, and leaves the snapshot equal to the targets whatever the mask. Its mask equals `ChangeMask`, the mask `Write` uses |
| WritePhase.EncodeStrokes | noid_ros_controller/src/noid_robot_hardware.cpp:295-301 | the encoded stroke vector has one entry per canonical channel of both segments: the selected converter's stroke for the channel, or 0 when the robot model is unknown |
| WritePhase.SegmentStrokes | noid_ros_controller/src/noid_robot_hardware.cpp:306-315 | a segment is sent 30 device channels: the remap of the masked strokes when the segment is open, of the unmasked strokes when it is closed |
| WritePhase.Write | noid_ros_controller/src/noid_robot_hardware.cpp:252-337 | a joint is marked to send exactly when its target differs from the snapshot. On an initialized registry the snapshot afterwards equals the targets and the commands are unchanged. The masked strokes are the masking routine applied to the encoded strokes and the mask (`MaskStrokes`, lines 303-304). Each segment is given the masked strokes when open and the unmasked strokes when closed, remapped to 30 device channels. The read-back refreshes the positions from the raw data and zeroes velocity and effort; it leaves the velocity and effort commands alone. On an uninitialized registry it re-seeds the commands and the snapshot with the read-back positions |
| WritePhase.MaskClearIffUnchanged | noid_ros_controller/src/noid_robot_hardware.cpp:284-293 | a write's mask is all clear exactly when the targets equal the snapshot |
| WritePhase.SecondWriteMasksAll | noid_ros_controller/src/noid_robot_hardware.cpp:287-336 | two writes in a row on an initialized registry whose targets are identical (the commands may change in between, as long as the targets come out the same): the second masks every joint |
| WritePhase.OpenOnlyChoosesVector | noid_ros_controller/src/noid_robot_hardware.cpp:303-315 | for either segment, flipping whether it is open changes nothing but that segment's strokes: the state, mask, both stroke vectors and the other segment's strokes are the same. It does not change even those when masking left the strokes unchanged |
| WritePhase.ClosedSegmentIgnoresMask | noid_ros_controller/src/noid_robot_hardware.cpp:311-315 | a closed segment, upper or lower, receives the same strokes whatever the snapshot (hence the mask) is |
| ControlCycle.Init | noid_ros_controller/src/noid_robot_hardware.cpp:84-152 | after initialisation the joint list is upper then lower and the registry is initialized. Every joint is position controlled, and commands and snapshot equal the narrowed first sensed positions. Velocities, efforts and their commands are zero |
| ControlCycle.FirstWriteAfterInitMasksAll | noid_ros_controller/src/noid_robot_hardware.cpp:236-293 | a write straight after initialisation, with the commands as seeded, marks no joint to send |
| ControlCycle.Run | noid_ros_controller/src/noid_robot_hardware.cpp:247-338 | a run of ticks yields one write per tick, each with one mask entry per joint; every write passes on a valid, initialized registry with the same joints and control methods |
| ControlCycle.MaskTracksCommandChanges | noid_ros_controller/src/noid_robot_hardware.cpp:284-293 | under position control each tick's mask marks exactly the joints whose command differs from the previous tick's command (from the snapshot, for the first tick) |
| ControlCycle.SteadyCommandsSendNothing | noid_ros_controller/src/noid_robot_hardware.cpp:236-293 | after initialisation, while the commands stay at the positions sensed at startup, no write marks any joint to send |
| ControlCycle.StartupScenario | noid_ros_controller/src/noid_robot_hardware.cpp:236-242 | with three joints sensing 0.1, 0.2 and 0.3, the commands and snapshot hold those (narrowed) values, and the first write's mask is all false |

## Left out

- ROS parameter loading (ports, robot model, joint names, control rate, overlap scale), the robot-description and URDF joint-existence checks with their `return false` paths, and the registration of state, command and limit handles. These are framework configuration; the joint-name lists and the robot model are inputs.
- `enforceLimits` at line 254. It is an external, stateful saturation library. `Write` takes the registry as it is after saturation.
- The serial I/O: `getPosition`, `sendPosition`, the contents of `raw_data_`, and the `update` flag of `readPos`, which only chooses whether to fetch. The raw data decoded by a read is an input, and the two device stroke vectors a write sends are outputs.
- The threads, the fork-join of the two segment transfers and the mutex lock order in `readPos` and `write`. These are concurrency with no effect on the values computed.
- `handScript`, `startWheelServo` and `stopWheelServo`. These are hardware side effects under a lock, with no joint bookkeeping.
- The `time_csec` move time at line 317 and `CONTROL_PERIOD_US_` at line 64. Both are floating-point arithmetic with a narrowing cast.
- The contents of `Stroke2Angle`, `Angle2Stroke`, `remapAeroToRos`, `remapRosToAero` and `MaskRobotCommand`, and the double-to-float narrowing. Their definitions are not part of this model, so they stay uninterpreted. The model assumes they do not resize the vectors they fill, which the interface's indexing already relies on.
- The error log of an unknown robot model. Only its effect on the data is modelled: the zeroed buffers are left as they are.
- NaN angles. Angles are exact reals, so the model does not cover the case where a NaN target never compares equal to its snapshot.
- The registry's initial control methods before line 140. They depend on a default enum value that is not part of this model. Nothing reads them before line 140 sets every joint to Position, so `Fresh` uses Position.
- ControlCycle.Run: it models consecutive writes driven by given commands. The controller that produces the commands and the no-op `read` are outside the model.
