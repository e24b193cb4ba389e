/** Value types shared by the whole model of the Noid robot hardware interface. */
module JointTypes {

  /** A signed 16-bit stroke value: one entry of a stroke vector. */
  type Int16 = x: int | -0x8000 <= x < 0x8000

  /** A joint angle. The interface keeps angles in doubles and only ever
      compares them for equality, so an exact number stands for one. */
  type Angle = real

  /** How a joint is driven. Only Position has an effect on the write path. */
  datatype ControlMethod = Position | Velocity | Effort | PositionPid | VelocityPid

  /** A freshly sized vector of `n` doubles, all zero. */
  function Zeros(n: nat): (r: seq<real>)
    ensures |r| == n
    ensures forall i :: 0 <= i < n ==> r[i] == 0.0
  {
    seq(n, _ => 0.0)
  }

  /** A freshly sized vector of `n` strokes, all zero. */
  function ZeroStrokes(n: nat): (r: seq<Int16>)
    ensures |r| == n
    ensures forall i :: 0 <= i < n ==> r[i] == 0
  {
    seq(n, _ => 0)
  }
}
