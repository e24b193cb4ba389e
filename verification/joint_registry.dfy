/** The per-joint bookkeeping of the hardware interface: the canonical joint
    list (upper-body joints, then lower-body joints) and the parallel arrays
    indexed by it. */
module JointRegistry {
  import opened JointTypes

  datatype State = State(
    joints: seq<string>,
    position: seq<Angle>,          // sensed
    velocity: seq<real>,           // sensed (always zero)
    effort: seq<real>,             // sensed (always zero)
    positionCommand: seq<Angle>,
    velocityCommand: seq<real>,
    effortCommand: seq<real>,
    methods: seq<ControlMethod>,
    prevRef: seq<Angle>,           // targets of the previous write, for change masking
    initialized: bool)             // set by the first read, never cleared
  {
    /** Every per-joint array is indexed by the joint list. */
    predicate Valid() {
      && |position| == |joints|
      && |velocity| == |joints|
      && |effort| == |joints|
      && |positionCommand| == |joints|
      && |velocityCommand| == |joints|
      && |effortCommand| == |joints|
      && |methods| == |joints|
      && |prevRef| == |joints|
    }

    /** Every joint is position controlled. */
    predicate AllPosition()
      requires Valid()
    {
      forall j :: 0 <= j < |joints| ==> methods[j] == Position
    }
  }

  /** The canonical joint list, built index by index: an index below the
      number of upper names takes an upper name, the rest take lower names. */
  function JointList(upper: seq<string>, lower: seq<string>): (r: seq<string>)
    ensures r == upper + lower
  {
    seq(|upper| + |lower|, i requires 0 <= i < |upper| + |lower| =>
      if i < |upper| then upper[i] else lower[i - |upper|])
  }

  /** The registry once the joint list is built and every array sized, before
      the first read: all values zero and the registry not initialized. */
  function Fresh(upper: seq<string>, lower: seq<string>): (s: State)
    ensures s.Valid()
    ensures s.joints == upper + lower
    ensures !s.initialized
  {
    var n := |upper| + |lower|;
    // The methods are set to Position for every joint once the first read
    // is done; nothing reads them before that.
    State(JointList(upper, lower), Zeros(n), Zeros(n), Zeros(n),
          Zeros(n), Zeros(n), Zeros(n), seq(n, _ => Position), Zeros(n), false)
  }
}
