/**
The magnetometer driver: a reading that saturates is retried with the next gain, until
it fits, the gain is the last one, or the sensor has nothing to report.
*/
module AutoRange {
  import opened Common

  datatype Gain = G1_3 | G1_9 | G2_5 | G4_0 | G4_7 | G5_6 | G8_1
  {
    function Rank(): (r: nat)
      ensures r <= 6 && (r == 6 <==> G8_1?)
    {
      match this
      case G1_3 => 0
      case G1_9 => 1
      case G2_5 => 2
      case G4_0 => 3
      case G4_7 => 4
      case G5_6 => 5
      case G8_1 => 6
    }

    function Next(): (g: Gain)
      requires !G8_1?
      ensures g.Rank() == Rank() + 1
    {
      match this
      case G1_3 => G1_9
      case G1_9 => G2_5
      case G2_5 => G4_0
      case G4_0 => G4_7
      case G4_7 => G5_6
      case G5_6 => G8_1
    }

    /** Counts per gauss on the x and y axes. */
    function Xy(): (n: nat)
      ensures n > 0
    {
      match this
      case G1_3 => 1100
      case G1_9 => 855
      case G2_5 => 670
      case G4_0 => 450
      case G4_7 => 400
      case G5_6 => 330
      case G8_1 => 230
    }

    /** Counts per gauss on the z axis. */
    function Z(): (n: nat)
      ensures n > 0
    {
      match this
      case G1_3 => 980
      case G1_9 => 760
      case G2_5 => 600
      case G4_0 => 400
      case G4_7 => 355
      case G5_6 => 295
      case G8_1 => 205
    }
  }

  /** What one pass over the bus finds: the ready bit clear, or the six output registers. */
  datatype Observation = NotReady | Registers(xhi: Byte, xlo: Byte, zhi: Byte, zlo: Byte, yhi: Byte, ylo: Byte)

  datatype Data = Data(x: int, y: int, z: int)

  /** The sensor record. */
  datatype Sensor = Sensor(magGain: Gain, data: Data, xyScale: nat, zScale: nat)

  datatype Field = Unset | Microtesla(x: real, y: real, z: real)

  /** A signed 16-bit register pair. */
  function Signed16(hi: Byte, lo: Byte): (n: int)
    ensures -0x8000 <= n < 0x8000 && (n - lo - 256 * hi) % 0x10000 == 0
  {
    var word := 256 * hi + lo;
    if word >= 0x8000 then word - 0x10000 else word
  }

  function DataOf(o: Observation): Data
    requires o.Registers?
  {
    Data(Signed16(o.xhi, o.xlo), Signed16(o.yhi, o.ylo), Signed16(o.zhi, o.zlo))
  }

  predicate Saturated(d: Data) {
    d.x >= 2040 || d.x <= -2040 || d.y >= 2040 || d.y <= -2040 || d.z >= 2040 || d.z <= -2040
  }

  function SetMagGain(s: Sensor, g: Gain): Sensor {
    s.(magGain := g, xyScale := g.Xy(), zScale := g.Z())
  }

  predicate ScalesMatch(s: Sensor) { s.xyScale == s.magGain.Xy() && s.zScale == s.magGain.Z() }

  function StructInit(): (s: Sensor)
    ensures ScalesMatch(s) && s.magGain.Rank() == 0
  {
    Sensor(G1_3, Data(0, 0, 0), 1100, 980)
  }

  const GAUSS_TO_MICROTESLA := 100.0

  function Convert(s: Sensor): Field
    requires ScalesMatch(s)
  {
    Microtesla(s.data.x as real / s.xyScale as real * GAUSS_TO_MICROTESLA,
               s.data.y as real / s.xyScale as real * GAUSS_TO_MICROTESLA,
               s.data.z as real / s.zScale as real * GAUSS_TO_MICROTESLA)
  }

  datatype Outcome = Outcome(sensor: Sensor, passes: nat, field: Field)

  /** getOrientation, when pass n from now observes obs(at + n). */
  function Orient(s: Sensor, obs: nat -> Observation, at: nat): (r: Outcome)
    requires ScalesMatch(s)
    ensures ScalesMatch(r.sensor)
    decreases 6 - s.magGain.Rank()
  {
    if obs(at).NotReady? then Outcome(s, 1, Unset)
    else
      var s1 := s.(data := DataOf(obs(at)));
      if Saturated(s1.data) && !s1.magGain.G8_1? then
        var r := Orient(SetMagGain(s1, s1.magGain.Next()), obs, at + 1);
        r.(passes := r.passes + 1)
      else Outcome(s1, 1, Convert(s1))
  }

  /** A two's complement 16-bit number, high byte first. */
  predicate IsWord(n: int, hi: Byte, lo: Byte) {
    n == 256 * hi + lo - if hi >= 0x80 then 0x10000 else 0
  }

  /** Some axis is at least 2040 counts away from zero. */
  predicate OffScale(d: Data) { !(-2040 < d.x < 2040 && -2040 < d.y < 2040 && -2040 < d.z < 2040) }

  /** Counts per gauss of the seven gains, in order, from the data sheet. */
  const XY_COUNTS: seq<nat> := [1100, 855, 670, 450, 400, 330, 230]
  const Z_COUNTS: seq<nat> := [980, 760, 600, 400, 355, 295, 205]

  /** The reading in microtesla, 100 to the gauss: the registers come as x, z, y, and z has a scale of its own. */
  predicate Reads(o: Observation, g: Gain, d: Data, f: Field)
    requires o.Registers?
  {
    && IsWord(d.x, o.xhi, o.xlo) && IsWord(d.y, o.yhi, o.ylo) && IsWord(d.z, o.zhi, o.zlo)
    && f.Microtesla?
    && f.x == d.x as real / XY_COUNTS[g.Rank()] as real * 100.0
    && f.y == d.y as real / XY_COUNTS[g.Rank()] as real * 100.0
    && f.z == d.z as real / Z_COUNTS[g.Rank()] as real * 100.0
  }

  lemma Scales(g: Gain)
    ensures g.Xy() == XY_COUNTS[g.Rank()] && g.Z() == Z_COUNTS[g.Rank()]
  {
  }

  lemma ConvertReads(s: Sensor, o: Observation)
    requires ScalesMatch(s) && o.Registers? && s.data == DataOf(o)
    ensures Reads(o, s.magGain, s.data, Convert(s))
  {
    Scales(s.magGain);
  }

  /** Passes from..to were ready and met saturation. */
  ghost predicate AllSaturated(obs: nat -> Observation, from: nat, to: nat) {
    forall k :: from <= k < to ==> obs(k).Registers? && OffScale(DataOf(obs(k)))
  }

  /** What the last pass of a call leaves. */
  ghost predicate LastPass(o: Observation, r: Outcome) {
    && (r.field.Unset? <==> o.NotReady?)
    && (o.Registers? ==>
          && (!OffScale(r.sensor.data) || r.sensor.magGain.G8_1?)
          && Reads(o, r.sensor.magGain, r.sensor.data, r.field))
  }

  /** The passes of a call: all but the last saturated, each followed by the next gain. */
  ghost predicate Ranged(s: Sensor, obs: nat -> Observation, at: nat, r: Outcome) {
    && r.passes >= 1 && r.sensor.magGain.Rank() == s.magGain.Rank() + r.passes - 1
    && AllSaturated(obs, at, at + r.passes - 1)
    && LastPass(obs(at + r.passes - 1), r)
  }

  lemma PassBefore(s: Sensor, s1: Sensor, obs: nat -> Observation, at: nat, r: Outcome)
    requires s1.magGain.Rank() == s.magGain.Rank() + 1 && obs(at).Registers? && OffScale(DataOf(obs(at)))
    requires Ranged(s1, obs, at + 1, r)
    ensures Ranged(s, obs, at, r.(passes := r.passes + 1))
  {
  }

  lemma OnePass(s: Sensor, o: Observation)
    requires ScalesMatch(s)
    ensures o.NotReady? ==> LastPass(o, Outcome(s, 1, Unset))
    ensures o.Registers? && (!Saturated(DataOf(o)) || s.magGain.G8_1?) ==>
      var s1 := s.(data := DataOf(o)); LastPass(o, Outcome(s1, 1, Convert(s1)))
  {
    if o.Registers? {
      ConvertReads(s.(data := DataOf(o)), o);
    }
  }

  /**
  One call, for any observations: it ends; every pass but the last met saturation; the
  gain rose by exactly one step per repetition; and a field is reported exactly when
  the last pass was ready, read off its registers with that gain's scales and within
  scale unless the gain is the largest.
  */
  lemma {:induction false} OrientLaw(s: Sensor, obs: nat -> Observation, at: nat)
    requires ScalesMatch(s)
    ensures Ranged(s, obs, at, Orient(s, obs, at))
    decreases 6 - s.magGain.Rank()
  {
    if obs(at).Registers? && Saturated(DataOf(obs(at))) && !s.magGain.G8_1? {
      var s1 := SetMagGain(s.(data := DataOf(obs(at))), s.magGain.Next());
      OrientLaw(s1, obs, at + 1);
      PassBefore(s, s1, obs, at, Orient(s1, obs, at + 1));
    } else {
      OnePass(s, obs(at));
    }
  }

  /** Any number of calls one after the other: the sensor record, and the passes made. */
  function Calls(s: Sensor, obs: nat -> Observation, n: nat): (r: (Sensor, nat))
    requires ScalesMatch(s)
    ensures ScalesMatch(r.0)
  {
    if n == 0 then (s, 0)
    else
      var before := Calls(s, obs, n - 1);
      var r := Orient(before.0, obs, before.1);
      (r.sensor, before.1 + r.passes)
  }

  /**
  Over any run of calls the gain never falls, and every pass is either the last of its
  call or one of the at most six gain steps there will ever be.
  */
  lemma {:induction false} RunLaw(s: Sensor, obs: nat -> Observation, n: nat, m: nat)
    requires ScalesMatch(s) && n <= m
    ensures var a, b := Calls(s, obs, n), Calls(s, obs, m);
      && a.0.magGain.Rank() <= b.0.magGain.Rank() <= 6
      && b.1 - a.1 == (m - n) + (b.0.magGain.Rank() - a.0.magGain.Rank())
  {
    if n < m {
      RunLaw(s, obs, n, m - 1);
      var before := Calls(s, obs, m - 1);
      OrientLaw(before.0, obs, before.1);
    }
  }

  /** From a fresh record, n calls make at most n + 6 passes and six gain changes. */
  lemma FreshRun(obs: nat -> Observation, n: nat)
    ensures var r := Calls(StructInit(), obs, n);
      r.1 == n + r.0.magGain.Rank() <= n + 6
  {
    RunLaw(StructInit(), obs, 0, n);
  }

  /** The sensor as the driver keeps it. */
  class Lsm303 {
    var magGain: Gain
    var data: Data
    var xyScale: nat
    var zScale: nat

    function View(): Sensor
      reads this
    {
      Sensor(magGain, data, xyScale, zScale)
    }

    constructor ()
      ensures View() == StructInit()
    {
      magGain, data, xyScale, zScale := G1_3, Data(0, 0, 0), 1100, 980;
    }

    method SetGain(g: Gain)
      modifies this
      ensures View() == SetMagGain(old(View()), g)
    {
      magGain := g;
      match g {
        case G1_3 => xyScale, zScale := 1100, 980;
        case G1_9 => xyScale, zScale := 855, 760;
        case G2_5 => xyScale, zScale := 670, 600;
        case G4_0 => xyScale, zScale := 450, 400;
        case G4_7 => xyScale, zScale := 400, 355;
        case G5_6 => xyScale, zScale := 330, 295;
        case G8_1 => xyScale, zScale := 230, 205;
      }
    }

    /** The retry loop. */
    method GetOrientation(obs: nat -> Observation, at: nat) returns (passes: nat, field: Field)
      requires ScalesMatch(View())
      modifies this
      ensures Outcome(View(), passes, field) == Orient(old(View()), obs, at)
    {
      passes, field := 0, Unset;
      var readingValid := false;
      while !readingValid
        invariant ScalesMatch(View())
        invariant !readingValid ==>
          var rest := Orient(View(), obs, at + passes);
          Orient(old(View()), obs, at) == Outcome(rest.sensor, passes + rest.passes, rest.field)
        invariant readingValid ==> Orient(old(View()), obs, at) == Outcome(View(), passes, Convert(View()))
        decreases !readingValid, 6 - magGain.Rank()
      {
        var o := obs(at + passes);
        passes := passes + 1;
        if o.NotReady? {
          return;
        }
        data := DataOf(o);
        if Saturated(data) {
          match magGain {
            case G5_6 => SetGain(G8_1);
            case G4_7 => SetGain(G5_6);
            case G4_0 => SetGain(G4_7);
            case G2_5 => SetGain(G4_0);
            case G1_9 => SetGain(G2_5);
            case G1_3 => SetGain(G1_9);
            case G8_1 => readingValid := true;
          }
        } else {
          readingValid := true;
        }
      }
      field := Convert(View());
    }
  }
}
