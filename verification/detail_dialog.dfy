/** The gauges of the server detail dialog. */
module DetailDialog {

  datatype GaugeColor = Red | Amber | Emerald

  /** The colour constant each gauge colour uses. */
  function Hex(c: GaugeColor): string {
    match c
    case Red => "#EF4444"
    case Amber => "#F59E0B"
    case Emerald => "#10B981"
  }

  /** `getProgressColor`. */
  function ProgressColor(v: real): (r: GaugeColor)
    ensures r == Red <==> v >= 80.0
    ensures r == Amber <==> 60.0 <= v < 80.0
    ensures r == Emerald <==> v < 60.0
  {
    if v >= 80.0 then Red else if v >= 60.0 then Amber else Emerald
  }

  /** Severity rank of a colour. */
  function Rank(c: GaugeColor): nat {
    match c
    case Emerald => 0
    case Amber => 1
    case Red => 2
  }

  /** A higher reading never shows a milder colour. */
  lemma ProgressColorMonotone(v: real, w: real)
    requires v <= w
    ensures Rank(ProgressColor(v)) <= Rank(ProgressColor(w))
  {
  }

  datatype Gauge = Gauge(value: real, color: GaugeColor)

  /** The RAM gauge: the reading (GB) is scaled by ten for both the arc and its colour. */
  function RamGauge(ram: real): (g: Gauge)
    ensures g.value == ram * 10.0
    ensures g.color == Red <==> ram >= 8.0
    ensures g.color == Amber <==> 6.0 <= ram < 8.0
    ensures g.color == Emerald <==> ram < 6.0
  {
    Gauge(ram * 10.0, ProgressColor(ram * 10.0))
  }

  /** The CPU and disk gauges use the reading as is, coloured by the three bands. */
  function PercentGauge(percent: real): (g: Gauge)
    ensures g.value == percent
    ensures g.color == Red <==> percent >= 80.0
    ensures g.color == Amber <==> 60.0 <= percent < 80.0
    ensures g.color == Emerald <==> percent < 60.0
  {
    Gauge(percent, ProgressColor(percent))
  }
}
