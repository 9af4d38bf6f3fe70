/** `getChartXAxisConfig`: the tick interval, label angle and date format
    of the X axis for each window. */
module AxisConfig {
  import opened TimeRanges

  datatype XAxisConfig = XAxisConfig(interval: int, angle: int, format: string)

  /** One-day windows label hours, longer ones label days; ticks are taken
      every 60 points for a day, every 2 for three days, every point for
      seven and ten days and every 5 for thirty; labels are never tilted. */
  function ChartXAxisConfig(range: TimeRange): (c: XAxisConfig)
    ensures c.angle == 0 && c.interval >= 1
    ensures c.format == "HH:mm" <==> range == Day1
    ensures c.format == "MM/DD" <==> range != Day1
  {
    match range
    case Day1 => XAxisConfig(60, 0, "HH:mm")
    case Days3 => XAxisConfig(2, 0, "MM/DD")
    case Days7 | Days10 => XAxisConfig(1, 0, "MM/DD")
    case Days30 => XAxisConfig(5, 0, "MM/DD")
  }
}
