/** The window selector of the dashboard: the `TimeRange` enum, whose members
    are numbered by their length in days. */
module TimeRanges {

  datatype TimeRange = Day1 | Days3 | Days7 | Days10 | Days30
  {
    /** The enum member's numeric value: the window length in days. */
    function Days(): (d: int)
    {
      match this
      case Day1 => 1
      case Days3 => 3
      case Days7 => 7
      case Days10 => 10
      case Days30 => 30
    }
  }
}
