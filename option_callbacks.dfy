/** What the `OnFound` callbacks of the option tables share: reading their first argument
    and turning a number of days into a `TimeSpan`. */
module OptionCallbacks {
  import opened Wrappers
  import opened Failures

  /** `args[0]`, which throws on an empty array. */
  function FirstArg(args: seq<string>): (r: Result<string, Error>)
    ensures r.Success? <==> |args| > 0
    ensures r.Success? ==> r.value == args[0]
  {
    if |args| == 0 then Failure(OtherError("IndexOutOfRangeException")) else Success(args[0])
  }

  /** A `TimeSpan` is a signed 64-bit count of 100-nanosecond ticks. */
  const TicksPerDay: int := 864_000_000_000
  const LongMinValue: int := -0x8000_0000_0000_0000
  const LongMaxValue: int := 0x7FFF_FFFF_FFFF_FFFF

  /** The largest whole number of days `TimeSpan.MaxValue` holds. */
  const MaxTimeSpanDays: int := 10_675_199

  /** `TimeSpan.FromDays` on a whole number of days: the days, when their ticks fit in a
      long, and the overflow exception otherwise. */
  function FromDays(days: int): (r: Result<int, Error>)
    ensures r.Success? <==> LongMinValue <= days * TicksPerDay <= LongMaxValue
    ensures r.Success? ==> r.value == days
    ensures r.Failure? ==> r.error == OtherError("OverflowException")
  {
    if -MaxTimeSpanDays <= days <= MaxTimeSpanDays then Success(days)
    else Failure(OtherError("OverflowException"))
  }
}
