/** The survival clock. */
module Time {
  import Storage

  class TimeSystem {
    var totalTime: real   // seconds survived

    constructor ()
      ensures totalTime == 0.0
    {
      totalTime := 0.0;
    }

    method Update(dt: real)
      modifies this
      ensures totalTime == old(totalTime) + dt
      ensures dt >= 0.0 ==> totalTime >= old(totalTime)
    {
      totalTime := totalTime + dt;
    }

    /** The day/night switch is fixed: it is always day. */
    function IsNight(): (night: bool)
      reads this
      ensures !night
    {
      false
    }

    /** The clock as `mm:ss`, spelled out the same way as the shared
      * formatter; for a non-negative clock the two fields read back as the
      * whole seconds survived. */
    function FormattedTime(): (r: string)
      reads this
      ensures r == Storage.FormatTime(totalTime)
      ensures totalTime >= 0.0 ==> Storage.ReadsBackAs(r, totalTime.Floor)
    {
      if totalTime >= 0.0 then Storage.FormatTimeReadBack(totalTime); FormatClock(totalTime)
      else FormatClock(totalTime)
    }
  }

  /** The getter's own copy of the formatting code, which agrees with the
    * shared formatter on every input. */
  function FormatClock(t: real): (text: string)
    ensures text == Storage.FormatTime(t)
  {
    var minutes := (t / 60.0).Floor;
    var seconds := Storage.JsRem(t, 60.0).Floor;
    Storage.PadStart2(Storage.IntToString(minutes)) + ":" + Storage.PadStart2(Storage.IntToString(seconds))
  }
}
