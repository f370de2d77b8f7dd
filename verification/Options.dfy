/** The single-valued options. */
module Options {
  import opened CText
  import opened StateText

  /** A number that fills its option (blanks may follow) and lies in the range; 0 if not. */
  function InRange(v: string, low: int, high: int): (n: int)
    ensures n == 0 || low <= n <= high
  {
    var r := Strtoul(v);
    var n := ToInt32(r.value);
    if r.erange || r.end == 0 || (r.end < |v| && !In(v[r.end], White)) || n < low || n > high then 0 else n
  }

  /** step_size: seconds per time step; 0 for an option that is not valid. */
  function StepSize(t: string): (n: int)
    ensures 0 <= n <= 60
  {
    match GetCfgValue(t, "STEP_SIZE") case None => 30 case Some(v) => InRange(v, 1, 60)
  }

  /** window_size. */
  function WindowSize(t: string): (n: int)
    ensures 0 <= n <= 100
  {
    match GetCfgValue(t, "WINDOW_SIZE") case None => 3 case Some(v) => InRange(v, 1, 100)
  }

  /** get_timestamp: the server's time step, 0 when there is none. */
  function TimeStep(t: string, now: nat): int
  {
    if StepSize(t) == 0 then 0 else ToInt32(now / StepSize(t))
  }

  /** get_hotp_counter. */
  function HotpCounter(t: string): int
  {
    match GetCfgValue(t, "HOTP_COUNTER") case None => 0 case Some(v) => Strtol(v).value
  }

  /** The TIME_SKEW option as check_timebased_code reads it. */
  function TimeSkew(t: string): int
  {
    match GetCfgValue(t, "TIME_SKEW") case None => 0 case Some(v) => ToInt32(Strtol(v).value)
  }

  /** is_totp: the text occurs somewhere in the file. */
  predicate IsTotp(t: string) { Contains(t, "\" TOTP_AUTH") }
}
