/** Optional values, standing for the source's `T | null` and `T | undefined`. */
module Options {

  datatype Option<+T> = None | Some(value: T) {

    /** The value, or `default` when absent (the source's `x || default` on arrays). */
    function GetOr(default: T): T {
      match this
      case Some(v) => v
      case None => default
    }
  }

  /**
   * The source's `option || fallback` on a numeric option: an absent option
   * and an option holding 0 are both falsy and give the fallback.
   */
  function OrDefault(option: Option<nat>, fallback: nat): (r: nat)
    ensures option.Some? && option.value != 0 ==> r == option.value
    ensures option.None? || option.value == 0 ==> r == fallback
    ensures fallback >= 1 ==> r >= 1
  {
    if option.Some? && option.value != 0 then option.value else fallback
  }
}
