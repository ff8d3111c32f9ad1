/** The optional value used where the dashboard code yields `undefined`,
    `NaN` or `null` instead of a value. */
module Options {
  datatype Option<+T> = None | Some(value: T)
  {
    function GetOr(default: T): T
    {
      match this
      case Some(v) => v
      case None => default
    }
  }
}
