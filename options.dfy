/** The optional value used wherever the source has `Optional`, `null` or `undefined`. */
module Options {
  datatype Option<T> = None | Some(value: T)
  {
    function GetOr(default: T): T
    {
      if Some? then value else default
    }
  }
}
