/** The optional value used wherever the source has `undefined`/`null` or a lookup that can miss. */
module Wrappers {

  datatype Option<T> = None | Some(value: T)
  {
    /** The value, or `default` when there is none (`x ?? default`). */
    function GetOr(default: T): T
    {
      if Some? then value else default
    }
  }

}
