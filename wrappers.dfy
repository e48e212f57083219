/** Option, used for the null (NaN / missing) cells of the model's arrays. */
module Wrappers {

  datatype Option<+T> = None | Some(value: T) {

    /** The value, or `default` for a null cell (xarray's `fillna(default)`). */
    function GetOr(default: T): T
    {
      match this
      case Some(v) => v
      case None => default
    }
  }
}
