/** An optional value, the model of Swift's `T?`. */
module Options {

  datatype Option<+T> = None | Some(value: T) {

    /** `map` on an optional: applies `f` to a present value. */
    function Map<U>(f: T -> U): (r: Option<U>)
      ensures r.Some? <==> this.Some?
      ensures r.Some? ==> r.value == f(this.value)
    {
      match this
      case None => None
      case Some(v) => Some(f(v))
    }

    /** `?? default`: the present value, or `default` when absent. */
    function GetOr(default: T): (r: T)
      ensures this.Some? ==> r == this.value
      ensures this.None? ==> r == default
    {
      match this
      case None => default
      case Some(v) => v
    }
  }
}
