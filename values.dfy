/**
 * The Ruby values the transformer walks over, and the way its one failure
 * propagates.
 */
module RubyValues {
  import opened RubyHash

  /** Any value that is neither text, an Array nor a Hash. */
  datatype Atom = Nil | Bool(b: bool) | Int(i: int) | Object(id: nat)

  /** A Hash key: a String, a Symbol, or anything else. */
  datatype Key = StrKey(s: string) | SymKey(name: string) | AtomKey(a: Atom)

  /** A Ruby value; a Hash is its entries in insertion order. */
  datatype Value =
    | Str(s: string)
    | Sym(name: string)
    | Scalar(a: Atom)
    | Arr(items: seq<Value>)
    | Hsh(entries: seq<(Key, Value)>)

  /** Ruby truthiness of `h[k]`: nil (also a missing key) and false are false. */
  predicate Truthy(r: Option<Value>)
  {
    r.Some? && r.value != Scalar(Nil) && r.value != Scalar(Bool(false))
  }

  /**
   * The only failure: with `first_upper` off, an empty key has no first
   * character and no rest, and `nil + nil` raises NoMethodError.
   */
  datatype Error = NoMethodError

  datatype Result<T> = Ok(value: T) | Err(error: Error)

  /**
   * Evaluates a list of computations left to right: the first failure
   * propagates, as a raised exception does out of `map`.
   */
  function Collect<T>(rs: seq<Result<T>>): (r: Result<seq<T>>)
    ensures r.Ok? <==> forall i :: 0 <= i < |rs| ==> rs[i].Ok?
    ensures r.Ok? ==> |r.value| == |rs| && forall i :: 0 <= i < |rs| ==> rs[i] == Ok(r.value[i])
  {
    if rs == [] then Ok([])
    else if rs[0].Err? then Err(rs[0].error)
    else
      match Collect(rs[1..])
      case Err(e) => Err(e)
      case Ok(xs) => Ok([rs[0].value] + xs)
  }
}
