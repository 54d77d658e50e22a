/** Small shared datatypes used by several modules of the model. */
module Common {

  /** A value that may be missing: the model of `std::optional`, of a null
      pointer returned by a lookup and of a map `find` that hits `end()`. */
  datatype Option<T> = None | Some(value: T)

  /** The outcome of a parser that reports failure through a numbered error
      code, the way the WFCtile readers fill their `outErrCode` argument. */
  datatype Parsed<T> = Ok(value: T) | Failed(code: int)

  /** Sum of a sequence of naturals. */
  function Sum(s: seq<nat>): nat
  {
    if s == [] then 0 else s[0] + Sum(s[1..])
  }

  lemma {:induction false} SumAppend(a: seq<nat>, b: seq<nat>)
    ensures Sum(a + b) == Sum(a) + Sum(b)
  {
    if a == [] {
      assert a + b == b;
    } else {
      assert (a + b)[1..] == a[1..] + b;
      SumAppend(a[1..], b);
    }
  }
}
