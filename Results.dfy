/** The failures the alignment parsers can run into, and a result type that carries them.

    The parsers are written in Python and signal malformed input by raising: a failed
    `assert`, an `IndexError` from indexing past the end of a list or string, a
    `ValueError` from `int()` on text that is not a number, and a `ValueError` or
    `TypeError` from unpacking a value into the wrong number of names. Each becomes
    an `Err` here, so that the error paths are part of the model. */
module Results {

  datatype Error =
    | AssertionFailed(check: string)  // an `assert` of the source did not hold; `check` names it
    | IndexOutOfRange                 // IndexError
    | NotAnInteger                    // ValueError raised by int()
    | WrongArity                      // unpacking None, or a list of the wrong length

  datatype Result<+T> = Ok(value: T) | Err(error: Error) {

    predicate IsFailure() {
      Err?
    }

    function PropagateFailure<U>(): Result<U>
      requires Err?
    {
      Err(error)
    }

    function Extract(): T
      requires Ok?
    {
      value
    }
  }

  /** A Python value that may still be `None`. */
  datatype Option<T> = None | Some(value: T)

  /** `xs[i]` for a Python list or string and a non-negative index `i`. */
  function At<T>(xs: seq<T>, i: nat): (r: Result<T>)
    ensures r.Ok? <==> i < |xs|
    ensures r.Ok? ==> r.value == xs[i]
    ensures r.Err? ==> r.error == IndexOutOfRange
  {
    if i < |xs| then Ok(xs[i]) else Err(IndexOutOfRange)
  }

  lemma AppendAssoc<T>(a: seq<T>, b: seq<T>, c: seq<T>)
    ensures a + (b + c) == (a + b) + c
  {
  }

  lemma ConcatFour<T>(a: seq<T>, b: seq<T>, c: seq<T>, d: seq<T>)
    ensures a + b + c + d == a + (b + c + d)
  {
  }

  lemma ConsTwo<T>(x: T, y: T, xs: seq<T>)
    ensures [x] + ([y] + xs) == [x, y] + xs
  {
  }

  lemma AppendNil<T>(a: seq<T>)
    ensures a + [] == a
  {
  }

  lemma NilAppend<T>(a: seq<T>)
    ensures [] + a == a
  {
  }

  lemma TakeSnoc<T>(s: seq<T>, j: nat)
    requires 0 < j <= |s|
    ensures s[..j] == s[..j - 1] + [s[j - 1]]
  {
  }
}
