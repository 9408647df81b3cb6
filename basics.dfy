/** Results, the errors the chain engine can raise, and Python's negative-index slice. */
module Basics {

  /** The failures of the engine; each stands for an exception the source raises. */
  datatype Error =
    | StartNotOneChar        // `assert len(start) == 1` in the builder's constructor
    | EndNotOneChar          // `assert len(end) == 1`
    | SameSentinels          // `assert start != end`
    | NonPositiveSeqLen      // `assert seq_len > 0`, and the exception of get_char_sequences
    | StartInString          // `assert self.start not in string` in process_string
    | EndInString            // `assert self.end not in string`
    | EmptyString            // `string[0]` on an empty training string
    | NoTransitions          // compiling a state whose transition dict is empty
    | MissingState(key: string)  // `self.states[key]` with an absent key
    | EmptyChoice            // a random choice among no transitions
    | InvalidProbs           // a random choice whose probabilities are mis-sized, negative or not summing to 1
    | RetriesExhausted       // the retry budget that stands for the unbounded retry loop ran out

  datatype Result<T> = Ok(value: T) | Err(error: Error)

  /** A result without a value, for operations that return None or raise. */
  datatype Outcome = Pass | Fail(error: Error)

  function Min(a: int, b: int): int
  {
    if a <= b then a else b
  }

  /** Python's `s[-k:]`: the last k elements when k is positive, all of s when k is 0,
      and s without its first -k elements when k is negative. */
  function Tail<T>(s: seq<T>, k: int): (r: seq<T>)
    ensures |r| <= |s| && r == s[|s| - |r|..]
    ensures k > 0 ==> |r| == Min(k, |s|)
    ensures k == 0 ==> r == s
    ensures k < 0 ==> |r| == |s| - Min(-k, |s|)
  {
    if k > 0 then s[|s| - Min(k, |s|)..] else s[Min(-k, |s|)..]
  }
}
