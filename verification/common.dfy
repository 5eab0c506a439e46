/** Small failure-carrying datatypes shared by every module of the model. */
module Common {

  /** A value that may be absent: Python's `None` versus an object. */
  datatype Option<+T> = None | Some(value: T)

  /** Why an operation stopped.
      `Impossible` is the one recoverable error the game catches (actions.py `Impossible`);
      `Fault` stands for any other Python exception (AttributeError, IndexError, the generator's
      bare `Exception`), which nothing in the core catches. */
  datatype Failure = Impossible(reason: string) | Fault(reason: string)

  datatype Result<+T> = Ok(value: T) | Err(failure: Failure)

  function Max(a: int, b: int): (r: int)
    ensures r >= a && r >= b && (r == a || r == b)
  {
    if a < b then b else a
  }

  function Min(a: int, b: int): (r: int)
    ensures r <= a && r <= b && (r == a || r == b)
  {
    if a < b then a else b
  }

  function Abs(n: int): (r: nat)
    ensures r == n || r == -n
  {
    if n < 0 then -n else n
  }

  /** A random draw `d` standing for `randint(lo, hi)`: every value of the range, both ends
      included, is the image of some draw. */
  function RandInt(lo: int, hi: int, d: nat): (r: int)
    requires lo <= hi
    ensures lo <= r <= hi
    ensures d < hi - lo + 1 ==> r == lo + d
  {
    lo + d % (hi - lo + 1)
  }
}
