/** Values and small functions shared by all modules. */
module Common {
  datatype Option<+T> = None | Some(value: T)

  datatype Result<+T> = Err | Ok(value: T)

  function Min(a: int, b: int): int {
    if a <= b then a else b
  }

  function Max(a: int, b: int): int {
    if a <= b then b else a
  }

  /** The results of message calls. */
  datatype SpciReturn = Success | InvalidParameters | NoMemory | Busy | Interrupted | Retry

  /** No element occurs twice. */
  ghost predicate Distinct<T>(s: seq<T>) {
    forall i, j | 0 <= i < j < |s| :: s[i] != s[j]
  }

  /** The sequence without its element number `k`. */
  function Without<T>(s: seq<T>, k: nat): seq<T>
    requires k < |s|
  {
    s[..k] + s[k + 1..]
  }
}
