/** Bytes as they travel on the serial line, and the two small wrapper types used throughout. */
module Bytes {
  type byte = bv8

  datatype Option<+T> = None | Some(value: T)

  datatype Result<+T, +E> = Ok(value: T) | Err(error: E)

  /** The byte holding a number; Python keeps such numbers in a list or a bytearray. */
  function ToByte(x: int): (b: byte)
    requires 0 <= x < 256
    ensures b as int == x
  {
    if x == 0 then 0 else ToByte(x - 1) + 1
  }

  lemma ByteIsItsNumber(b: byte)
    ensures ToByte(b as int) == b
  {
    hide ToByte;
    SameNumber(ToByte(b as int), b);
  }

  lemma SameNumber(a: byte, b: byte)
    requires a as int == b as int
    ensures a == b
  {
  }

  /** `r` with what was collected before it in front. */
  function After<T, E>(out: seq<T>, r: Result<seq<T>, E>): Result<seq<T>, E> {
    match r
    case Ok(more) => Ok(out + more)
    case Err(e) => Err(e)
  }

  lemma AfterNothing<T, E>(r: Result<seq<T>, E>)
    ensures After([], r) == r
  {
    if r.Ok? { assert [] + r.value == r.value; }
  }

  lemma AfterAfter<T, E>(a: seq<T>, b: seq<T>, r: Result<seq<T>, E>)
    ensures After(a, After(b, r)) == After(a + b, r)
  {
    if r.Ok? { assert a + (b + r.value) == (a + b) + r.value; }
  }
}
