/** What the source calls `Option`, and the byte type the wire formats are made of; and two facts the solver needs told. */
module Wrappers {
  datatype Option<+T> = None | Some(value: T)

  type byte = b: int | 0 <= b < 256

  lemma Reassociate<T>(a: seq<T>, b: seq<T>, c: seq<T>)
    ensures a + b + c == a + (b + c)
  {
  }

  lemma MulAtMost(a: nat, x: int, y: int)
    requires x <= y
    ensures a * x <= a * y
  {
  }
}
