/** Values shared by every component: optional results and raw payload bytes. */
module Common {

  /** Python's `Optional[T]`: `None` or a present value. */
  datatype Option<+T> = None | Some(value: T)

  /** One octet of a cached payload. */
  newtype byte = b: int | 0 <= b < 256

  /** A cached payload (the bytes of a PDF file). */
  type Bytes = seq<byte>

  function Max(a: int, b: int): int
  {
    if a < b then b else a
  }

  function Min(a: int, b: int): int
  {
    if a < b then a else b
  }

  /** `r` is `d` with some elements left out, the rest in their order. */
  predicate IsSubsequence<T(==)>(r: seq<T>, d: seq<T>)
    decreases |d|
  {
    r == [] || (d != [] && (IsSubsequence(r, d[1..]) || (r[0] == d[0] && IsSubsequence(r[1..], d[1..]))))
  }

  /** A non-empty sequence is its head followed by its tail. */
  lemma HeadTail<T>(s: seq<T>)
    requires s != []
    ensures [s[0]] + s[1..] == s
  {
  }
}
