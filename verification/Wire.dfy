/** Bytes, fixed-width unsigned arithmetic and optional values shared by the models. */
module Wire {
  type byte = b: int | 0 <= b < 256

  /** std::uint64_t and std::uint32_t as ranges of integers; wrap-around is written out. */
  const TWO_64: int := 0x1_0000_0000_0000_0000
  const TWO_32: int := 0x1_0000_0000
  type u64 = n: int | 0 <= n < TWO_64
  type u32 = n: int | 0 <= n < TWO_32

  datatype Option<+T> = None | Some(value: T)

  /** Unsigned subtraction and addition of C++: the result is taken modulo the width. */
  function Sub64(a: u64, b: u64): u64 {
    if a >= b then a - b else a - b + TWO_64
  }

  function Add64(a: u64, b: u64): u64 {
    if a + b < TWO_64 then a + b else a + b - TWO_64
  }

  function Sub32(a: u32, b: u32): u32 {
    if a >= b then a - b else a - b + TWO_32
  }

  function Min(a: int, b: int): int {
    if a <= b then a else b
  }

  function Max(a: int, b: int): int {
    if a <= b then b else a
  }

  /** All elements of a sequence of sequences, in order. */
  function Concat<T>(parts: seq<seq<T>>): seq<T> {
    if parts == [] then [] else Concat(parts[..|parts| - 1]) + parts[|parts| - 1]
  }

  lemma ConcatSnoc<T>(parts: seq<seq<T>>, last: seq<T>)
    ensures Concat(parts + [last]) == Concat(parts) + last
  {
    assert (parts + [last])[..|parts|] == parts;
  }
}
