/** Small shared vocabulary: an optional value and Go's `byte`. */
module Base {

  datatype Option<+T> = None | Some(value: T)

  /** Go's `byte` (an unsigned 8-bit integer). */
  type byte = x: int | 0 <= x < 0x100

  /** The position of the last occurrence of `x` in `s`. */
  function LastIndexOf<T(==)>(s: seq<T>, x: T): (i: nat)
    requires x in s
    ensures i < |s| && s[i] == x && x !in s[i + 1..]
    decreases |s|
  {
    if s[|s| - 1] == x then |s| - 1
    else
      assert s == s[..|s| - 1] + [s[|s| - 1]];
      LastIndexOf(s[..|s| - 1], x)
  }
}
