/** Types that several parts of the project share. */
module Common {

  datatype Option<T> = None | Some(value: T)

  type byte = x: int | 0 <= x < 0x100

  /** Two bytes of `s`, the low one first. */
  function Le16(s: seq<byte>, i: nat): nat
    requires i + 2 <= |s|
  {
    (s[i] as int) + 0x100 * (s[i + 1] as int)
  }
}
