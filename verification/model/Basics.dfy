/** Types that several models share. */
module Basics {

  datatype Option<+T> = None | Some(value: T) {
    predicate IsFailure() { None? }

    function PropagateFailure<U>(): Option<U>
      requires None?
    {
      None
    }

    function Extract(): T
      requires Some?
    {
      value
    }
  }

  type Byte = x: int | 0 <= x < 256

  type Word32 = x: int | 0 <= x < 0x1_0000_0000

  const INVALID_IMAGE_ID: Word32 := 0xFFFF_FFFF
}
