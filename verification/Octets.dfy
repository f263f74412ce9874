module Octets {
  newtype byte = x: int | 0 <= x < 256

  const ESC: byte := 0x1b
}
