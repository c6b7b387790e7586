/** Widths of the machine integers the sources use. */
module Limits {
  const INT_MAX := 0x7fff_ffff
}
