/** JavaScript strings: sequences of 16-bit code units. */
module CodeUnits {
  type Unit = bv16

  type Str = seq<Unit>

  const LF: Unit := 0x000A
  const CR: Unit := 0x000D
}
