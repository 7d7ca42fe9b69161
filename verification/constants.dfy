/** Compile-time constant values attached by the binder to literals and to
    parameter defaults. */
module ConstantValues {

  /** The 32-bit signed integer of the target runtime. */
  newtype int32 = x: int | -0x8000_0000 <= x < 0x8000_0000

  /** The value carried by a constant: `null`, a 32-bit integer, or any other
      kind (string, double, bool, long, ...), which the emitter does not
      distinguish further. */
  datatype Constant = NullValue | IntValue(value: int32) | OtherValue
}
