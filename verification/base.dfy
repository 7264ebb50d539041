/** Small shared vocabulary: an optional value, the C integer limits the
    source relies on, and the character classes it tests. */
module Base {

  /** An optional value; `None` stands for a NULL pointer or a missing result. */
  datatype Option<+T> = None | Some(value: T)

  /** `INT_MAX` of a 32-bit `int`. */
  const IntMax: int := 0x7fff_ffff

  /** `LONG_MAX` and `LONG_MIN` of a 64-bit `long`, the range of `strtol`. */
  const LongMax: int := 0x7fff_ffff_ffff_ffff
  const LongMin: int := -0x8000_0000_0000_0000

  /** The terminating NUL of a C string. */
  const Nul: char := 0 as char

  /** `isblank` in the C locale. */
  predicate IsBlank(c: char) {
    c == ' ' || c == '\t'
  }

  /** `isspace` in the C locale. */
  predicate IsSpace(c: char) {
    c == ' ' || c == '\t' || c == '\n' || c == 11 as char || c == 12 as char || c == '\r'
  }

  predicate IsDigit(c: char) {
    '0' <= c <= '9'
  }
}
