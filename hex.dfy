/** The `hex` helper: one nibble to one upper-case hexadecimal digit. */
module HexDigit {
  import opened Records

  predicate IsHexDigit(c: char)
  {
    '0' <= c <= '9' || 'A' <= c <= 'F'
  }

  /** The value of an upper-case hexadecimal digit. */
  function HexValue(c: char): (v: Byte)
    requires IsHexDigit(c)
    ensures v < 16
  {
    if c <= '9' then c as int - '0' as int else c as int - 'A' as int + 10
  }

  /** `hex(v)`: adds '0' to values below ten and 'A' - 10 to the others. The
      sum is truncated to the 8-bit `char` it is returned in; only nibbles
      are ever passed, and for those the result is the digit of `v`. */
  function Hex(v: Byte): (c: char)
    ensures v < 10 ==> c as int == '0' as int + v
    ensures 10 <= v < 16 ==> c as int == 'A' as int + (v - 10)
    ensures v < 16 ==> IsHexDigit(c) && HexValue(c) == v
  {
    ((v + if v < 10 then '0' as int else 'A' as int - 10) % 256) as char
  }

  /** Every upper-case digit is produced by `hex`, from its own value. */
  lemma HexOfValue(c: char)
    requires IsHexDigit(c)
    ensures Hex(HexValue(c)) == c
  {
  }
}
