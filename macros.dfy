/** The helper macros of src/lib.rs: `has_flag!`, `LOWORD!`, `HIWORD!` and
    `to_wide_arr!` (`any!` is `Registry.Any`). */
module Macros {

  /** `has_flag!(value, flag)`: `value & flag != 0`. */
  function HasFlag(value: bv32, flag: bv32): (r: bool)
    ensures flag == 0 ==> !r
    ensures r ==> value != 0
    ensures value & flag == 0 ==> !r
    ensures flag != 0 && value & flag == flag ==> r
  {
    value & flag != 0
  }

  /** `LOWORD!(w)`: `w & 0x7FFF`. The mask has 15 bits, so bit 15 of the
      low word is dropped: the result is the value modulo 0x8000. */
  function LoWord(w: bv32): (r: bv32)
    ensures r < 0x8000
    ensures r == w % 0x8000
  {
    w & 0x7FFF
  }

  /** `HIWORD!(w)`: `(w >> 16) & 0x7FFF`, again a 15-bit mask. */
  function HiWord(w: bv32): (r: bv32)
    ensures r < 0x8000
    ensures r == (w / 0x1_0000) % 0x8000
  {
    (w >> 16) & 0x7FFF
  }

  /** Both masks lose the top bit of their half-word. */
  lemma MasksDropBit15()
    ensures LoWord(0x8000) == 0 && LoWord(0xFFFF) == 0x7FFF
    ensures HiWord(0x8000_0000) == 0 && HiWord(0xFFFF_0000) == 0x7FFF
  {
  }

  /** A UTF-16 code unit. */
  newtype uint16 = x: int | 0 <= x < 0x1_0000

  /** The length of the wide buffer (`MAX_PATH`). */
  const WIDE_LEN: nat := 260

  /** `ch as u16`: a `char` is truncated to its low 16 bits. */
  function WideChar(c: char): uint16
  {
    ((c as int) % 0x1_0000) as uint16
  }

  /** The buffer `to_wide_arr!(s)` produces: the first 260 characters of `s`,
      each cast to `u16`, then zeroes. */
  function Wide(s: string): (w: seq<uint16>)
    ensures |w| == WIDE_LEN
  {
    seq(WIDE_LEN, i requires 0 <= i < WIDE_LEN => if i < |s| then WideChar(s[i]) else 0)
  }

  /** `to_wide_arr!(s)`: fill a zeroed `[u16; 260]` from `s.chars().take(260)`. */
  method ToWideArr(s: string) returns (result: array<uint16>)
    ensures result.Length == WIDE_LEN
    ensures result[..] == Wide(s)
  {
    result := new uint16[WIDE_LEN](_ => 0);
    var i := 0;
    while i < |s| && i < WIDE_LEN
      invariant 0 <= i <= WIDE_LEN && i <= |s|
      invariant forall k :: 0 <= k < i ==> result[k] == WideChar(s[k])
      invariant forall k :: i <= k < WIDE_LEN ==> result[k] == 0
    {
      result[i] := WideChar(s[i]);
      i := i + 1;
    }
  }

  /** Characters past the 260th are ignored, and entries past the end of a
      shorter string are zero. */
  lemma WideTruncates(s: string)
    ensures |s| > WIDE_LEN ==> Wide(s) == Wide(s[..WIDE_LEN])
    ensures forall i :: |s| <= i < WIDE_LEN ==> Wide(s)[i] == 0
    ensures forall i :: 0 <= i < |s| && i < WIDE_LEN ==> Wide(s)[i] as int == s[i] as int % 0x1_0000
  {
  }
}
