/** The 16-bit frame check sequence of src/hdlc.rs, as the program computes it.

    The bit operations are named so that proofs about the register can `hide` what they
    do and use only their laws (module FcsLaws). */
module Fcs {
  import opened Bytes

  const INITIAL_FCS: bv16 := 0xffff
  const FCS_POLY: bv16 := 0x8408
  const GOOD_FCS: bv16 := 0xf0b8

  function Xor(a: bv16, b: bv16): bv16 { a ^ b }

  function Half(v: bv16): bv16 { v >> 1 }

  predicate Low(v: bv16) { v & 1 != 0 }

  function Wide(b: byte): bv16 { b as bv16 }

  /** One turn of the loop of `update_fcs`. */
  function Shift(fcs: bv16): bv16 {
    if Low(fcs) then Xor(Half(fcs), FCS_POLY) else Half(fcs)
  }

  function Shifts(fcs: bv16, n: nat): bv16
    decreases n
  {
    if n == 0 then fcs else Shifts(Shift(fcs), n - 1)
  }

  function Update(fcs: bv16, b: byte): bv16 {
    Shifts(Xor(fcs, Wide(b)), 8)
  }

  method UpdateFcs(start: bv16, b: byte) returns (fcs: bv16)
    ensures fcs == Update(start, b)
  {
    hide Xor, Half, Low, Wide;
    fcs := Xor(start, Wide(b));
    for i := 0 to 8
      invariant Shifts(fcs, 8 - i) == Update(start, b)
    {
      if Low(fcs) {
        fcs := Xor(Half(fcs), FCS_POLY);
      } else {
        fcs := Half(fcs);
      }
    }
  }

  /** The register after folding `data` into it. */
  function Register(fcs: bv16, data: bytes): bv16
    decreases |data|
  {
    if data == [] then fcs else Register(Update(fcs, data[0]), data[1..])
  }

  function FrameFcs(payload: bytes): bv16 {
    !Register(INITIAL_FCS, payload)
  }

  /** `u16::to_le_bytes`. */
  function Le16(v: bv16): (s: bytes)
    ensures |s| == 2
  {
    [(v & 0xff) as byte, (v >> 8) as byte]
  }

  /** `u16::from_le_bytes`. */
  function FromLe16(lo: byte, hi: byte): bv16 {
    (lo as bv16) | ((hi as bv16) << 8)
  }

  lemma Le16RoundTrip(v: bv16)
    ensures FromLe16((v & 0xff) as byte, (v >> 8) as byte) == v
  {
  }

  lemma FromLe16RoundTrip(lo: byte, hi: byte)
    ensures Le16(FromLe16(lo, hi)) == [lo, hi]
  {
  }

  /** Whether unstuffed frame contents end in the FCS of what comes before it. */
  predicate Accepts(content: bytes) {
    |content| >= 2 &&
    FrameFcs(content[..|content| - 2])
      == FromLe16(content[|content| - 2], content[|content| - 1])
  }
}
