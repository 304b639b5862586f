/** Software parity for the MAX3140: the chip sends and receives the parity
    bit in bit 8 (Pt) of a data word, and the driver computes it over the
    seven or eight data bits of the character. */
module Parity {
  import opened Words

  /** The driver's parity setting: parity bit on, odd rather than even, and
      seven rather than eight data bits. */
  datatype ParityMode = ParityMode(on: bool, odd: bool, sevenBit: bool)

  const NoParity := ParityMode(false, false, false)

  /** The data bits of a character under `p`. */
  function DataMask(p: ParityMode): Word
  {
    if p.sevenBit then 0x7F else 0xFF
  }

  function Bit(c: Word, i: Word): nat
    requires i < 16
  {
    if c & (1 << i) != 0 then 1 else 0
  }

  /** Number of one bits among the lowest `n` bits of `c`. */
  function Weight(c: Word, n: Word): nat
    requires n <= 16
  {
    if n == 0 then 0 else Weight(c, n - 1) + Bit(c, n - 1)
  }

  /** Number of one bits in the low byte of `c`. */
  function Weight8(c: Word): nat
  {
    Weight(c, 8)
  }

  /** The parity bit for the character in `c`: it makes the number of one
      bits among the data bits and the parity bit even, or odd for odd
      parity. */
  function DoParity(p: ParityMode, c: Word): (bit: Word)
    ensures bit <= 1
    ensures (Weight8(c & DataMask(p)) + OneBit(bit)) % 2 == (if p.odd then 1 else 0)
  {
    if (Weight8(c & DataMask(p)) % 2 == 1) != p.odd then 1 else 0
  }

  /** A one-bit word as a number. */
  function OneBit(b: Word): nat
  {
    if b == 0 then 0 else 1
  }

  /** Parity bit found in bit 8 of a received word. */
  function ReceivedParity(c: Word): Word
  {
    (c >> 8) & 1
  }

  /** Whether the parity bit in bit 8 of `c` is the right one for its data
      bits. */
  function CheckParity(p: ParityMode, c: Word): (ok: bool)
    ensures ok <==> (Weight8(c & DataMask(p)) + OneBit(ReceivedParity(c))) % 2 == (if p.odd then 1 else 0)
  {
    ParityBitAgrees(Weight8(c & DataMask(p)), DoParity(p, c), ReceivedParity(c), if p.odd then 1 else 0);
    DoParity(p, c) == ReceivedParity(c)
  }

  /** A parity bit is the right one exactly when it equals the right one. */
  lemma ParityBitAgrees(weight: nat, d: Word, r: Word, k: int)
    requires d <= 1 && (weight + OneBit(d)) % 2 == k
    ensures r & 1 == r ==> ((d == r) <==> (weight + OneBit(r)) % 2 == k)
  {
  }

  /** The character of `c` cut to the data bits, with its parity bit in
      bit 8 when parity is on. */
  function CalcParity(p: ParityMode, c: Word): (w: Word)
    ensures w & DataMask(p) == c & DataMask(p)
    ensures w & !(DataMask(p) | PT) == 0
    ensures !p.on ==> w & PT == 0
  {
    var m := c & DataMask(p);
    MaskFields(c, DataMask(p));
    if p.on then
      FramedFields(m, DoParity(p, m), DataMask(p));
      m | (DoParity(p, m) << 8)
    else m
  }

  lemma MaskFields(c: Word, mask: Word)
    requires mask == 0x7F || mask == 0xFF
    ensures (c & mask) & mask == c & mask
    ensures (c & mask) & !(mask | PT) == 0 && (c & mask) & PT == 0
  {
  }

  /** Bits outside the data bits, bit 8 among them, never change the
      parity computed for a character. */
  lemma ParityIgnoresUpperBits(p: ParityMode, c: Word, d: Word)
    requires c & DataMask(p) == d & DataMask(p)
    ensures DoParity(p, c) == DoParity(p, d)
  {
  }

  /** A character framed with parity on passes the parity check, for both
      word lengths and both parity senses. */
  lemma ParityRoundTrip(p: ParityMode, c: Word)
    requires p.on
    ensures CheckParity(p, CalcParity(p, c))
  {
    FramedCharacter(p, c);
    ParityIgnoresUpperBits(p, CalcParity(p, c), c & DataMask(p));
  }

  /** With parity on, bit 8 of the framed character is the parity bit
      computed over its data bits. */
  lemma FramedCharacter(p: ParityMode, c: Word)
    requires p.on
    ensures ReceivedParity(CalcParity(p, c)) == DoParity(p, c & DataMask(p))
  {
    FramedParity(c & DataMask(p), DoParity(p, c & DataMask(p)), DataMask(p));
  }

  lemma FramedFields(m: Word, b: Word, mask: Word)
    requires mask == 0x7F || mask == 0xFF
    requires m & mask == m && b <= 1
    ensures (m | (b << 8)) & mask == m
    ensures ((m | (b << 8)) >> 8) & 1 == b
    ensures (m | (b << 8)) & !(mask | PT) == 0
  {
    if b == 0 {
      assert m | (b << 8) == m;
      assert m <= 0xFF;
    } else {
      assert b << 8 == 0x100;
    }
  }

  lemma FramedParity(m: Word, b: Word, mask: Word)
    requires mask == 0x7F || mask == 0xFF
    ensures b <= 1 ==> ReceivedParity((m & mask) | (b << 8)) == b
  {
    if b <= 1 {
      MaskFields(m, mask);
      FramedFields(m & mask, b, mask);
    }
  }

  /** Flipping a data bit of a framed character makes the parity check
      fail: a single-bit error on the line is detected. */
  lemma ParityDetectsSingleBitError(p: ParityMode, c: Word, i: Word)
    requires p.on && i < (if p.sevenBit then 7 else 8)
    ensures !CheckParity(p, CalcParity(p, c) ^ (1 << i))
  {
    ParityRoundTrip(p, c);
    FlipBreaksCheck(p, CalcParity(p, c), i);
  }

  lemma FlipBreaksCheck(p: ParityMode, w: Word, i: Word)
    requires CheckParity(p, w) && i < (if p.sevenBit then 7 else 8)
    ensures !CheckParity(p, w ^ (1 << i))
  {
    FlipFacts(DataMask(p), w, i);
    WeightChangeBreaksCheck(p, w, w ^ (1 << i));
  }

  /** A word whose data weight has the other parity but the same parity bit
      fails the check that `w` passes. */
  lemma WeightChangeBreaksCheck(p: ParityMode, w: Word, e: Word)
    requires CheckParity(p, w)
    requires Weight8(e & DataMask(p)) % 2 != Weight8(w & DataMask(p)) % 2
    requires ReceivedParity(e) == ReceivedParity(w)
    ensures !CheckParity(p, e)
  {
    assert DoParity(p, e) != DoParity(p, w);
  }

  lemma FlipFacts(mask: Word, w: Word, i: Word)
    requires mask == 0x7F || mask == 0xFF
    requires i < (if mask == 0x7F then 7 else 8)
    ensures Weight8((w ^ (1 << i)) & mask) % 2 != Weight8(w & mask) % 2
    ensures ReceivedParity(w ^ (1 << i)) == ReceivedParity(w)
  {
    FlipInsideMask(w, i, mask);
    FlipChangesWeight(w & mask, i);
  }

  lemma FlipInsideMask(w: Word, i: Word, mask: Word)
    requires mask == 0x7F || mask == 0xFF
    requires i < (if mask == 0x7F then 7 else 8)
    ensures (w ^ (1 << i)) & mask == (w & mask) ^ (1 << i)
    ensures ReceivedParity(w ^ (1 << i)) == ReceivedParity(w)
  {
  }

  lemma FlipBit(x: Word, i: Word, j: Word)
    requires i < 16 && j < 16
    ensures Bit(x ^ (1 << i), j) == if i == j then 1 - Bit(x, j) else Bit(x, j)
  {
  }

  /** Flipping one of the lowest `n` bits changes their weight by one;
      flipping a higher bit leaves it alone. */
  lemma {:induction false} FlipChangesWeightBelow(x: Word, i: Word, n: Word)
    requires i < 16 && n <= 16
    ensures Weight(x ^ (1 << i), n) == Weight(x, n) + (if i >= n then 0 else 1 - 2 * Bit(x, i))
  {
    if n > 0 {
      FlipChangesWeightBelow(x, i, n - 1);
      FlipBit(x, i, n - 1);
    }
  }

  lemma FlipChangesWeight(x: Word, i: Word)
    requires i < 8
    ensures Weight8(x ^ (1 << i)) % 2 != Weight8(x) % 2
  {
    FlipChangesWeightBelow(x, i, 8);
  }
}
