/** The bit operations of `fs/bitmap.c`. A 32-bit word is written as its 32 bits, lowest first.
    The map blocks of a file system lie one behind the other in one array, 256 words and 8192 bits
    to a block, and bits are numbered through. */
module Bitmap {
  const BLOCK_BITS := 8192
  const BLOCK_WORDS := 256

  type Word32 = w: seq<bool> | |w| == 32 witness seq(32, _ => false)

  /** 0xFFFFFFFF */
  function Ones(): Word32
  {
    seq(32, _ => true)
  }

  /** Bit nr of a sequence of words; bits past the end read as 0. */
  predicate Bit(words: seq<Word32>, nr: nat)
  {
    nr / 32 < |words| && words[nr / 32][nr % 32]
  }

  /** The number of bit k of map block b. */
  function BitNumber(b: nat, k: nat): nat
  {
    b * BLOCK_BITS + k
  }

  /** set_bit: returns whether the bit was set before; no other bit changes. */
  method SetBit(bits: array<Word32>, nr: nat) returns (was: bool)
    requires nr / 32 < bits.Length
    modifies bits
    ensures was == old(Bit(bits[..], nr))
    ensures forall k: nat :: Bit(bits[..], k) <==> k == nr || old(Bit(bits[..], k))
  {
    was := bits[nr / 32][nr % 32];
    bits[nr / 32] := bits[nr / 32][nr % 32 := true];
  }

  /** clear_bit: returns whether the bit was clear before; no other bit changes. */
  method ClearBit(bits: array<Word32>, nr: nat) returns (wasClear: bool)
    requires nr / 32 < bits.Length
    modifies bits
    ensures wasClear == !old(Bit(bits[..], nr))
    ensures forall k: nat :: Bit(bits[..], k) <==> k != nr && old(Bit(bits[..], k))
  {
    wasClear := !bits[nr / 32][nr % 32];
    bits[nr / 32] := bits[nr / 32][nr % 32 := false];
  }

  /** The bit scan inside one word that is not full. */
  method FirstZeroInWord(w: Word32) returns (j: nat)
    requires w != Ones()
    ensures j < 32 && !w[j] && forall k | 0 <= k < j :: w[k]
  {
    j := 0;
    while j < 32
      invariant 0 <= j <= 32 && forall k | 0 <= k < j :: w[k]
    {
      if !w[j] { return; }
      j := j + 1;
    }
  }

  /** find_first_zero on map block b: the lowest clear bit, or 8192 when the block is full. */
  method FindFirstZero(bits: array<Word32>, b: nat) returns (nr: nat)
    requires (b + 1) * BLOCK_WORDS <= bits.Length
    ensures nr <= BLOCK_BITS
    ensures nr < BLOCK_BITS ==> !Bit(bits[..], BitNumber(b, nr))
    ensures forall k | 0 <= k < nr :: Bit(bits[..], BitNumber(b, k))
  {
    var i := 0;
    while i < BLOCK_WORDS
      invariant 0 <= i <= BLOCK_WORDS
      invariant forall k | 0 <= k < i * 32 :: Bit(bits[..], BitNumber(b, k))
    {
      var w := bits[b * BLOCK_WORDS + i];
      if w != Ones() {
        var j := FirstZeroInWord(w);
        return i * 32 + j;
      }
      i := i + 1;
    }
    nr := BLOCK_BITS;
  }
}
