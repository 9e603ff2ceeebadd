/** Bits of machine words, as numbers. */
module Bits {
  import opened Arithmetic

  predicate WholePages(n: int) { n % 4096 == 0 }

  /** The address of a page keeps its value under the page mask. */
  lemma PageBits(address: bv32)
    requires WholePages(address as int)
    ensures address & 0xfff == 0 && address & 0xffff_f000 == address
  {
    BackAgain(address);
    hide WholePages;
    WordBits(address, address as int);
  }

  lemma ByteBackAgain(b: bv8)
    ensures (b as int) as bv8 == b
  {
  }

  lemma BackAgain(word: bv32)
    ensures (word as int) as bv32 == word
  {
  }

  lemma WordBits(word: bv32, n: nat)
    requires n < 0x1_0000_0000 && word == n as bv32 && WholePages(n)
    ensures word & 0xfff == 0 && word & 0xffff_f000 == word
  {
    var k := n / 4096;
    assert n == 4096 * k;
    hide WholePages;
    Weight(n, 1, 2048 * k);
    Weight(n, 2, 1024 * k);
    Weight(n, 4, 512 * k);
    Weight(n, 8, 256 * k);
    Weight(n, 16, 128 * k);
    Weight(n, 32, 64 * k);
    Weight(n, 64, 32 * k);
    Weight(n, 128, 16 * k);
    Weight(n, 256, 8 * k);
    Weight(n, 512, 4 * k);
    Weight(n, 1024, 2 * k);
    Weight(n, 2048, k);
    WeightsEven(n);
  }

  lemma Weight(n: nat, w: nat, k: nat)
    requires w > 0 && n == w * (2 * k)
    ensures n / w % 2 == 0
  {
    QuotientIs(w, 2 * k, 0);
  }

  /** The twelve bits below a page's are clear when their weights go into the rest evenly. */
  lemma WeightsEven(n: nat)
    requires n < 0x1_0000_0000
    requires n / 1 % 2 == 0 && n / 2 % 2 == 0 && n / 4 % 2 == 0 && n / 8 % 2 == 0 && n / 16 % 2 == 0 && n / 32 % 2 == 0
    requires n / 64 % 2 == 0 && n / 128 % 2 == 0 && n / 256 % 2 == 0
    requires n / 512 % 2 == 0 && n / 1024 % 2 == 0 && n / 2048 % 2 == 0
    ensures (n as bv32) & 0xfff == 0
  {
  }

  /** What flags or-ed to a page's address leave of both. */
  lemma FlagBits(address: bv32, flags: bv32, more: bv32)
    requires address & 0xfff == 0 && flags & 0xffff_f000 == 0 && more & 0xffff_f000 == 0
    ensures var e := address | (flags | more); e & 0xfff == flags | more && e & 0xffff_f000 == address
  {
  }

  // ------------------------------------------------------------------ bytes

  function Pow2(k: nat): (w: nat)
    ensures w > 0
  {
    if k == 0 then 1 else 2 * Pow2(k - 1)
  }

  lemma Pow2Values()
    ensures Pow2(0) == 1 && Pow2(1) == 2 && Pow2(2) == 4 && Pow2(3) == 8
    ensures Pow2(4) == 16 && Pow2(5) == 32 && Pow2(6) == 64 && Pow2(7) == 128
  {
    assert Pow2(4) == 16;
  }

  /** The mask with one bit set finds whether its weight is in the number. */
  lemma ByteBits(n: nat)
    requires n < 256
    ensures n as bv8 & 0x01 != 0 <==> n / 1 % 2 == 1
    ensures n as bv8 & 0x02 != 0 <==> n / 2 % 2 == 1
    ensures n as bv8 & 0x04 != 0 <==> n / 4 % 2 == 1
    ensures n as bv8 & 0x08 != 0 <==> n / 8 % 2 == 1
    ensures n as bv8 & 0x10 != 0 <==> n / 16 % 2 == 1
    ensures n as bv8 & 0x20 != 0 <==> n / 32 % 2 == 1
    ensures n as bv8 & 0x40 != 0 <==> n / 64 % 2 == 1
    ensures n as bv8 & 0x80 != 0 <==> n / 128 % 2 == 1
  {
  }

  /** Setting a bit that is clear adds its weight. */
  lemma LowBitsAdd(b: bv8)
    ensures b & 0x01 == 0 ==> (b | 0x01) as int == b as int + 1
    ensures b & 0x02 == 0 ==> (b | 0x02) as int == b as int + 2
    ensures b & 0x04 == 0 ==> (b | 0x04) as int == b as int + 4
    ensures b & 0x08 == 0 ==> (b | 0x08) as int == b as int + 8
  {
  }

  lemma HighBitsAdd(b: bv8)
    ensures b & 0x10 == 0 ==> (b | 0x10) as int == b as int + 16
    ensures b & 0x20 == 0 ==> (b | 0x20) as int == b as int + 32
    ensures b & 0x40 == 0 ==> (b | 0x40) as int == b as int + 64
    ensures b & 0x80 == 0 ==> (b | 0x80) as int == b as int + 128
  {
  }
}
