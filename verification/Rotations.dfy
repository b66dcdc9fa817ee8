/** The rotations of 32-bit words (src/hash.cpp:23-29), which are ROTL and ROTR of section 3.2 of FIPS 180-4. */
module Rotations {
  function Rotl(x: bv32, n: bv32): bv32
    requires 0 < n < 32
  {
    (x << n) | (x >> (32 - n))
  }

  function Rotr(x: bv32, n: bv32): bv32
    requires 0 < n < 32
  {
    (x >> n) | (x << (32 - n))
  }

  // As arithmetic: multiplying by a power of two in 64 bits, which hold the product, and carrying what leaves the
  // lower 32 bits around to the bottom. One lemma for each count that the hashes use; a turn to the right by n
  // is one to the left by 32 - n.

  lemma Left1(x: bv32) returns (y: bv32)
    ensures y == Rotl(x, 1)
    ensures y as bv64 == (x as bv64) * 0x2 % 0x1_0000_0000 + (x as bv64) * 0x2 / 0x1_0000_0000
  {
    y := (x << 1) | (x >> 31);
  }

  lemma Left5(x: bv32) returns (y: bv32)
    ensures y == Rotl(x, 5)
    ensures y as bv64 == (x as bv64) * 0x20 % 0x1_0000_0000 + (x as bv64) * 0x20 / 0x1_0000_0000
  {
    y := (x << 5) | (x >> 27);
  }

  lemma Left30(x: bv32) returns (y: bv32)
    ensures y == Rotl(x, 30)
    ensures y as bv64 == (x as bv64) * 0x4000_0000 % 0x1_0000_0000 + (x as bv64) * 0x4000_0000 / 0x1_0000_0000
  {
    y := (x << 30) | (x >> 2);
  }

  lemma Right2(x: bv32) returns (y: bv32)
    ensures y == Rotr(x, 2)
    ensures y as bv64 == (x as bv64) * 0x4000_0000 % 0x1_0000_0000 + (x as bv64) * 0x4000_0000 / 0x1_0000_0000
  {
    y := (x >> 2) | (x << 30);
  }

  lemma Right6(x: bv32) returns (y: bv32)
    ensures y == Rotr(x, 6)
    ensures y as bv64 == (x as bv64) * 0x400_0000 % 0x1_0000_0000 + (x as bv64) * 0x400_0000 / 0x1_0000_0000
  {
    y := (x >> 6) | (x << 26);
  }

  lemma Right7(x: bv32) returns (y: bv32)
    ensures y == Rotr(x, 7)
    ensures y as bv64 == (x as bv64) * 0x200_0000 % 0x1_0000_0000 + (x as bv64) * 0x200_0000 / 0x1_0000_0000
  {
    y := (x >> 7) | (x << 25);
  }

  lemma Right11(x: bv32) returns (y: bv32)
    ensures y == Rotr(x, 11)
    ensures y as bv64 == (x as bv64) * 0x20_0000 % 0x1_0000_0000 + (x as bv64) * 0x20_0000 / 0x1_0000_0000
  {
    y := (x >> 11) | (x << 21);
  }

  lemma Right13(x: bv32) returns (y: bv32)
    ensures y == Rotr(x, 13)
    ensures y as bv64 == (x as bv64) * 0x8_0000 % 0x1_0000_0000 + (x as bv64) * 0x8_0000 / 0x1_0000_0000
  {
    y := (x >> 13) | (x << 19);
  }

  lemma Right17(x: bv32) returns (y: bv32)
    ensures y == Rotr(x, 17)
    ensures y as bv64 == (x as bv64) * 0x8000 % 0x1_0000_0000 + (x as bv64) * 0x8000 / 0x1_0000_0000
  {
    y := (x >> 17) | (x << 15);
  }

  lemma Right18(x: bv32) returns (y: bv32)
    ensures y == Rotr(x, 18)
    ensures y as bv64 == (x as bv64) * 0x4000 % 0x1_0000_0000 + (x as bv64) * 0x4000 / 0x1_0000_0000
  {
    y := (x >> 18) | (x << 14);
  }

  lemma Right19(x: bv32) returns (y: bv32)
    ensures y == Rotr(x, 19)
    ensures y as bv64 == (x as bv64) * 0x2000 % 0x1_0000_0000 + (x as bv64) * 0x2000 / 0x1_0000_0000
  {
    y := (x >> 19) | (x << 13);
  }

  lemma Right22(x: bv32) returns (y: bv32)
    ensures y == Rotr(x, 22)
    ensures y as bv64 == (x as bv64) * 0x400 % 0x1_0000_0000 + (x as bv64) * 0x400 / 0x1_0000_0000
  {
    y := (x >> 22) | (x << 10);
  }

  lemma Right25(x: bv32) returns (y: bv32)
    ensures y == Rotr(x, 25)
    ensures y as bv64 == (x as bv64) * 0x80 % 0x1_0000_0000 + (x as bv64) * 0x80 / 0x1_0000_0000
  {
    y := (x >> 25) | (x << 7);
  }

  /** The two plain shifts of SHA-256 divide. */
  lemma Shifted(x: bv32)
    ensures x >> 3 == x / 8 && x >> 10 == x / 1024
  {
  }
}
