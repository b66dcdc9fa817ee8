/** Where the constants of SHA-1 come from: sections 4.2.1 and 5.3.1 of FIPS 180-4. */
module Sha1Constants {
  import opened Sha
  import opened Sha1

  /** `k` is the root of `n`, scaled by 2^30 and rounded down. */
  predicate RootBits(n: nat, k: nat) {
    k * k <= n * 0x1000_0000_0000_0000 < (k + 1) * (k + 1)
  }

  lemma RootTable()
    ensures RootBits(2, 0x5A827999) && RootBits(3, 0x6ED9EBA1) && RootBits(5, 0x8F1BBCDC) && RootBits(10, 0xCA62C1D6)
  {
  }

  /** The round constants are the roots of 2, 3, 5 and 10. */
  lemma ConstantsAreRoots(t: nat)
    ensures RootBits(if t < 20 then 2 else if t < 40 then 3 else if t < 60 then 5 else 10, K(t) as nat)
  {
    RootTable();
    if t < 20 {
      assert K(t) as nat == 0x5A827999;
    } else if t < 40 {
      assert K(t) as nat == 0x6ED9EBA1;
    } else if t < 60 {
      assert K(t) as nat == 0x8F1BBCDC;
    } else {
      assert K(t) as nat == 0xCA62C1D6;
    }
  }

  /** The bytes of a word, least significant first. */
  function LittleEndian(w: bv32): seq<byte> {
    [WordBytes(w)[3], WordBytes(w)[2], WordBytes(w)[1], WordBytes(w)[0]]
  }

  /** The initial hash value counts its bytes up, down and up again. */
  lemma InitialCounts()
    ensures LittleEndian(INITIAL[0]) == [0x01, 0x23, 0x45, 0x67]
    ensures LittleEndian(INITIAL[1]) == [0x89, 0xAB, 0xCD, 0xEF]
    ensures LittleEndian(INITIAL[2]) == [0xFE, 0xDC, 0xBA, 0x98]
    ensures LittleEndian(INITIAL[3]) == [0x76, 0x54, 0x32, 0x10]
    ensures LittleEndian(INITIAL[4]) == [0xF0, 0xE1, 0xD2, 0xC3]
  {
  }
}
