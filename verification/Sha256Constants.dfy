/** Where the constants of SHA-256 come from: sections 4.2.2 and 5.3.3 of FIPS 180-4. */
module Sha256Constants {
  import opened Sha256

  /** The prime of each round constant, as the standard lists them. */
  function Prime(t: nat): nat
    requires t < 64
  {
    match t
    case 0 => 2 case 1 => 3 case 2 => 5 case 3 => 7
    case 4 => 11 case 5 => 13 case 6 => 17 case 7 => 19
    case 8 => 23 case 9 => 29 case 10 => 31 case 11 => 37
    case 12 => 41 case 13 => 43 case 14 => 47 case 15 => 53
    case 16 => 59 case 17 => 61 case 18 => 67 case 19 => 71
    case 20 => 73 case 21 => 79 case 22 => 83 case 23 => 89
    case 24 => 97 case 25 => 101 case 26 => 103 case 27 => 107
    case 28 => 109 case 29 => 113 case 30 => 127 case 31 => 131
    case 32 => 137 case 33 => 139 case 34 => 149 case 35 => 151
    case 36 => 157 case 37 => 163 case 38 => 167 case 39 => 173
    case 40 => 179 case 41 => 181 case 42 => 191 case 43 => 193
    case 44 => 197 case 45 => 199 case 46 => 211 case 47 => 223
    case 48 => 227 case 49 => 229 case 50 => 233 case 51 => 239
    case 52 => 241 case 53 => 251 case 54 => 257 case 55 => 263
    case 56 => 269 case 57 => 271 case 58 => 277 case 59 => 281
    case 60 => 283 case 61 => 293 case 62 => 307 case 63 => 311
  }

  function CubeRootFloor(p: nat): nat {
    if p < 8 then 1 else if p < 27 then 2 else if p < 64 then 3 else if p < 125 then 4 else if p < 216 then 5 else 6
  }

  function SquareRootFloor(p: nat): nat {
    if p < 4 then 1 else if p < 9 then 2 else if p < 16 then 3 else 4
  }

  /** `k` is the first 32 bits of the fractional part of the cube root of `p`. */
  predicate CubeRootBits(p: nat, k: nat) {
    var r := CubeRootFloor(p) * 0x1_00000000 + k;
    r * r * r <= p * 0x1_00000000_00000000_00000000 < (r + 1) * (r + 1) * (r + 1)
  }

  /** `k` is the first 32 bits of the fractional part of the square root of `p`. */
  predicate SquareRootBits(p: nat, k: nat) {
    var r := SquareRootFloor(p) * 0x1_00000000 + k;
    r * r <= p * 0x1_00000000_00000000 < (r + 1) * (r + 1)
  }

  predicate Cubic(t: nat)
    requires t < 64
  {
    CubeRootBits(Prime(t), K(t) as nat)
  }

  lemma CubeRoots0()
    ensures forall t :: 0 <= t < 4 ==> Cubic(t)
  {
    assert CubeRootBits(2, 0x428A2F98) && CubeRootBits(3, 0x71374491)
        && CubeRootBits(5, 0xB5C0FBCF) && CubeRootBits(7, 0xE9B5DBA5);
  }

  lemma CubeRoots4()
    ensures forall t :: 4 <= t < 8 ==> Cubic(t)
  {
    assert CubeRootBits(11, 0x3956C25B) && CubeRootBits(13, 0x59F111F1)
        && CubeRootBits(17, 0x923F82A4) && CubeRootBits(19, 0xAB1C5ED5);
  }

  lemma CubeRoots8()
    ensures forall t :: 8 <= t < 12 ==> Cubic(t)
  {
    assert CubeRootBits(23, 0xD807AA98) && CubeRootBits(29, 0x12835B01)
        && CubeRootBits(31, 0x243185BE) && CubeRootBits(37, 0x550C7DC3);
  }

  lemma CubeRoots12()
    ensures forall t :: 12 <= t < 16 ==> Cubic(t)
  {
    assert CubeRootBits(41, 0x72BE5D74) && CubeRootBits(43, 0x80DEB1FE)
        && CubeRootBits(47, 0x9BDC06A7) && CubeRootBits(53, 0xC19BF174);
  }

  lemma CubeRoots16()
    ensures forall t :: 16 <= t < 20 ==> Cubic(t)
  {
    assert CubeRootBits(59, 0xE49B69C1) && CubeRootBits(61, 0xEFBE4786)
        && CubeRootBits(67, 0x0FC19DC6) && CubeRootBits(71, 0x240CA1CC);
  }

  lemma CubeRoots20()
    ensures forall t :: 20 <= t < 24 ==> Cubic(t)
  {
    assert CubeRootBits(73, 0x2DE92C6F) && CubeRootBits(79, 0x4A7484AA)
        && CubeRootBits(83, 0x5CB0A9DC) && CubeRootBits(89, 0x76F988DA);
  }

  lemma CubeRoots24()
    ensures forall t :: 24 <= t < 28 ==> Cubic(t)
  {
    assert CubeRootBits(97, 0x983E5152) && CubeRootBits(101, 0xA831C66D)
        && CubeRootBits(103, 0xB00327C8) && CubeRootBits(107, 0xBF597FC7);
  }

  lemma CubeRoots28()
    ensures forall t :: 28 <= t < 32 ==> Cubic(t)
  {
    assert CubeRootBits(109, 0xC6E00BF3) && CubeRootBits(113, 0xD5A79147)
        && CubeRootBits(127, 0x06CA6351) && CubeRootBits(131, 0x14292967);
  }

  lemma CubeRoots32()
    ensures forall t :: 32 <= t < 36 ==> Cubic(t)
  {
    assert CubeRootBits(137, 0x27B70A85) && CubeRootBits(139, 0x2E1B2138)
        && CubeRootBits(149, 0x4D2C6DFC) && CubeRootBits(151, 0x53380D13);
  }

  lemma CubeRoots36()
    ensures forall t :: 36 <= t < 40 ==> Cubic(t)
  {
    assert CubeRootBits(157, 0x650A7354) && CubeRootBits(163, 0x766A0ABB)
        && CubeRootBits(167, 0x81C2C92E) && CubeRootBits(173, 0x92722C85);
  }

  lemma CubeRoots40()
    ensures forall t :: 40 <= t < 44 ==> Cubic(t)
  {
    assert CubeRootBits(179, 0xA2BFE8A1) && CubeRootBits(181, 0xA81A664B)
        && CubeRootBits(191, 0xC24B8B70) && CubeRootBits(193, 0xC76C51A3);
  }

  lemma CubeRoots44()
    ensures forall t :: 44 <= t < 48 ==> Cubic(t)
  {
    assert CubeRootBits(197, 0xD192E819) && CubeRootBits(199, 0xD6990624)
        && CubeRootBits(211, 0xF40E3585) && CubeRootBits(223, 0x106AA070);
  }

  lemma CubeRoots48()
    ensures forall t :: 48 <= t < 52 ==> Cubic(t)
  {
    assert CubeRootBits(227, 0x19A4C116) && CubeRootBits(229, 0x1E376C08)
        && CubeRootBits(233, 0x2748774C) && CubeRootBits(239, 0x34B0BCB5);
  }

  lemma CubeRoots52()
    ensures forall t :: 52 <= t < 56 ==> Cubic(t)
  {
    assert CubeRootBits(241, 0x391C0CB3) && CubeRootBits(251, 0x4ED8AA4A)
        && CubeRootBits(257, 0x5B9CCA4F) && CubeRootBits(263, 0x682E6FF3);
  }

  lemma CubeRoots56()
    ensures forall t :: 56 <= t < 60 ==> Cubic(t)
  {
    assert CubeRootBits(269, 0x748F82EE) && CubeRootBits(271, 0x78A5636F)
        && CubeRootBits(277, 0x84C87814) && CubeRootBits(281, 0x8CC70208);
  }

  lemma CubeRoots60()
    ensures forall t :: 60 <= t < 64 ==> Cubic(t)
  {
    assert CubeRootBits(283, 0x90BEFFFA) && CubeRootBits(293, 0xA4506CEB)
        && CubeRootBits(307, 0xBEF9A3F7) && CubeRootBits(311, 0xC67178F2);
  }

  /** The table `k256` holds the cube root of the prime listed for each round. */
  lemma ConstantsAreCubeRoots()
    ensures forall t :: 0 <= t < 64 ==> Cubic(t)
  {
    CubeRoots0(); CubeRoots4(); CubeRoots8(); CubeRoots12();
    CubeRoots16(); CubeRoots20(); CubeRoots24(); CubeRoots28();
    CubeRoots32(); CubeRoots36(); CubeRoots40(); CubeRoots44();
    CubeRoots48(); CubeRoots52(); CubeRoots56(); CubeRoots60();
  }

  /** The initial hash value holds the square roots of the primes from 2 to 19. */
  lemma InitialIsSquareRoots()
    ensures SquareRootBits(2, INITIAL[0] as nat) && SquareRootBits(3, INITIAL[1] as nat)
    ensures SquareRootBits(5, INITIAL[2] as nat) && SquareRootBits(7, INITIAL[3] as nat)
    ensures SquareRootBits(11, INITIAL[4] as nat) && SquareRootBits(13, INITIAL[5] as nat)
    ensures SquareRootBits(17, INITIAL[6] as nat) && SquareRootBits(19, INITIAL[7] as nat)
  {
  }
}
