/**
 * What SHA-1 and SHA-256 share in src/hash.cpp: the padding of section 5.1.1
 * of FIPS 180-4, its split into 64-byte blocks, and the hexadecimal digest.
 */
module Sha {
  import opened Numbers

  type byte = b: nat | b < 256

  type Block = s: seq<byte> | |s| == 64 witness seq(64, _ => 0)

  // ---- the padded message -------------------------------------------------

  /** The zero bytes between the 0x80 byte and the length. */
  function ZeroBytes(n: nat): (k: nat)
    ensures k < 64 && (n + 1 + k + 8) % 64 == 0
  {
    (55 - n) % 64
  }

  /** In bits, 0x80 and the zero bytes are a one and the least number of zeros that leaves 448 modulo 512. */
  lemma ZeroBytesLeast(n: nat, zeros: nat)
    ensures (8 * n + 1 + (8 * ZeroBytes(n) + 7)) % 512 == 448
    ensures (8 * n + 1 + zeros) % 512 == 448 ==> zeros >= 8 * ZeroBytes(n) + 7
  {
    var k := ZeroBytes(n);
    var q := (n + 1 + k + 8) / 64;
    assert 8 * n + 1 + (8 * k + 7) == 512 * (q - 1) + 448;
    var p := (8 * n + 1 + zeros) / 512;
    assert (8 * n + 1 + zeros) % 512 == 448 ==> 512 * (q - 1 - p) == 8 * k + 7 - zeros;
  }

  function Pow256(k: nat): nat {
    if k == 0 then 1 else 256 * Pow256(k - 1)
  }

  /** The last `k` bytes of a number, most significant first. */
  function BigEndian(v: nat, k: nat): (s: seq<byte>)
    ensures |s| == k
  {
    if k == 0 then [] else BigEndian(v / 256, k - 1) + [v % 256]
  }

  function FromBigEndian(s: seq<byte>): nat {
    if s == [] then 0 else FromBigEndian(s[..|s| - 1]) * 256 + s[|s| - 1]
  }

  lemma {:induction false} BigEndianRead(v: nat, k: nat)
    requires v < Pow256(k)
    ensures FromBigEndian(BigEndian(v, k)) == v
  {
    if k > 0 {
      BigEndianRead(v / 256, k - 1);
      assert BigEndian(v, k)[..k - 1] == BigEndian(v / 256, k - 1);
    }
  }

  lemma MulDifference(q: nat, q': nat, d: nat)
    ensures q * d - q' * d == (q - q') * d
    ensures q > q' ==> (q - q') * d >= d
  {
    assert (q - q') * d == (q - q' - 1) * d + d;
  }

  lemma DivUnique(v: nat, d: nat, q: nat, r: nat)
    requires r < d && v == q * d + r
    ensures v / d == q && v % d == r
  {
    var q' := v / d;
    assert v == q' * d + v % d;
    MulDifference(q, q', d);
    MulDifference(q', q, d);
  }

  lemma DivByteThen(v: nat, d: nat)
    requires d > 0
    ensures v / (256 * d) == v / 256 / d && v % (256 * d) == v / 256 % d * 256 + v % 256
  {
    var a, b := v / 256, v % 256;
    var q, c := a / d, a % d;
    assert v == 256 * (q * d + c) + b;
    assert 256 * (q * d) == q * (256 * d);
    DivUnique(v, 256 * d, q, c * 256 + b);
  }

  lemma {:induction false} PowPositive(k: nat)
    ensures Pow256(k) > 0
  {
    if k > 0 {
      PowPositive(k - 1);
    }
  }

  /** Byte by byte: the shift form of the source. */
  lemma {:induction false} BigEndianAt(v: nat, k: nat, i: nat)
    requires i < k
    ensures Pow256(i) > 0 && BigEndian(v, k)[k - 1 - i] == v / Pow256(i) % 256
  {
    PowPositive(i);
    if i == 0 {
      assert Pow256(0) == 1;
    } else {
      BigEndianAt(v / 256, k - 1, i - 1);
      PowPositive(i - 1);
      DivByteThen(v, Pow256(i - 1));
    }
  }

  lemma Pow256Eight()
    ensures Pow256(8) == 0x1_0000_0000_0000_0000
  {
    assert Pow256(4) == 0x1_0000_0000;
    assert Pow256(6) == 0x10000 * Pow256(4);
  }

  function Zeros(k: nat): (s: seq<byte>)
    ensures |s| == k
  {
    seq(k, _ => 0)
  }

  /** The message, a one bit, zeros, and the length in bits as a 64-bit number. */
  function Pad(m: seq<byte>): (p: seq<byte>)
    ensures |p| % 64 == 0 && |p| > 0
  {
    m + [0x80] + Zeros(ZeroBytes(|m|)) + BigEndian(8 * |m|, 8)
  }

  /** The message, one byte 0x80, zeros, and eight bytes more. */
  lemma PadWrittenOut(m: seq<byte>)
    ensures |Pad(m)| == |m| + 1 + ZeroBytes(|m|) + 8
    ensures Pad(m)[..|m|] == m && Pad(m)[|m|] == 0x80
    ensures forall i :: |m| < i < |Pad(m)| - 8 ==> Pad(m)[i] == 0
  {
  }

  lemma PadLength(m: seq<byte>)
    requires |m| < 0x2000_0000_0000_0000
    ensures FromBigEndian(Pad(m)[|Pad(m)| - 8..]) == 8 * |m|
  {
    Pow256Eight();
    BigEndianRead(8 * |m|, 8);
    assert Pad(m)[|Pad(m)| - 8..] == BigEndian(8 * |m|, 8);
  }

  /** No two messages below 2^61 bytes pad to the same blocks. */
  lemma PadInjective(m: seq<byte>, m': seq<byte>)
    requires |m| < 0x2000_0000_0000_0000 && |m'| < 0x2000_0000_0000_0000
    requires Pad(m) == Pad(m')
    ensures m == m'
  {
    PadLength(m);
    PadLength(m');
    assert m == Pad(m)[..|m|] && m' == Pad(m')[..|m'|];
  }

  // ---- the tail of the source --------------------------------------------

  /** The length of the buffer that is compressed after the full blocks. */
  function TailLength(rem: nat): nat {
    if rem < 56 then 64 else 128
  }

  /** The length loop: the last eight bytes of the used part, least significant first. */
  method WriteLength(tail: array<byte>, padLen: nat, bitLen: nat)
    requires 8 <= padLen <= tail.Length
    modifies tail
    ensures tail[padLen - 8..padLen] == BigEndian(bitLen, 8)
    ensures forall k :: 0 <= k < padLen - 8 ==> tail[k] == old(tail[k])
  {
    for i := 0 to 8
      invariant forall k :: 0 <= k < padLen - 8 ==> tail[k] == old(tail[k])
      invariant forall k :: 0 <= k < i ==> Pow256(k) > 0 && tail[padLen - 1 - k] == bitLen / Pow256(k) % 256
    {
      PowPositive(i);
      tail[padLen - 1 - i] := bitLen / Pow256(i) % 256;
    }
    LengthBytes(tail[..padLen], bitLen);
    assert tail[..padLen][padLen - 8..] == tail[padLen - 8..padLen];
  }

  /** The 128-byte buffer: the rest of the message, 0x80, zeros, and the length in bits, modulo 2^64. */
  method BuildTail(m: seq<byte>) returns (tail: array<byte>, padLen: nat)
    ensures fresh(tail) && tail.Length == 128
    ensures padLen == TailLength(|m| % 64)
    ensures m[..|m| / 64 * 64] + tail[..padLen] == Pad(m)
  {
    var full := |m| / 64;
    tail := new byte[128](_ => 0);
    var rem := |m| - full * 64;
    for i := 0 to rem
      invariant forall k :: 0 <= k < i ==> tail[k] == m[full * 64 + k]
      invariant forall k :: i <= k < 128 ==> tail[k] == 0
    {
      tail[i] := m[full * 64 + i];
    }
    tail[rem] := 0x80;
    padLen := if rem < 56 then 64 else 128;
    var bitLen := |m| * 8 % 0x1_0000_0000_0000_0000;
    WriteLength(tail, padLen, bitLen);
    assert tail[..padLen][padLen - 8..] == tail[padLen - 8..padLen];
    assert m == m[..full * 64] + m[full * 64..];
    TailIsPadding(m, m[..full * 64], m[full * 64..], tail[..padLen], bitLen);
  }

  lemma BigEndianWraps(v: nat)
    ensures BigEndian(v % 0x1_0000_0000_0000_0000, 8) == BigEndian(v, 8)
  {
    Pow256Eight();
    BigEndianMod(v, 8);
  }

  lemma {:induction false} BigEndianMod(v: nat, k: nat)
    ensures Pow256(k) > 0 && BigEndian(v % Pow256(k), k) == BigEndian(v, k)
  {
    PowPositive(k);
    if k > 0 {
      PowPositive(k - 1);
      BigEndianMod(v / 256, k - 1);
      DivByteThen(v, Pow256(k - 1));
    }
  }

  lemma Assemble(head: seq<byte>, rest: seq<byte>, zeros: seq<byte>, length: seq<byte>, tail: seq<byte>)
    requires |tail| == |rest| + 1 + |zeros| + |length|
    requires forall k :: 0 <= k < |rest| ==> tail[k] == rest[k]
    requires tail[|rest|] == 0x80
    requires forall k :: 0 <= k < |zeros| ==> tail[|rest| + 1 + k] == zeros[k]
    requires forall k :: 0 <= k < |length| ==> tail[|rest| + 1 + |zeros| + k] == length[k]
    ensures head + tail == head + rest + [0x80] + zeros + length
  {
    assert tail == rest + [0x80] + zeros + length;
  }

  lemma TailZeros(n: nat)
    ensures 1 + n % 64 + ZeroBytes(n) + 8 == TailLength(n % 64)
  {
  }

  lemma TailIsPadding(m: seq<byte>, head: seq<byte>, rest: seq<byte>, tail: seq<byte>, bitLen: nat)
    requires m == head + rest && |rest| == |m| % 64 && |tail| == TailLength(|rest|)
    requires bitLen == |m| * 8 % 0x1_0000_0000_0000_0000
    requires forall k :: 0 <= k < |rest| ==> tail[k] == rest[k]
    requires tail[|rest|] == 0x80
    requires forall k :: |rest| < k < |tail| - 8 ==> tail[k] == 0
    requires tail[|tail| - 8..] == BigEndian(bitLen, 8)
    ensures head + tail == Pad(m)
  {
    BigEndianWraps(8 * |m|);
    TailZeros(|m|);
    TailOfParts(head, rest, ZeroBytes(|m|), BigEndian(8 * |m|, 8), tail);
  }

  lemma TailOfParts(head: seq<byte>, rest: seq<byte>, zeros: nat, length: seq<byte>, tail: seq<byte>)
    requires |length| == 8 && |tail| == |rest| + 1 + zeros + 8
    requires forall k :: 0 <= k < |rest| ==> tail[k] == rest[k]
    requires tail[|rest|] == 0x80
    requires forall k :: |rest| < k < |tail| - 8 ==> tail[k] == 0
    requires tail[|tail| - 8..] == length
    ensures head + tail == head + rest + [0x80] + Zeros(zeros) + length
  {
    forall k | 0 <= k < 8 ensures tail[|rest| + 1 + zeros + k] == length[k] {
      assert tail[|tail| - 8..][k] == length[k];
    }
    Assemble(head, rest, Zeros(zeros), length, tail);
  }

  lemma LengthBytes(tail: seq<byte>, bitLen: nat)
    requires |tail| >= 8
    requires forall k :: 0 <= k < 8 ==> Pow256(k) > 0 && tail[|tail| - 1 - k] == bitLen / Pow256(k) % 256
    ensures tail[|tail| - 8..] == BigEndian(bitLen, 8)
  {
    forall j | 0 <= j < 8 ensures tail[|tail| - 8 + j] == BigEndian(bitLen, 8)[j] {
      var k := 7 - j;
      BigEndianAt(bitLen, 8, k);
      assert tail[|tail| - 1 - k] == bitLen / Pow256(k) % 256;
    }
  }

  // ---- blocks -------------------------------------------------------------

  /** The hash computation of section 6: the compression function over the blocks in order. */
  function Fold<S>(compress: (S, Block) -> S, h: S, p: seq<byte>): S
    requires |p| % 64 == 0
  {
    if p == [] then h
    else compress(Fold(compress, h, p[..|p| - 64]), p[|p| - 64..])
  }

  lemma FoldAppend<S>(compress: (S, Block) -> S, h: S, p: seq<byte>, block: Block)
    requires |p| % 64 == 0
    ensures Fold(compress, h, p + block) == compress(Fold(compress, h, p), block)
  {
    assert (p + block)[..|p|] == p && (p + block)[|p|..] == block;
  }

  /** Where each sequence heads the next, an earlier one heads every later one. */
  lemma {:induction false} Growing<T>(ss: seq<seq<T>>, n: nat, t: nat)
    requires t <= n < |ss|
    requires forall k :: 0 <= k < |ss| - 1 ==> ss[k] <= ss[k + 1]
    ensures ss[t] <= ss[n]
  {
    if t < n {
      Growing(ss, n - 1, t);
      assert ss[n - 1] <= ss[n - 1 + 1];
    }
  }

  lemma FoldEmpty<S>(compress: (S, Block) -> S, h: S)
    ensures Fold(compress, h, []) == h
  {
  }

  /** One more block of a message. */
  lemma FoldNext<S>(compress: (S, Block) -> S, h: S, m: seq<byte>, i: nat)
    requires 64 * i + 64 <= |m|
    ensures Fold(compress, h, m[..64 * i + 64]) == compress(Fold(compress, h, m[..64 * i]), m[64 * i..64 * i + 64])
  {
    assert m[..64 * i + 64] == m[..64 * i] + m[64 * i..64 * i + 64];
    FoldAppend(compress, h, m[..64 * i], m[64 * i..64 * i + 64]);
  }

  lemma FoldTwo<S>(compress: (S, Block) -> S, h: S, head: seq<byte>, x: Block, y: Block)
    requires |head| % 64 == 0
    ensures Fold(compress, h, head + x + y) == compress(compress(Fold(compress, h, head), x), y)
  {
    FoldAppend(compress, h, head, x);
    FoldAppend(compress, h, head + x, y);
  }

  lemma Halved(head: seq<byte>, tail: seq<byte>)
    requires |tail| == 128
    ensures head + tail == head + tail[..64] + tail[64..]
  {
  }

  // ---- words --------------------------------------------------------------

  /** Addition modulo 2^32. */
  function Plus(x: bv32, y: bv32): bv32 {
    x + y
  }

  lemma PlusWrittenOut(x: bv32, y: bv32)
    ensures Plus(x, y) == x + y
  {
  }

  /** The big-endian words of a block. */
  function Word(block: Block, t: nat): bv32
    requires t < 16
  {
    ((block[4 * t] as bv32) << 24) | ((block[4 * t + 1] as bv32) << 16)
    | ((block[4 * t + 2] as bv32) << 8) | (block[4 * t + 3] as bv32)
  }

  function WordBytes(w: bv32): (s: seq<byte>)
    ensures |s| == 4
  {
    [(w >> 24) as nat, ((w >> 16) & 0xFF) as nat, ((w >> 8) & 0xFF) as nat, (w & 0xFF) as nat]
  }

  function BytesOf(ws: seq<bv32>): (s: seq<byte>)
    ensures |s| == 4 * |ws|
  {
    if ws == [] then [] else BytesOf(ws[..|ws| - 1]) + WordBytes(ws[|ws| - 1])
  }

  // ---- the value of a word ------------------------------------------------

  lemma JoinedBytes(a: bv8, b: bv8) returns (x: bv16)
    ensures x == ((a as bv16) << 8) | (b as bv16)
    ensures x as nat == (a as nat) * 0x100 + (b as nat)
  {
    x := ((a as bv16) << 8) | (b as bv16);
  }

  lemma JoinedHalves(x: bv16, y: bv16) returns (w: bv32)
    ensures w == ((x as bv32) << 16) | (y as bv32)
    ensures w as nat == (x as nat) * 0x10000 + (y as nat)
  {
    w := ((x as bv32) << 16) | (y as bv32);
  }

  lemma ShiftsJoin(a: bv8, b: bv8, c: bv8, d: bv8, x: bv16, y: bv16)
    requires x == ((a as bv16) << 8) | (b as bv16) && y == ((c as bv16) << 8) | (d as bv16)
    ensures ((a as bv32) << 24) | ((b as bv32) << 16) | ((c as bv32) << 8) | (d as bv32)
            == ((x as bv32) << 16) | (y as bv32)
  {
  }

  lemma JoinedWord(a: bv8, b: bv8, c: bv8, d: bv8) returns (w: bv32)
    ensures w == ((a as bv32) << 24) | ((b as bv32) << 16) | ((c as bv32) << 8) | (d as bv32)
    ensures w as nat == ((a as nat * 0x100 + b as nat) * 0x100 + c as nat) * 0x100 + d as nat
  {
    var x := JoinedBytes(a, b);
    var y := JoinedBytes(c, d);
    ShiftsJoin(a, b, c, d, x, y);
    w := JoinedHalves(x, y);
  }

  lemma NarrowByte(n: byte) returns (b: bv8)
    ensures b as bv32 == n as bv32 && b as nat == n
  {
    b := n as bv8;
  }

  lemma FourBytes(s: seq<byte>)
    requires |s| == 4
    ensures FromBigEndian(s) == (((s[0] as nat) * 0x100 + s[1]) * 0x100 + s[2]) * 0x100 + s[3]
  {
    assert s[..3][..2] == s[..2] && s[..2][..1] == s[..1] && s[..1][..0] == [];
    assert FromBigEndian(s[..1]) == s[0] && FromBigEndian(s[..2]) == FromBigEndian(s[..1]) * 0x100 + s[1];
    assert FromBigEndian(s[..3]) == FromBigEndian(s[..2]) * 0x100 + s[2];
  }

  lemma WordValue(block: Block, t: nat) returns (w: bv32)
    requires t < 16
    ensures w == Word(block, t)
    ensures w as nat == (((block[4 * t] as nat) * 0x100 + block[4 * t + 1]) * 0x100 + block[4 * t + 2]) * 0x100
                        + block[4 * t + 3]
  {
    var a := NarrowByte(block[4 * t]);
    var b := NarrowByte(block[4 * t + 1]);
    var c := NarrowByte(block[4 * t + 2]);
    var d := NarrowByte(block[4 * t + 3]);
    w := JoinedWord(a, b, c, d);
  }

  /** The shifts of the source read four bytes as one number, most significant first. */
  lemma WordIsBigEndian(block: Block, t: nat) returns (w: bv32)
    requires t < 16
    ensures w == Word(block, t)
    ensures w as nat == FromBigEndian(block[4 * t..4 * t + 4])
  {
    w := WordValue(block, t);
    FourBytes(block[4 * t..4 * t + 4]);
  }

  lemma SplitWord(w: bv32) returns (a: bv8, b: bv8, c: bv8, d: bv8)
    ensures w == ((a as bv32) << 24) | ((b as bv32) << 16) | ((c as bv32) << 8) | (d as bv32)
    ensures (w >> 24) as nat == a as nat && ((w >> 16) & 0xFF) as nat == b as nat
    ensures ((w >> 8) & 0xFF) as nat == c as nat && (w & 0xFF) as nat == d as nat
  {
    a, b, c, d := (w >> 24) as bv8, ((w >> 16) & 0xFF) as bv8, ((w >> 8) & 0xFF) as bv8, (w & 0xFF) as bv8;
  }

  lemma SplitValue(w: bv32) returns (a: byte, b: byte, c: byte, d: byte)
    ensures (w >> 24) as nat == a && ((w >> 16) & 0xFF) as nat == b
    ensures ((w >> 8) & 0xFF) as nat == c && (w & 0xFF) as nat == d
    ensures w as nat == (((a as nat) * 0x100 + b) * 0x100 + c) * 0x100 + d
  {
    var x, y, z, u := SplitWord(w);
    var v := JoinedWord(x, y, z, u);
    a, b, c, d := x as nat, y as nat, z as nat, u as nat;
  }

  lemma LastBytes(v: nat, a: byte, b: byte, c: byte, d: byte)
    requires v == (((a as nat) * 0x100 + b) * 0x100 + c) * 0x100 + d
    ensures BigEndian(v, 4) == [a, b, c, d]
  {
    assert v / 0x100 == ((a as nat) * 0x100 + b) * 0x100 + c && v / 0x100 / 0x100 == (a as nat) * 0x100 + b;
    assert BigEndian(v, 4) == BigEndian(v / 0x100, 3) + [d];
    assert BigEndian(v / 0x100, 3) == BigEndian(v / 0x100 / 0x100, 2) + [c];
    assert BigEndian(a, 1) == [] + [a];
  }

  /** The shifts of the source write a word as its four bytes, most significant first. */
  lemma WordBytesAreBigEndian(w: bv32)
    ensures WordBytes(w) == BigEndian(w as nat, 4)
  {
    var a, b, c, d := SplitValue(w);
    LastBytes(w as nat, a, b, c, d);
  }

  lemma {:induction false} BytesOfAt(ws: seq<bv32>, i: nat)
    requires i < |ws|
    ensures BytesOf(ws)[4 * i..4 * i + 4] == BigEndian(ws[i] as nat, 4)
  {
    var init := ws[..|ws| - 1];
    if i == |ws| - 1 {
      WordBytesAreBigEndian(ws[i]);
      assert BytesOf(ws)[4 * i..4 * i + 4] == WordBytes(ws[i]);
    } else {
      BytesOfAt(init, i);
      assert BytesOf(ws)[4 * i..4 * i + 4] == BytesOf(init)[4 * i..4 * i + 4];
    }
  }

  /** The output loop of both hashes: four bytes a word. */
  method PrintWords(ws: seq<bv32>) returns (out: seq<byte>)
    ensures out == BytesOf(ws)
    ensures forall i :: 0 <= i < |ws| ==> out[4 * i..4 * i + 4] == BigEndian(ws[i] as nat, 4)
  {
    out := [];
    for i := 0 to |ws|
      invariant out == BytesOf(ws[..i])
    {
      assert ws[..i + 1][..i] == ws[..i];
      out := out + WordBytes(ws[i]);
    }
    assert ws[..|ws|] == ws;
    forall i | 0 <= i < |ws| ensures out[4 * i..4 * i + 4] == BigEndian(ws[i] as nat, 4) {
      BytesOfAt(ws, i);
    }
  }

  // ---- hexadecimal --------------------------------------------------------

  function ToHex(s: seq<byte>): string {
    if s == [] then "" else ToHex(s[..|s| - 1]) + [HEX[s[|s| - 1] / 16], HEX[s[|s| - 1] % 16]]
  }

  /** `to_hex`, which writes two characters per byte in place. */
  method ComputeToHex(s: seq<byte>) returns (out: string)
    ensures out == ToHex(s)
  {
    var buf := new char[2 * |s|];
    for i := 0 to |s|
      invariant buf[..2 * i] == ToHex(s[..i])
    {
      assert s[..i + 1][..i] == s[..i];
      buf[2 * i] := HEX[s[i] / 16];
      buf[2 * i + 1] := HEX[s[i] % 16];
      assert buf[..2 * (i + 1)] == ToHex(s[..i]) + [HEX[s[i] / 16], HEX[s[i] % 16]];
    }
    assert s[..|s|] == s && buf[..2 * |s|] == buf[..];
    return buf[..];
  }

  /** The two digits of every byte, written out. */
  lemma {:induction false} ToHexWrittenOut(s: seq<byte>, i: nat)
    requires i < |s|
    ensures |ToHex(s)| == 2 * |s|
    ensures ToHex(s)[2 * i] == "0123456789abcdef"[s[i] / 16] && ToHex(s)[2 * i + 1] == "0123456789abcdef"[s[i] % 16]
  {
    var init := s[..|s| - 1];
    ToHexLength(init);
    assert |ToHex(init)| == 2 * |s| - 2;
    if i < |init| {
      ToHexWrittenOut(init, i);
      assert ToHex(s)[..|ToHex(init)|] == ToHex(init);
    }
  }

  lemma HexDigits(a: nat, b: nat)
    requires a < 16 && b < 16 && HEX[a] == HEX[b]
    ensures a == b
  {
  }

  /** Two lowercase hexadecimal digits a byte; equal texts mean equal digests. */
  lemma {:induction false} ToHexInjective(s: seq<byte>, t: seq<byte>)
    requires |s| == |t| && ToHex(s) == ToHex(t)
    ensures s == t
  {
    if s != [] {
      ToHexLength(s[..|s| - 1]);
      ToHexLength(t[..|t| - 1]);
      var x, y := s[|s| - 1], t[|t| - 1];
      var n := 2 * |s| - 2;
      assert ToHex(s)[..n] == ToHex(s[..|s| - 1]) && ToHex(t)[..n] == ToHex(t[..|t| - 1]);
      assert ToHex(s)[n] == HEX[x / 16] && ToHex(s)[n + 1] == HEX[x % 16];
      assert ToHex(t)[n] == HEX[y / 16] && ToHex(t)[n + 1] == HEX[y % 16];
      HexDigits(x / 16, y / 16);
      HexDigits(x % 16, y % 16);
      ToHexInjective(s[..|s| - 1], t[..|t| - 1]);
      assert s == s[..|s| - 1] + [x] && t == t[..|t| - 1] + [y];
    }
  }

  lemma {:induction false} ToHexLength(s: seq<byte>)
    ensures |ToHex(s)| == 2 * |s|
  {
    if s != [] {
      ToHexLength(s[..|s| - 1]);
    }
  }
}
