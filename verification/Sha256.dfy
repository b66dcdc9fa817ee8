/** SHA-256 (src/hash.cpp:89-161) against sections 4.1.2, 4.2.2, 5.3.3 and 6.2 of FIPS 180-4. */
module Sha256 {
  import opened Rotations
  import opened Sha

  // ---- the standard -------------------------------------------------------

  function Ch(x: bv32, y: bv32, z: bv32): bv32 {
    (x & y) ^ (!x & z)
  }

  function Maj(x: bv32, y: bv32, z: bv32): bv32 {
    (x & y) ^ (x & z) ^ (y & z)
  }

  function BigSigma0(x: bv32): bv32 {
    Rotr(x, 2) ^ Rotr(x, 13) ^ Rotr(x, 22)
  }

  function BigSigma1(x: bv32): bv32 {
    Rotr(x, 6) ^ Rotr(x, 11) ^ Rotr(x, 25)
  }

  function SmallSigma0(x: bv32): bv32 {
    Rotr(x, 7) ^ Rotr(x, 18) ^ (x >> 3)
  }

  function SmallSigma1(x: bv32): bv32 {
    Rotr(x, 17) ^ Rotr(x, 19) ^ (x >> 10)
  }

  /** The table `k256`. */
  function K(t: nat): bv32
    requires t < 64
  {
    match t
    case 0 => 0x428A2F98 case 1 => 0x71374491 case 2 => 0xB5C0FBCF case 3 => 0xE9B5DBA5
    case 4 => 0x3956C25B case 5 => 0x59F111F1 case 6 => 0x923F82A4 case 7 => 0xAB1C5ED5
    case 8 => 0xD807AA98 case 9 => 0x12835B01 case 10 => 0x243185BE case 11 => 0x550C7DC3
    case 12 => 0x72BE5D74 case 13 => 0x80DEB1FE case 14 => 0x9BDC06A7 case 15 => 0xC19BF174
    case 16 => 0xE49B69C1 case 17 => 0xEFBE4786 case 18 => 0x0FC19DC6 case 19 => 0x240CA1CC
    case 20 => 0x2DE92C6F case 21 => 0x4A7484AA case 22 => 0x5CB0A9DC case 23 => 0x76F988DA
    case 24 => 0x983E5152 case 25 => 0xA831C66D case 26 => 0xB00327C8 case 27 => 0xBF597FC7
    case 28 => 0xC6E00BF3 case 29 => 0xD5A79147 case 30 => 0x06CA6351 case 31 => 0x14292967
    case 32 => 0x27B70A85 case 33 => 0x2E1B2138 case 34 => 0x4D2C6DFC case 35 => 0x53380D13
    case 36 => 0x650A7354 case 37 => 0x766A0ABB case 38 => 0x81C2C92E case 39 => 0x92722C85
    case 40 => 0xA2BFE8A1 case 41 => 0xA81A664B case 42 => 0xC24B8B70 case 43 => 0xC76C51A3
    case 44 => 0xD192E819 case 45 => 0xD6990624 case 46 => 0xF40E3585 case 47 => 0x106AA070
    case 48 => 0x19A4C116 case 49 => 0x1E376C08 case 50 => 0x2748774C case 51 => 0x34B0BCB5
    case 52 => 0x391C0CB3 case 53 => 0x4ED8AA4A case 54 => 0x5B9CCA4F case 55 => 0x682E6FF3
    case 56 => 0x748F82EE case 57 => 0x78A5636F case 58 => 0x84C87814 case 59 => 0x8CC70208
    case 60 => 0x90BEFFFA case 61 => 0xA4506CEB case 62 => 0xBEF9A3F7 case 63 => 0xC67178F2
  }

  /** The next word of the message schedule. */
  function NextWord(block: Block, w: seq<bv32>): bv32 {
    var t := |w|;
    if t < 16 then Word(block, t)
    else Mix(w[t - 2], w[t - 7], w[t - 15], w[t - 16])
  }

  function Mix(x: bv32, y: bv32, z: bv32, u: bv32): bv32 {
    SmallSigma1(x) + y + SmallSigma0(z) + u
  }

  /** The first `n` words of the message schedule. */
  function Schedule(block: Block, n: nat): (w: seq<bv32>)
    ensures |w| == n
  {
    if n == 0 then [] else var w := Schedule(block, n - 1); w + [NextWord(block, w)]
  }

  /** A hash value, and the working variables a to h. */
  type Words = s: seq<bv32> | |s| == 8 witness seq(8, _ => 0)

  function T1(h: bv32, e: bv32, f: bv32, g: bv32, k: bv32, w: bv32): bv32 {
    h + BigSigma1(e) + Ch(e, f, g) + k + w
  }

  function T2(a: bv32, b: bv32, c: bv32): bv32 {
    BigSigma0(a) + Maj(a, b, c)
  }

  function NewA(a: bv32, b: bv32, c: bv32, e: bv32, f: bv32, g: bv32, h: bv32, k: bv32, w: bv32): bv32 {
    Plus(T1(h, e, f, g, k, w), T2(a, b, c))
  }

  function NewE(d: bv32, e: bv32, f: bv32, g: bv32, h: bv32, k: bv32, w: bv32): bv32 {
    Plus(d, T1(h, e, f, g, k, w))
  }

  /** Round `t`: each variable moves one place on, T1 is added to d on its way, and a is new. */
  function Round(v: Words, t: nat, w: bv32): Words
    requires t < 64
  {
    seq(8, i requires 0 <= i < 8 =>
      if i == 0 then NewA(v[0], v[1], v[2], v[4], v[5], v[6], v[7], K(t), w)
      else if i == 4 then NewE(v[3], v[4], v[5], v[6], v[7], K(t), w)
      else v[i - 1])
  }

  /** The working variables after the first `t` rounds. */
  function Rounds(w: seq<bv32>, h: Words, t: nat): Words
    requires t <= |w| && t <= 64
  {
    if t == 0 then h else Round(Rounds(w, h, t - 1), t - 1, w[t - 1])
  }

  function Sum(h: Words, v: Words): Words {
    seq(8, i requires 0 <= i < 8 => Plus(h[i], v[i]))
  }

  function Compress(h: Words, block: Block): Words {
    Sum(h, Rounds(Schedule(block, 64), h, 64))
  }

  const INITIAL: Words := [
    0x6A09E667, 0xBB67AE85, 0x3C6EF372, 0xA54FF53A, 0x510E527F, 0x9B05688C, 0x1F83D9AB, 0x5BE0CD19]

  /** The SHA-256 message digest. */
  function Hash(m: seq<byte>): (s: seq<byte>)
    ensures |s| == 32
  {
    BytesOf(Fold(Compress, INITIAL, Pad(m)))
  }

  // The definitions once more, one by one.

  lemma ChBits(x: bv32, y: bv32, z: bv32, c: bv32)
    requires c == (x & y) ^ (!x & z)
    ensures c & x == y & x && c & !x == z & !x
  {
  }

  /** Ch takes the bits of y where x has a one, and those of z elsewhere. */
  lemma ChWrittenOut(x: bv32, y: bv32, z: bv32) returns (c: bv32)
    ensures c == Ch(x, y, z) && c & x == y & x && c & !x == z & !x
  {
    c := (x & y) ^ (!x & z);
    ChBits(x, y, z, c);
  }

  /** Maj takes the bits that two of the three have. */
  lemma MajWrittenOut(x: bv32, y: bv32, z: bv32)
    ensures (x & y) | (x & z) | (y & z) == Maj(x, y, z)
  {
  }

  lemma SigmasWrittenOut(x: bv32)
    ensures BigSigma0(x) == Rotr(x, 2) ^ Rotr(x, 13) ^ Rotr(x, 22)
    ensures BigSigma1(x) == Rotr(x, 6) ^ Rotr(x, 11) ^ Rotr(x, 25)
    ensures SmallSigma0(x) == Rotr(x, 7) ^ Rotr(x, 18) ^ (x >> 3)
    ensures SmallSigma1(x) == Rotr(x, 17) ^ Rotr(x, 19) ^ (x >> 10)
  {
  }

  lemma T1WrittenOut(h: bv32, e: bv32, f: bv32, g: bv32, k: bv32, w: bv32)
    ensures T1(h, e, f, g, k, w) == h + BigSigma1(e) + Ch(e, f, g) + k + w
  {
  }

  lemma T2WrittenOut(a: bv32, b: bv32, c: bv32)
    ensures T2(a, b, c) == BigSigma0(a) + Maj(a, b, c)
  {
  }

  lemma MixWrittenOut(x: bv32, y: bv32, z: bv32, u: bv32)
    ensures Mix(x, y, z, u) == SmallSigma1(x) + y + SmallSigma0(z) + u
  {
  }

  lemma NewWrittenOut(
    a: bv32, b: bv32, c: bv32, d: bv32, e: bv32, f: bv32, g: bv32, h: bv32, k: bv32, w: bv32)
    ensures NewA(a, b, c, e, f, g, h, k, w) == Plus(T1(h, e, f, g, k, w), T2(a, b, c))
    ensures NewE(d, e, f, g, h, k, w) == Plus(d, T1(h, e, f, g, k, w))
  {
  }

  lemma NextWordWrittenOut(block: Block, w: seq<bv32>)
    ensures var t := |w|;
            NextWord(block, w) == if t < 16 then Word(block, t) else Mix(w[t - 2], w[t - 7], w[t - 15], w[t - 16])
  {
  }

  /** The first words of the schedule are those of every longer one. */
  lemma SchedulePrefix(block: Block, n: nat, t: nat)
    requires t <= n
    ensures Schedule(block, n)[..t] == Schedule(block, t)
  {
    var schedules := seq(n + 1, k requires 0 <= k <= n => Schedule(block, k));
    forall k | 0 <= k < n ensures schedules[k] <= schedules[k + 1] {
      ScheduleGrows(block, k + 1);
    }
    Growing(schedules, n, t);
  }

  lemma ScheduleGrows(block: Block, n: nat)
    requires n > 0
    ensures Schedule(block, n) == Schedule(block, n - 1) + [NextWord(block, Schedule(block, n - 1))]
  {
  }

  /** Each word of the schedule comes from the words before it. */
  lemma ScheduleWrittenOut(block: Block, n: nat, t: nat)
    requires t < n
    ensures Schedule(block, n)[t] == NextWord(block, Schedule(block, n)[..t])
  {
    SchedulePrefix(block, n, t + 1);
    SchedulePrefix(block, n, t);
    ScheduleGrows(block, t + 1);
    assert Schedule(block, n)[..t + 1][t] == Schedule(block, n)[t];
  }

  lemma RoundsWrittenOut(w: seq<bv32>, h: Words, t: nat)
    requires t < |w| && t < 64
    ensures Rounds(w, h, 0) == h
    ensures Rounds(w, h, t + 1) == Round(Rounds(w, h, t), t, w[t])
  {
  }

  lemma CompressWrittenOut(h: Words, block: Block, n: nat)
    requires n == 64
    ensures Compress(h, block) == Sum(h, Rounds(Schedule(block, n), h, n))
  {
  }

  lemma SumWrittenOut(h: Words, v: Words, i: nat)
    requires i < 8
    ensures Sum(h, v)[i] == Plus(h[i], v[i])
  {
  }

  /** The digest is the words of the last hash value in order, each most significant byte first. */
  lemma HashWrittenOut(m: seq<byte>, i: nat) returns (w: bv32)
    requires i < 8
    ensures w == Fold(Compress, INITIAL, Pad(m))[i]
    ensures Hash(m)[4 * i..4 * i + 4] == BigEndian(w as nat, 4)
  {
    w := Fold(Compress, INITIAL, Pad(m))[i];
    BytesOfAt(Fold(Compress, INITIAL, Pad(m)), i);
  }

  // ---- the source ---------------------------------------------------------

  /** The source adds the four words of the schedule in the opposite order. */
  lemma MixReversed(x: bv32, y: bv32, z: bv32, u: bv32)
    ensures x + y + z + u == u + z + y + x
  {
  }

  function SourceMix(u: bv32, z: bv32, y: bv32, x: bv32): bv32 {
    u + SmallSigma0(z) + y + SmallSigma1(x)
  }

  lemma SourceMixIsMix(x: bv32, y: bv32, z: bv32, u: bv32)
    ensures SourceMix(u, z, y, x) == Mix(x, y, z, u)
  {
    MixReversed(SmallSigma1(x), y, SmallSigma0(z), u);
  }

  lemma ScheduleNext(block: Block, w: seq<bv32>)
    requires w == Schedule(block, |w|)
    ensures w + [NextWord(block, w)] == Schedule(block, |w| + 1)
  {
  }

  /** The first sixteen words are those of the block. */
  method FillBlock(block: Block, w: array<bv32>)
    requires w.Length == 64
    modifies w
    ensures w[..16] == Schedule(block, 16)
  {
    for i := 0 to 16
      invariant w[..i] == Schedule(block, i)
    {
      w[i] := Word(block, i);
      ScheduleNext(block, w[..i]);
      assert w[..i + 1] == w[..i] + [w[i]];
    }
  }

  /** The schedule, filled in place. */
  method FillSchedule(block: Block) returns (w: array<bv32>)
    ensures fresh(w) && w[..] == Schedule(block, 64)
  {
    w := new bv32[64];
    FillBlock(block, w);
    for i := 16 to 64
      invariant w[..i] == Schedule(block, i)
    {
      SourceMixIsMix(w[i - 2], w[i - 7], w[i - 15], w[i - 16]);
      w[i] := SourceMix(w[i - 16], w[i - 15], w[i - 7], w[i - 2]);
      ScheduleNext(block, w[..i]);
      assert w[..i + 1] == w[..i] + [w[i]];
    }
    assert w[..64] == w[..];
  }

  lemma RoundWords(v: Words, t: nat, w: bv32)
    requires t < 64
    ensures var r := Round(v, t, w);
            && r[0] == NewA(v[0], v[1], v[2], v[4], v[5], v[6], v[7], K(t), w)
            && r[4] == NewE(v[3], v[4], v[5], v[6], v[7], K(t), w)
            && r[1] == v[0] && r[2] == v[1] && r[3] == v[2] && r[5] == v[4] && r[6] == v[5] && r[7] == v[6]
  {
  }

  /** The working variables a to h hold the words of `v`. */
  predicate Hold(v: Words, a: bv32, b: bv32, c: bv32, d: bv32, e: bv32, f: bv32, g: bv32, h: bv32) {
    && v[0] == a && v[1] == b && v[2] == c && v[3] == d
    && v[4] == e && v[5] == f && v[6] == g && v[7] == h
  }

  /** The body of the round loop, on the rotating variables. */
  method Rotate(ghost v: Words, t: nat, w: bv32,
                a0: bv32, b0: bv32, c0: bv32, d0: bv32, e0: bv32, f0: bv32, g0: bv32, h0: bv32)
    returns (a: bv32, b: bv32, c: bv32, d: bv32, e: bv32, f: bv32, g: bv32, h: bv32)
    requires t < 64 && Hold(v, a0, b0, c0, d0, e0, f0, g0, h0)
    ensures Hold(Round(v, t, w), a, b, c, d, e, f, g, h)
  {
    RoundWords(v, t, w);
    a, b, c, d, e, f, g, h := a0, b0, c0, d0, e0, f0, g0, h0;
    var t1 := T1(h, e, f, g, K(t), w);
    var t2 := T2(a, b, c);
    h := g;
    g := f;
    f := e;
    e := Plus(d, t1);
    d := c;
    c := b;
    b := a;
    a := Plus(t1, t2);
  }

  /** The round loop. */
  method RunRounds(w: array<bv32>, v0: Words) returns (v: Words)
    requires w.Length == 64
    ensures v == Rounds(w[..], v0, 64)
  {
    var a, b, c, d, e, f, g, h := v0[0], v0[1], v0[2], v0[3], v0[4], v0[5], v0[6], v0[7];
    for i := 0 to 64
      invariant Hold(Rounds(w[..], v0, i), a, b, c, d, e, f, g, h)
    {
      a, b, c, d, e, f, g, h := Rotate(Rounds(w[..], v0, i), i, w[i], a, b, c, d, e, f, g, h);
    }
    v := [a, b, c, d, e, f, g, h];
    HeldEqual(Rounds(w[..], v0, 64), v);
  }

  lemma HeldEqual(u: Words, v: Words)
    requires Hold(u, v[0], v[1], v[2], v[3], v[4], v[5], v[6], v[7])
    ensures u == v
  {
  }

  /** `sha256_compress`, which adds the working variables to the state in place. */
  method CompressInPlace(state: array<bv32>, block: Block)
    requires state.Length == 8
    modifies state
    ensures state[..] == Compress(old(state[..]), block)
  {
    var w := FillSchedule(block);
    var v := RunRounds(w, state[..]);
    AddInPlace(state, v);
  }

  method AddInPlace(state: array<bv32>, v: Words)
    requires state.Length == 8
    modifies state
    ensures state[..] == Sum(old(state[..]), v)
  {
    var sum := Sum(state[..], v);
    for i := 0 to 8
      invariant forall k :: 0 <= k < i ==> state[k] == sum[k]
    {
      state[i] := sum[i];
    }
    assert state[..] == sum;
  }

  method InitialState() returns (state: array<bv32>)
    ensures fresh(state) && state[..] == INITIAL
  {
    var initial := INITIAL;
    state := new bv32[8](i requires 0 <= i < 8 => initial[i]);
  }

  /** The loop of `sha256` over the full blocks, in place. */
  method CompressFull(m: seq<byte>) returns (state: array<bv32>)
    ensures fresh(state) && state.Length == 8
    ensures state[..] == Fold(Compress, INITIAL, m[..|m| / 64 * 64])
  {
    state := InitialState();
    var full := |m| / 64;
    assert m[..0] == [];
    for i := 0 to full
      invariant state[..] == Fold(Compress, INITIAL, m[..64 * i])
    {
      FoldNext(Compress, INITIAL, m, i);
      CompressInPlace(state, m[64 * i..64 * i + 64]);
    }
  }

  /** The one or two blocks of the tail. */
  method CompressTail(state: array<bv32>, tail: seq<byte>, ghost head: seq<byte>, ghost whole: seq<byte>)
    requires state.Length == 8 && (|tail| == 64 || |tail| == 128)
    requires |head| % 64 == 0 && |whole| % 64 == 0 && whole == head + tail
    requires state[..] == Fold(Compress, INITIAL, head)
    modifies state
    ensures state[..] == Fold(Compress, INITIAL, whole)
  {
    var first := tail[..64];
    FoldAppend(Compress, INITIAL, head, first);
    CompressInPlace(state, first);
    if |tail| == 128 {
      FoldTwo(Compress, INITIAL, head, first, tail[64..]);
      Halved(head, tail);
      CompressInPlace(state, tail[64..]);
    } else {
      assert tail == first;
    }
  }

  /** `sha256`. */
  method ComputeHash(m: seq<byte>) returns (out: seq<byte>)
    ensures out == Hash(m)
  {
    var state := CompressFull(m);
    var tail, padLen := BuildTail(m);
    ghost var head := m[..|m| / 64 * 64];
    assert |head| % 64 == 0;
    CompressTail(state, tail[..padLen], head, Pad(m));
    out := PrintWords(state[..]);
  }

  method ComputeHex(m: seq<byte>) returns (out: string)
    ensures out == ToHex(Hash(m))
  {
    var digest := ComputeHash(m);
    out := ComputeToHex(digest);
  }
}
