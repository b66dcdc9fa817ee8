/** SHA-1 (src/hash.cpp:31-87) against sections 4.1.1, 4.2.1, 5.3.1 and 6.1 of FIPS 180-4. */
module Sha1 {
  import opened Rotations
  import opened Sha

  // ---- the standard -------------------------------------------------------

  function Ch(x: bv32, y: bv32, z: bv32): bv32 {
    (x & y) ^ (!x & z)
  }

  function Parity(x: bv32, y: bv32, z: bv32): bv32 {
    x ^ y ^ z
  }

  function Maj(x: bv32, y: bv32, z: bv32): bv32 {
    (x & y) ^ (x & z) ^ (y & z)
  }

  function F(t: nat, x: bv32, y: bv32, z: bv32): bv32 {
    if t < 20 then Ch(x, y, z)
    else if t < 40 then Parity(x, y, z)
    else if t < 60 then Maj(x, y, z)
    else Parity(x, y, z)
  }

  function K(t: nat): bv32 {
    if t < 20 then 0x5A827999
    else if t < 40 then 0x6ED9EBA1
    else if t < 60 then 0x8F1BBCDC
    else 0xCA62C1D6
  }

  function Mix(x: bv32, y: bv32, z: bv32, u: bv32): bv32 {
    Rotl(x ^ y ^ z ^ u, 1)
  }

  /** The next word of the message schedule. */
  function NextWord(block: Block, w: seq<bv32>): bv32 {
    var t := |w|;
    if t < 16 then Word(block, t)
    else Mix(w[t - 3], w[t - 8], w[t - 14], w[t - 16])
  }

  /** The first `n` words of the message schedule. */
  function Schedule(block: Block, n: nat): (w: seq<bv32>)
    ensures |w| == n
  {
    if n == 0 then [] else var w := Schedule(block, n - 1); w + [NextWord(block, w)]
  }

  /** A hash value, and the working variables a to e. */
  type Words = s: seq<bv32> | |s| == 5 witness seq(5, _ => 0)

  function Temp(a: bv32, f: bv32, e: bv32, k: bv32, w: bv32): bv32 {
    Rotl(a, 5) + f + e + k + w
  }

  /** Round `t`: each variable moves one place on, b is rotated on its way, and a is new. */
  function Round(v: Words, t: nat, w: bv32): Words {
    seq(5, i requires 0 <= i < 5 =>
      if i == 0 then Temp(v[0], F(t, v[1], v[2], v[3]), v[4], K(t), w)
      else if i == 2 then Rotl(v[1], 30)
      else v[i - 1])
  }

  /** The working variables after the first `t` rounds. */
  function Rounds(w: seq<bv32>, h: Words, t: nat): Words
    requires t <= |w|
  {
    if t == 0 then h else Round(Rounds(w, h, t - 1), t - 1, w[t - 1])
  }

  function Sum(h: Words, v: Words): Words {
    seq(5, i requires 0 <= i < 5 => Plus(h[i], v[i]))
  }

  function Compress(h: Words, block: Block): Words {
    Sum(h, Rounds(Schedule(block, 80), h, 80))
  }

  const INITIAL: Words := [0x67452301, 0xEFCDAB89, 0x98BADCFE, 0x10325476, 0xC3D2E1F0]

  /** The SHA-1 message digest. */
  function Hash(m: seq<byte>): (s: seq<byte>)
    ensures |s| == 20
  {
    BytesOf(Fold(Compress, INITIAL, Pad(m)))
  }

  // The definitions once more, one by one.

  lemma FWrittenOut(t: nat, x: bv32, y: bv32, z: bv32)
    ensures F(t, x, y, z) ==
            if t < 20 then Ch(x, y, z) else if 40 <= t < 60 then Maj(x, y, z) else Parity(x, y, z)
  {
  }

  lemma ParityWrittenOut(x: bv32, y: bv32, z: bv32)
    ensures Parity(x, y, z) == x ^ y ^ z
  {
  }

  lemma StepsWrittenOut(a: bv32, f: bv32, e: bv32, k: bv32, w: bv32)
    ensures Temp(a, f, e, k, w) == Rotl(a, 5) + f + e + k + w
  {
  }

  lemma MixWrittenOut(x: bv32, y: bv32, z: bv32, u: bv32)
    ensures Mix(x, y, z, u) == Rotl(x ^ y ^ z ^ u, 1)
  {
  }

  lemma NextWordWrittenOut(block: Block, w: seq<bv32>)
    ensures var t := |w|;
            NextWord(block, w) == if t < 16 then Word(block, t) else Mix(w[t - 3], w[t - 8], w[t - 14], w[t - 16])
  {
  }

  /** The first words of the schedule are those of every longer one. */
  lemma SchedulePrefix(block: Block, n: nat, t: nat)
    requires t <= n
    ensures Schedule(block, n)[..t] == Schedule(block, t)
  {
    var schedules := seq(n + 1, k requires 0 <= k <= n => Schedule(block, k));
    forall k | 0 <= k < n ensures schedules[k] <= schedules[k + 1] {
      ScheduleGrows(block, k + 1);
    }
    Growing(schedules, n, t);
  }

  lemma ScheduleGrows(block: Block, n: nat)
    requires n > 0
    ensures Schedule(block, n) == Schedule(block, n - 1) + [NextWord(block, Schedule(block, n - 1))]
  {
  }

  /** Each word of the schedule comes from the words before it. */
  lemma ScheduleWrittenOut(block: Block, n: nat, t: nat)
    requires t < n
    ensures Schedule(block, n)[t] == NextWord(block, Schedule(block, n)[..t])
  {
    SchedulePrefix(block, n, t + 1);
    SchedulePrefix(block, n, t);
    ScheduleGrows(block, t + 1);
    assert Schedule(block, n)[..t + 1][t] == Schedule(block, n)[t];
  }

  lemma RoundsWrittenOut(w: seq<bv32>, h: Words, t: nat)
    requires t < |w|
    ensures Rounds(w, h, 0) == h
    ensures Rounds(w, h, t + 1) == Round(Rounds(w, h, t), t, w[t])
  {
  }

  lemma CompressWrittenOut(h: Words, block: Block, n: nat)
    requires n == 80
    ensures Compress(h, block) == Sum(h, Rounds(Schedule(block, n), h, n))
  {
  }

  lemma SumWrittenOut(h: Words, v: Words, i: nat)
    requires i < 5
    ensures Sum(h, v)[i] == Plus(h[i], v[i])
  {
  }

  /** The digest is the words of the last hash value in order, each most significant byte first. */
  lemma HashWrittenOut(m: seq<byte>, i: nat) returns (w: bv32)
    requires i < 5
    ensures w == Fold(Compress, INITIAL, Pad(m))[i]
    ensures Hash(m)[4 * i..4 * i + 4] == BigEndian(w as nat, 4)
  {
    w := Fold(Compress, INITIAL, Pad(m))[i];
    BytesOfAt(Fold(Compress, INITIAL, Pad(m)), i);
  }

  // ---- the source ---------------------------------------------------------

  /** The OR forms of the source are the XOR forms of the standard. */
  lemma ChForm(x: bv32, y: bv32, z: bv32)
    ensures (x & y) | (!x & z) == Ch(x, y, z)
  {
  }

  lemma MajForm(x: bv32, y: bv32, z: bv32)
    ensures (x & y) | (x & z) | (y & z) == Maj(x, y, z)
  {
  }

  /** The function of a round, in the forms of the source. */
  function RoundFunction(i: nat, b: bv32, c: bv32, d: bv32): bv32 {
    if i < 20 then (b & c) | (!b & d)
    else if i < 40 then b ^ c ^ d
    else if i < 60 then (b & c) | (b & d) | (c & d)
    else b ^ c ^ d
  }

  lemma RoundFunctionIsF(i: nat, b: bv32, c: bv32, d: bv32)
    ensures RoundFunction(i, b, c, d) == F(i, b, c, d)
  {
    ChForm(b, c, d);
    MajForm(b, c, d);
  }

  lemma ScheduleNext(block: Block, w: seq<bv32>)
    requires w == Schedule(block, |w|)
    ensures w + [NextWord(block, w)] == Schedule(block, |w| + 1)
  {
  }

  /** The first sixteen words are those of the block. */
  method FillBlock(block: Block, w: array<bv32>)
    requires w.Length == 80
    modifies w
    ensures w[..16] == Schedule(block, 16)
  {
    for i := 0 to 16
      invariant w[..i] == Schedule(block, i)
    {
      w[i] := Word(block, i);
      ScheduleNext(block, w[..i]);
      assert w[..i + 1] == w[..i] + [w[i]];
    }
  }

  /** The schedule, filled in place. */
  method FillSchedule(block: Block) returns (w: array<bv32>)
    ensures fresh(w) && w[..] == Schedule(block, 80)
  {
    w := new bv32[80];
    FillBlock(block, w);
    for i := 16 to 80
      invariant w[..i] == Schedule(block, i)
    {
      w[i] := Mix(w[i - 3], w[i - 8], w[i - 14], w[i - 16]);
      ScheduleNext(block, w[..i]);
      assert w[..i + 1] == w[..i] + [w[i]];
    }
    assert w[..80] == w[..];
  }

  lemma RoundOf(i: nat, w: bv32, a: bv32, b: bv32, c: bv32, d: bv32, e: bv32)
    ensures Round([a, b, c, d, e], i, w) == [Temp(a, RoundFunction(i, b, c, d), e, K(i), w), a, Rotl(b, 30), c, d]
  {
    RoundFunctionIsF(i, b, c, d);
  }

  /** The body of the round loop, on the rotating variables. */
  method Rotate(i: nat, w: bv32, a0: bv32, b0: bv32, c0: bv32, d0: bv32, e0: bv32)
    returns (a: bv32, b: bv32, c: bv32, d: bv32, e: bv32)
    ensures [a, b, c, d, e] == Round([a0, b0, c0, d0, e0], i, w)
  {
    a, b, c, d, e := a0, b0, c0, d0, e0;
    RoundOf(i, w, a, b, c, d, e);
    var t := Temp(a, RoundFunction(i, b, c, d), e, K(i), w);
    e := d;
    d := c;
    c := Rotl(b, 30);
    b := a;
    a := t;
  }

  /** The round loop: the rotating variables compute the rounds of the standard. */
  method RunRounds(w: array<bv32>, h: Words) returns (v: Words)
    requires w.Length == 80
    ensures v == Rounds(w[..], h, 80)
  {
    var a, b, c, d, e := h[0], h[1], h[2], h[3], h[4];
    assert h == [a, b, c, d, e];
    for i := 0 to 80
      invariant [a, b, c, d, e] == Rounds(w[..], h, i)
    {
      a, b, c, d, e := Rotate(i, w[i], a, b, c, d, e);
    }
    return [a, b, c, d, e];
  }

  /** `sha1_compress`, which adds the working variables to the state in place. */
  method CompressInPlace(state: array<bv32>, block: Block)
    requires state.Length == 5
    modifies state
    ensures state[..] == Compress(old(state[..]), block)
  {
    var w := FillSchedule(block);
    var v := RunRounds(w, state[..]);
    AddInPlace(state, v);
  }

  method AddInPlace(state: array<bv32>, v: Words)
    requires state.Length == 5
    modifies state
    ensures state[..] == Sum(old(state[..]), v)
  {
    var sum := Sum(state[..], v);
    for i := 0 to 5
      invariant forall k :: 0 <= k < i ==> state[k] == sum[k]
    {
      state[i] := sum[i];
    }
    assert state[..] == sum;
  }

  method InitialState() returns (state: array<bv32>)
    ensures fresh(state) && state[..] == INITIAL
  {
    var initial := INITIAL;
    state := new bv32[5](i requires 0 <= i < 5 => initial[i]);
  }

  /** The loop of `sha1` over the full blocks, in place. */
  method CompressFull(m: seq<byte>) returns (state: array<bv32>)
    ensures fresh(state) && state.Length == 5
    ensures state[..] == Fold(Compress, INITIAL, m[..|m| / 64 * 64])
  {
    state := InitialState();
    var full := |m| / 64;
    assert m[..0] == [];
    for i := 0 to full
      invariant state[..] == Fold(Compress, INITIAL, m[..64 * i])
    {
      FoldNext(Compress, INITIAL, m, i);
      CompressInPlace(state, m[64 * i..64 * i + 64]);
    }
  }

  /** The one or two blocks of the tail. */
  method CompressTail(state: array<bv32>, tail: seq<byte>, ghost head: seq<byte>, ghost whole: seq<byte>)
    requires state.Length == 5 && (|tail| == 64 || |tail| == 128)
    requires |head| % 64 == 0 && |whole| % 64 == 0 && whole == head + tail
    requires state[..] == Fold(Compress, INITIAL, head)
    modifies state
    ensures state[..] == Fold(Compress, INITIAL, whole)
  {
    var first := tail[..64];
    FoldAppend(Compress, INITIAL, head, first);
    CompressInPlace(state, first);
    if |tail| == 128 {
      FoldTwo(Compress, INITIAL, head, first, tail[64..]);
      Halved(head, tail);
      CompressInPlace(state, tail[64..]);
    } else {
      assert tail == first;
    }
  }

  /** `sha1`. */
  method ComputeHash(m: seq<byte>) returns (out: seq<byte>)
    ensures out == Hash(m)
  {
    var state := CompressFull(m);
    var tail, padLen := BuildTail(m);
    ghost var head := m[..|m| / 64 * 64];
    assert |head| % 64 == 0;
    CompressTail(state, tail[..padLen], head, Pad(m));
    out := PrintWords(state[..]);
  }

  method ComputeHex(m: seq<byte>) returns (out: string)
    ensures out == ToHex(Hash(m))
  {
    var digest := ComputeHash(m);
    out := ComputeToHex(digest);
  }
}
