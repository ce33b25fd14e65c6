/** Byte-level building blocks shared by the firmware and the host codecs:
    the protocol constants, the XOR checksum fold and little-endian
    32-bit words. */
module Wire {

  /** Start-of-frame marker of the packet protocol. */
  const STX: bv8 := 0x02
  /** Smallest and largest total frame length (STX through XOR inclusive). */
  const MIN_PACKET_SIZE: nat := 5
  const MAX_PACKET_SIZE: nat := 256
  /** Number of motor slots; motor numbers run from 1 to MAX_MOTORS. */
  const MAX_MOTORS: nat := 10
  datatype Result<T, E> = Ok(value: T) | Err(error: E)

  // ---------------------------------------------------------------------
  // XOR checksum

  /** The checksum of the protocol: the left XOR fold of the bytes,
      starting from 0. */
  function XorFold(s: seq<bv8>): bv8
  {
    if s == [] then 0 else XorFold(s[..|s| - 1]) ^ s[|s| - 1]
  }

  /** The fold distributes over concatenation. */
  lemma {:induction false} XorFoldAppend(a: seq<bv8>, b: seq<bv8>)
    ensures XorFold(a + b) == XorFold(a) ^ XorFold(b)
  {
    if b == [] {
      assert a + b == a;
    } else {
      assert (a + b)[..|a + b| - 1] == a + b[..|b| - 1];
      XorFoldAppend(a, b[..|b| - 1]);
    }
  }

  /** Peeling the first byte off the fold. */
  lemma XorFoldCons(x: bv8, s: seq<bv8>)
    ensures XorFold([x] + s) == x ^ XorFold(s)
  {
    XorFoldAppend([x], s);
    assert [x][..0] == [];
  }

  /** Appending one byte XORs it into the fold. */
  lemma XorFoldSnoc(s: seq<bv8>, x: bv8)
    ensures XorFold(s + [x]) == XorFold(s) ^ x
  {
    assert (s + [x])[..|s|] == s;
  }

  /** The fold of a three-byte string. */
  lemma XorFoldThree(a: bv8, b: bv8, c: bv8)
    ensures XorFold([a, b, c]) == a ^ b ^ c
  {
    XorFoldSnoc([], a);
    XorFoldSnoc([a], b);
    XorFoldSnoc([a, b], c);
    assert [] + [a] == [a] && [a] + [b] == [a, b] && [a, b] + [c] == [a, b, c];
  }

  /** Appending its own checksum to a byte string makes the XOR of the
      whole string zero. */
  lemma XorFoldWithChecksum(s: seq<bv8>)
    ensures XorFold(s + [XorFold(s)]) == 0
  {
    assert (s + [XorFold(s)])[..|s|] == s;
  }

  /** Flipping the bits m of one byte flips the same bits of the checksum,
      so every non-zero corruption of a single byte changes it. */
  lemma XorFoldFlip(s: seq<bv8>, t: seq<bv8>, i: nat, m: bv8)
    requires i < |s| && t == s[i := s[i] ^ m]
    ensures XorFold(t) == XorFold(s) ^ m
  {
    var before, after := s[..i], s[i + 1..];
    assert s == (before + [s[i]]) + after;
    assert t == (before + [s[i] ^ m]) + after;
    XorFoldAppend(before + [s[i]], after);
    XorFoldAppend(before + [s[i] ^ m], after);
    XorFoldSnoc(before, s[i]);
    XorFoldSnoc(before, s[i] ^ m);
  }

  // ---------------------------------------------------------------------
  // Bytes and numbers

  /** Adding one to a byte below 255 adds one to its value. */
  lemma ByteIncrement(b: bv8)
    requires b as nat < 255
    ensures (b + 1) as nat == b as nat + 1
  {
  }

  /** The byte whose value is k. */
  function ByteOf(k: nat): (b: bv8)
    requires k < 256
    ensures b as nat == k
  {
    if k == 0 then 0 else ByteIncrement(ByteOf(k - 1)); ByteOf(k - 1) + 1
  }

  lemma ByteOfValue(b: bv8, k: nat)
    requires k == b as nat
    ensures k as bv8 == b
  {
  }

  /** Truncating a number below 256 to a byte keeps its value. */
  lemma ByteOfSmall(k: nat)
    requires k < 256
    ensures (k as bv8) as nat == k
  {
    ByteOfValue(ByteOf(k), k);
  }

  lemma DivMod256(n: nat, q: nat, r: nat)
    requires r < 256 && n == q * 256 + r
    ensures n / 256 == q && n % 256 == r
  {
  }

  // ---------------------------------------------------------------------
  // Little-endian 32-bit words

  /** An unsigned 8-bit value (`uint8_t`) held as a number. */
  type U8 = x: int | 0 <= x < 256

  /** An unsigned 32-bit value (`uint32_t`, `struct` format `I`). */
  type Word = x: int | 0 <= x < 0x1_0000_0000

  /** The four bytes of x, least significant first. */
  function LeBytes(x: Word): (r: seq<bv8>)
    ensures |r| == 4
  {
    [(x % 256) as bv8, (x / 0x100 % 256) as bv8, (x / 0x1_0000 % 256) as bv8, (x / 0x100_0000) as bv8]
  }

  /** The 32-bit word whose little-endian bytes start at s[off]. */
  function LeWordAt(s: seq<bv8>, off: nat): Word
    requires off + 4 <= |s|
  {
    s[off] as int + 256 * (s[off + 1] as int + 256 * (s[off + 2] as int + 256 * s[off + 3] as int))
  }

  /** The base-256 digits of a word. */
  lemma Digits(x: Word, b0: nat, b1: nat, b2: nat, b3: nat)
    requires b0 < 256 && b1 < 256 && b2 < 256 && b3 < 256
    requires x == b0 + 256 * (b1 + 256 * (b2 + 256 * b3))
    ensures x % 256 == b0 && x / 0x100 % 256 == b1 && x / 0x1_0000 % 256 == b2 && x / 0x100_0000 == b3
  {
    var q1 := b1 + 256 * (b2 + 256 * b3);
    DivMod256(x, q1, b0);
    var q2 := b2 + 256 * b3;
    DivMod256(q1, q2, b1);
    DivMod256(q2, b3, b2);
    assert x / 0x100 == q1;
  }

  /** A word is the sum of its base-256 digits. */
  lemma DigitsSum(x: Word)
    ensures x == x % 256 + 256 * (x / 0x100 % 256 + 256 * (x / 0x1_0000 % 256 + 256 * (x / 0x100_0000)))
  {
    DivMod256(x, x / 256, x % 256);
    DivMod256(x / 256, x / 0x1_0000, x / 0x100 % 256);
    DivMod256(x / 0x1_0000, x / 0x100_0000, x / 0x1_0000 % 256);
  }

  /** The bytes of a word hold its base-256 digits. */
  lemma LeBytesValues(x: Word, r: seq<bv8>)
    requires r == LeBytes(x)
    ensures r[0] as int == x % 256 && r[1] as int == x / 0x100 % 256
    ensures r[2] as int == x / 0x1_0000 % 256 && r[3] as int == x / 0x100_0000
  {
    DigitsSum(x);
    ByteOfSmall(x % 256);
    ByteOfSmall(x / 0x100 % 256);
    ByteOfSmall(x / 0x1_0000 % 256);
    ByteOfSmall(x / 0x100_0000);
  }

  /** Reading back the bytes of a word gives the word. */
  lemma LeWordOfBytes(x: Word, s: seq<bv8>, off: nat)
    requires off + 4 <= |s| && s[off..off + 4] == LeBytes(x)
    ensures LeWordAt(s, off) == x
  {
    LeBytesValues(x, s[off..off + 4]);
    assert s[off] == s[off..off + 4][0] && s[off + 1] == s[off..off + 4][1];
    assert s[off + 2] == s[off..off + 4][2] && s[off + 3] == s[off..off + 4][3];
    DigitsSum(x);
  }

  /** Writing out a word read from four bytes gives those bytes. */
  lemma LeBytesOfWord(s: seq<bv8>, off: nat)
    requires off + 4 <= |s|
    ensures LeBytes(LeWordAt(s, off)) == s[off..off + 4]
  {
    Digits(LeWordAt(s, off), s[off] as nat, s[off + 1] as nat, s[off + 2] as nat, s[off + 3] as nat);
    ByteOfValue(s[off], s[off] as nat);
    ByteOfValue(s[off + 1], s[off + 1] as nat);
    ByteOfValue(s[off + 2], s[off + 2] as nat);
    ByteOfValue(s[off + 3], s[off + 3] as nat);
  }
}

/** The 16-bit masks in which the firmware keeps one bit per motor slot
    (bit n-1 for motor n). A mask is represented by the set of the
    positions of its 1 bits: `m |= 1 << k` is `m + {k}`, `m &= ~(1 << k)`
    is `m - {k}`, `m & (1 << k) != 0` is `k in m`, `(a & b) == a` is
    `a <= b`, `m != 0` is `m != {}` and `m & 0x3FF` is `m * MOTOR_SLOTS`. */
module Masks {

  type Mask = set<nat>

  /** The positions 0..9, one per motor slot: the mask 0x3FF. */
  const MOTOR_SLOTS: Mask := {0, 1, 2, 3, 4, 5, 6, 7, 8, 9}

  /** Every position of m lies inside a 16-bit word. */
  predicate InWord(m: Mask)
  {
    forall k :: k in m ==> k < 16
  }

  lemma MotorSlotsExactly(k: nat)
    ensures k in MOTOR_SLOTS <==> k < 10
  {
  }

  /** `allComplete()` of both engines: some motor is active and
      `(active & completed) == active`. */
  function AllMotorsComplete(active: Mask, completed: Mask): (r: bool)
    ensures r <==> active != {} && forall k :: k in active ==> k in completed
  {
    active != {} && active * completed == active
  }
}
