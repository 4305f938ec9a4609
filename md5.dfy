/** The MD5 implementation of src/core/util/Cache.cpp, in the style of
    RFC 1321: a context of four 32-bit words, a byte counter and a 64-byte
    buffer, fed by `md5_update` and closed by `md5_final`.

    The context absorbs a byte stream; `Valid` ties its words to the
    compression of the stream's complete blocks and its buffer to the rest.
    `md5_final` as written counts the padding into the length field it
    appends (`Final`); `FinalCorrected` appends the message length as
    section 3.2 of RFC 1321 requires. */
module Md5 {

  /** `uint8_t`. */
  newtype byte = x: int | 0 <= x < 256

  /** 2^64: `total_bytes` and the bit length are `uint64_t`, kept here as
      naturals reduced modulo 2^64 wherever the code's arithmetic wraps. */
  const U64: int := 0x1_0000_0000_0000_0000

  /** `uint32_t`. */
  newtype uint32 = x: int | 0 <= x < 0x1_0000_0000

  /** 2^32. */
  const U32: int := 0x1_0000_0000

  /** A rotation amount: `leftrotate` shifts by c and by 32 - c, both
      within the width. */
  type Amount = c: nat | 0 < c < 32 witness 1

  // ---------------------------------------------------------------------
  // Tables
  // ---------------------------------------------------------------------

  /** The initial words A, B, C, D of section 3.3 of RFC 1321. */
  const InitH: seq<uint32> := [0x67452301, 0xefcdab89, 0x98badcfe, 0x10325476]

  /** The additive constants `K`. */
  const K: seq<uint32> := [
    0xd76aa478, 0xe8c7b756, 0x242070db, 0xc1bdceee, 0xf57c0faf, 0x4787c62a, 0xa8304613, 0xfd469501,
    0x698098d8, 0x8b44f7af, 0xffff5bb1, 0x895cd7be, 0x6b901122, 0xfd987193, 0xa679438e, 0x49b40821,
    0xf61e2562, 0xc040b340, 0x265e5a51, 0xe9b6c7aa, 0xd62f105d, 0x02441453, 0xd8a1e681, 0xe7d3fbc8,
    0x21e1cde6, 0xc33707d6, 0xf4d50d87, 0x455a14ed, 0xa9e3e905, 0xfcefa3f8, 0x676f02d9, 0x8d2a4c8a,
    0xfffa3942, 0x8771f681, 0x6d9d6122, 0xfde5380c, 0xa4beea44, 0x4bdecfa9, 0xf6bb4b60, 0xbebfbc70,
    0x289b7ec6, 0xeaa127fa, 0xd4ef3085, 0x04881d05, 0xd9d4d039, 0xe6db99e5, 0x1fa27cf8, 0xc4ac5665,
    0xf4292244, 0x432aff97, 0xab9423a7, 0xfc93a039, 0x655b59c3, 0x8f0ccc92, 0xffeff47d, 0x85845dd1,
    0x6fa87e4f, 0xfe2ce6e0, 0xa3014314, 0x4e0811a1, 0xf7537e82, 0xbd3af235, 0x2ad7d2bb, 0xeb86d391]

  /** The rotation amounts `S`. */
  const S: seq<Amount> := [
    7, 12, 17, 22, 7, 12, 17, 22, 7, 12, 17, 22, 7, 12, 17, 22,
    5, 9, 14, 20, 5, 9, 14, 20, 5, 9, 14, 20, 5, 9, 14, 20,
    4, 11, 16, 23, 4, 11, 16, 23, 4, 11, 16, 23, 4, 11, 16, 23,
    6, 10, 15, 21, 6, 10, 15, 21, 6, 10, 15, 21, 6, 10, 15, 21]

  lemma TableSizes()
    ensures |K| == 64 && |S| == 64
  {
  }

  // ---------------------------------------------------------------------
  // 32-bit arithmetic
  // ---------------------------------------------------------------------

  /** 2^n. */
  function Pow2(n: nat): (r: nat)
    ensures r > 0
  {
    if n == 0 then 1 else 2 * Pow2(n - 1)
  }

  lemma Pow2Word()
    ensures Pow2(32) == U32
  {
    assert Pow2(8) == 0x100;
    assert Pow2(16) == 0x1_0000;
    assert Pow2(24) == 0x100_0000;
  }

  /** The low n bits of x and y combined bit by bit: `&` when `both`,
      otherwise `|` when `either`, otherwise `^`. */
  function BitOp(x: nat, y: nat, n: nat, both: bool, either: bool): (r: nat)
    ensures r < Pow2(n)
  {
    if n == 0 then 0
    else
      var xb := x % 2 == 1;
      var yb := y % 2 == 1;
      var bit := if both then xb && yb else if either then xb || yb else xb != yb;
      2 * BitOp(x / 2, y / 2, n - 1, both, either) + (if bit then 1 else 0)
  }

  /** `x & y`. */
  function And(x: uint32, y: uint32): uint32 {
    Pow2Word();
    BitOp(x as nat, y as nat, 32, true, true) as uint32
  }

  /** `x | y`. */
  function Or(x: uint32, y: uint32): uint32 {
    Pow2Word();
    BitOp(x as nat, y as nat, 32, false, true) as uint32
  }

  /** `x ^ y`. */
  function Xor(x: uint32, y: uint32): uint32 {
    Pow2Word();
    BitOp(x as nat, y as nat, 32, false, false) as uint32
  }

  /** `~x`. */
  function Not(x: uint32): uint32 {
    (U32 - 1 - x as int) as uint32
  }

  /** `x + y`, wrapping. */
  function Add(x: uint32, y: uint32): uint32 {
    ((x as int + y as int) % U32) as uint32
  }

  /** `x << c`: c doublings, each dropping the bit shifted out. */
  function Shl(x: uint32, c: nat): uint32 {
    if c == 0 then x else ((2 * Shl(x, c - 1) as int) % U32) as uint32
  }

  /** `x >> c`: c halvings. */
  function Shr(x: uint32, c: nat): (r: uint32)
    ensures r <= x
  {
    if c == 0 then x else Shr(x, c - 1) / 2
  }

  // ---------------------------------------------------------------------
  // One block
  // ---------------------------------------------------------------------

  /** `leftrotate`. */
  function LeftRotate(x: uint32, c: Amount): uint32 {
    Or(Shl(x, c), Shr(x, 32 - c))
  }

  /** `leftrotate` is a rotation: the low 32 - c bits of x move up by c,
      and its high c bits come round to the bottom. The two parts have no
      bit in common, so the `|` adds them. */
  lemma LeftRotateValue(x: uint32, c: Amount)
    ensures LeftRotate(x, c) as int == (x as int * Pow2(c)) % U32 + x as int / Pow2(32 - c)
  {
    ShlValue(x, c);
    ShrValue(x, 32 - c);
    var p := Pow2(c);
    var pl := Pow2(32 - c);
    Pow2Add(c, 32 - c);
    Pow2Word();
    var q := x as int / pl;
    var r := x as int % pl;
    ShiftedParts(x as int, p, pl, q, r);
    OrDisjoint(p * r, q, 32, c, r);
  }

  /** With x = pl * q + r below p * pl = 2^32: x * p leaves p * r modulo
      2^32, and q is below p. */
  lemma ShiftedParts(x: int, p: nat, pl: nat, q: int, r: int)
    requires p > 0 && pl > 0 && p * pl == U32 && 0 <= x < U32
    requires q == x / pl && r == x % pl
    ensures (x * p) % U32 == p * r && 0 <= p * r < U32
    ensures 0 <= q < p
  {
    assert x * p == U32 * q + p * r by {
      assert x == pl * q + r;
      MulDistrib(p, pl * q, r);
      MulAssoc(p, pl, q);
    }
    MulBelow(p, r, pl);
    DivUnique(x * p, U32, q, p * r);
    assert q >= 0;
  }

  lemma MulDistrib(a: int, b: int, c: int)
    ensures a * (b + c) == a * b + a * c
  {
  }

  lemma MulAssoc(a: int, b: int, c: int)
    ensures a * (b * c) == (a * b) * c
  {
  }

  /** 0 <= r < pl gives 0 <= p * r < p * pl. */
  lemma MulBelow(p: nat, r: int, pl: nat)
    requires p > 0 && 0 <= r < pl
    ensures 0 <= p * r < p * pl
  {
    MulMono(p, r, pl - 1);
    MulDistrib(p, pl - 1, 1);
  }

  lemma {:induction false} MulMono(m: nat, a: int, b: int)
    requires 0 <= a <= b
    ensures 0 <= m * a <= m * b
    decreases m
  {
    if m > 0 {
      MulMono(m - 1, a, b);
      assert m * a == (m - 1) * a + a;
      assert m * b == (m - 1) * b + b;
    }
  }

  /** Doubling commutes with reduction modulo 2^32. */
  lemma ModDouble(a: int)
    ensures (2 * (a % 0x1_0000_0000)) % 0x1_0000_0000 == (2 * a) % 0x1_0000_0000
  {
    var q := a / 0x1_0000_0000;
    var r := a % 0x1_0000_0000;
    if 2 * r < 0x1_0000_0000 {
      DivUnique(2 * r, 0x1_0000_0000, 0, 2 * r);
      DivUnique(2 * a, 0x1_0000_0000, 2 * q, 2 * r);
    } else {
      DivUnique(2 * r, 0x1_0000_0000, 1, 2 * r - 0x1_0000_0000);
      DivUnique(2 * a, 0x1_0000_0000, 2 * q + 1, 2 * r - 0x1_0000_0000);
    }
  }

  /** `x << c` keeps the low 32 bits of x times 2^c. */
  lemma {:induction false} ShlValue(x: uint32, c: nat)
    ensures Shl(x, c) as int == (x as int * Pow2(c)) % U32
  {
    if c > 0 {
      ShlValue(x, c - 1);
      var a := x as int * Pow2(c - 1);
      assert x as int * Pow2(c) == 2 * a by {
        MulAssoc(x as int, 2, Pow2(c - 1));
      }
      ModDouble(a);
    }
  }

  /** `x >> c` is x divided by 2^c, rounded down. */
  lemma {:induction false} ShrValue(x: uint32, c: nat)
    ensures Shr(x, c) as int == x as int / Pow2(c)
  {
    if c > 0 {
      ShrValue(x, c - 1);
      HalfQuotient(x as int, Pow2(c - 1));
    }
  }

  /** Halving the quotient by p is the quotient by 2 * p. */
  lemma HalfQuotient(a: nat, p: nat)
    requires p > 0
    ensures (a / p) / 2 == a / (2 * p)
  {
    var q := a / p;
    var r := a % p;
    assert a == p * q + r;
    assert q == 2 * (q / 2) + q % 2;
    assert p * q == (2 * p) * (q / 2) + p * (q % 2) by {
      MulDistrib(p, 2 * (q / 2), q % 2);
      MulAssoc(p, 2, q / 2);
    }
    assert p * (q % 2) <= p by {
      MulMono(p, q % 2, 1);
    }
    DivUnique(a, 2 * p, q / 2, p * (q % 2) + r);
  }

  lemma {:induction false} Pow2Add(a: nat, b: nat)
    ensures Pow2(a + b) == Pow2(a) * Pow2(b)
    decreases a
  {
    if a > 0 {
      Pow2Add(a - 1, b);
      assert Pow2(a + b) == 2 * Pow2(a - 1 + b);
      MulAssoc(2, Pow2(a - 1), Pow2(b));
    }
  }

  /** Quotient and remainder are the unique pair that rebuilds a. */
  lemma DivUnique(a: int, m: int, k: int, s: int)
    requires m > 0 && a == m * k + s && 0 <= s < m
    ensures a / m == k && a % m == s
  {
    var q := a / m;
    var r := a % m;
    assert a == m * q + r;
    if q > k {
      MulMono(m, 1, q - k);
      MulDistrib(m, k, q - k);
    } else if q < k {
      MulMono(m, 1, k - q);
      MulDistrib(m, q, k - q);
    }
  }

  /** Or-ing a multiple of 2^m with a number below 2^m adds them. */
  lemma {:induction false} OrDisjoint(hi: nat, lo: nat, n: nat, m: nat, q: nat)
    requires m <= n && hi == Pow2(m) * q && hi < Pow2(n) && lo < Pow2(m)
    ensures BitOp(hi, lo, n, false, true) == hi + lo
    decreases m
  {
    if m == 0 {
      OrZero(hi, n);
    } else {
      assert hi == 2 * (Pow2(m - 1) * q) by {
        MulAssoc(2, Pow2(m - 1), q);
      }
      OrDisjoint(hi / 2, lo / 2, n - 1, m - 1, q);
    }
  }

  lemma {:induction false} OrZero(x: nat, n: nat)
    requires x < Pow2(n)
    ensures BitOp(x, 0, n, false, true) == x
    decreases n
  {
    if n > 0 {
      OrZero(x / 2, n - 1);
    }
  }

  /** The auxiliary function of step i: F, G, H or I of section 3.4 of
      RFC 1321, written as the code writes them. */
  function Aux(i: nat, b: uint32, c: uint32, d: uint32): uint32
    requires i < 64
  {
    if i < 16 then Or(And(b, c), And(Not(b), d))
    else if i < 32 then Or(And(d, b), And(Not(d), c))
    else if i < 48 then Xor(Xor(b, c), d)
    else Xor(c, Or(b, Not(d)))
  }

  /** The message word used by step i. The code masks with `& 0x0F` in
      32-bit arithmetic; the operands stay below 2^32 and are not
      negative, so the mask is the remainder modulo 16. */
  function MessageIndex(i: nat): (g: nat)
    requires i < 64
    ensures g < 16
  {
    if i < 16 then i
    else if i < 32 then (5 * i + 1) % 16
    else if i < 48 then (3 * i + 5) % 16
    else (7 * i) % 16
  }

  /** The word order of the first two rounds is the one RFC 1321 lists
      in section 3.4. */
  lemma MessageOrder()
    ensures seq(16, k requires 0 <= k < 16 => MessageIndex(k)) == [0, 1, 2, 3, 4, 5, 6, 7, 8, 9, 10, 11, 12, 13, 14, 15]
    ensures seq(16, k requires 0 <= k < 16 => MessageIndex(16 + k)) == [1, 6, 11, 0, 5, 10, 15, 4, 9, 14, 3, 8, 13, 2, 7, 12]
  {
  }

  /** And so is the word order of the last two rounds. */
  lemma MessageOrderLate()
    ensures seq(16, k requires 0 <= k < 16 => MessageIndex(32 + k)) == [5, 8, 11, 14, 1, 4, 7, 10, 13, 0, 3, 6, 9, 12, 15, 2]
    ensures seq(16, k requires 0 <= k < 16 => MessageIndex(48 + k)) == [0, 7, 14, 5, 12, 3, 10, 1, 8, 15, 6, 13, 4, 11, 2, 9]
  {
  }

  /** The four working registers a, b, c, d. */
  datatype Quad = Quad(a: uint32, b: uint32, c: uint32, d: uint32)

  /** Step i of `md5_transform`: the registers rotate and b takes the new
      value. */
  function Round(q: Quad, w: seq<uint32>, i: nat): Quad
    requires |w| == 16 && i < 64
  {
    TableSizes();
    var sum := Add(Add(Add(q.a, Aux(i, q.b, q.c, q.d)), K[i]), w[MessageIndex(i)]);
    Quad(q.d, Add(q.b, LeftRotate(sum, S[i])), q.b, q.c)
  }

  /** The first n steps. */
  function Rounds(q: Quad, w: seq<uint32>, n: nat): Quad
    requires |w| == 16 && n <= 64
  {
    if n == 0 then q else Round(Rounds(q, w, n - 1), w, n - 1)
  }

  /** The little-endian word at byte j. The code ORs the bytes shifted
      by 0, 8, 16 and 24 bits; they occupy disjoint bits, so the ORs are
      sums. */
  function Word(block: seq<byte>, j: nat): uint32
    requires j + 4 <= |block|
  {
    (block[j] as int + 0x100 * block[j + 1] as int + 0x1_0000 * block[j + 2] as int + 0x100_0000 * block[j + 3] as int) as uint32
  }

  /** The sixteen words of a block. */
  function Words(block: seq<byte>): (w: seq<uint32>)
    requires |block| == 64
    ensures |w| == 16
  {
    seq(16, i requires 0 <= i < 16 => Word(block, 4 * i))
  }

  /** `md5_transform`: the 64 steps, then each register added to its word. */
  function Transform(h: seq<uint32>, block: seq<byte>): (r: seq<uint32>)
    requires |h| == 4 && |block| == 64
    ensures |r| == 4
  {
    var q := Rounds(Quad(h[0], h[1], h[2], h[3]), Words(block), 64);
    [Add(h[0], q.a), Add(h[1], q.b), Add(h[2], q.c), Add(h[3], q.d)]
  }

  /** The words after compressing the complete blocks of a stream, from
      the initial words. */
  function Blocks(bytes: seq<byte>): (h: seq<uint32>)
    requires |bytes| % 64 == 0
    ensures |h| == 4
    decreases |bytes|
  {
    if bytes == [] then InitH
    else Transform(Blocks(bytes[..|bytes| - 64]), bytes[|bytes| - 64..])
  }

  /** One more block is one more transform. */
  lemma BlocksSnoc(x: seq<byte>, block: seq<byte>)
    requires |x| % 64 == 0 && |block| == 64
    ensures |x + block| % 64 == 0
    ensures Blocks(x + block) == Transform(Blocks(x), block)
  {
    var y := x + block;
    assert y[..|y| - 64] == x;
    assert y[|y| - 64..] == block;
  }

  /** The bytes of a list of blocks, in order. */
  function Flatten(blocks: seq<seq<byte>>): (r: seq<byte>)
    ensures |blocks| == 0 ==> r == []
  {
    if blocks == [] then [] else Flatten(blocks[..|blocks| - 1]) + blocks[|blocks| - 1]
  }

  /** State k + 1 of a chain is the transform of state k by block k. */
  ghost predicate ChainStep(states: seq<seq<uint32>>, blocks: seq<seq<byte>>, k: nat)
    requires k < |blocks| && k + 1 < |states|
  {
    |states[k]| == 4 && |blocks[k]| == 64 && states[k + 1] == Transform(states[k], blocks[k])
  }

  /** The states a context goes through: the initial words, then one
      transform per block. */
  ghost predicate Chained(states: seq<seq<uint32>>, blocks: seq<seq<byte>>)
  {
    && |states| == |blocks| + 1 && states[0] == InitH
    && forall k {:trigger ChainStep(states, blocks, k)} | 0 <= k < |blocks| :: ChainStep(states, blocks, k)
  }

  /** A chain grows by the transform of its last state. */
  lemma ChainedSnoc(states: seq<seq<uint32>>, blocks: seq<seq<byte>>, block: seq<byte>)
    requires Chained(states, blocks) && |block| == 64 && |states[|blocks|]| == 4
    ensures Chained(states + [Transform(states[|blocks|], block)], blocks + [block])
  {
    var s := states + [Transform(states[|blocks|], block)];
    var b := blocks + [block];
    forall k | 0 <= k < |b|
      ensures ChainStep(s, b, k)
    {
      if k < |blocks| {
        assert ChainStep(states, blocks, k);
        assert s[k] == states[k] && s[k + 1] == states[k + 1] && b[k] == blocks[k];
      }
    }
  }

  /** The last state of a chain is the compression of its blocks. */
  lemma {:induction false} ChainedBlocks(states: seq<seq<uint32>>, blocks: seq<seq<byte>>)
    requires Chained(states, blocks)
    ensures |Flatten(blocks)| == 64 * |blocks|
    ensures states[|blocks|] == Blocks(Flatten(blocks))
  {
    if blocks != [] {
      var n := |blocks| - 1;
      var init := blocks[..n];
      var prior := states[..n + 1];
      assert ChainStep(states, blocks, n);
      forall k | 0 <= k < n
        ensures ChainStep(prior, init, k)
      {
        assert ChainStep(states, blocks, k);
      }
      ChainedBlocks(prior, init);
      BufferedPart(n, 0);
      BlocksSnoc(Flatten(init), blocks[n]);
    }
  }

  // ---------------------------------------------------------------------
  // Padding and length
  // ---------------------------------------------------------------------

  /** `pad_len` of `md5_final` for a stream of n bytes. */
  function PadLen(n: nat): nat {
    var bufferLen := n % 64;
    if bufferLen < 56 then 56 - bufferLen else 64 - bufferLen + 56
  }

  /** Between 1 and 64 padding bytes bring the stream to 56 modulo 64, as
      section 3.1 of RFC 1321 asks. */
  lemma PadLenBounds(n: nat)
    ensures 1 <= PadLen(n) <= 64 && (n + PadLen(n)) % 64 == 56
  {
  }

  /** The padding: 0x80, then zeros. */
  function Padding(p: nat): (r: seq<byte>)
    requires 1 <= p <= 64
    ensures |r| == p
  {
    [0x80] + seq(p - 1, _ => 0)
  }

  /** The bit length written for a byte count of n: the `uint64_t` counter
      times 8, in 64 bits. */
  function BitLength(n: nat): (v: nat)
    ensures v < U64
  {
    ((n % U64) * 8) % U64
  }

  /** That is the low 64 bits of the bit count, as section 3.2 of
      RFC 1321 states it. */
  lemma BitLengthIsLowBits(n: nat)
    ensures BitLength(n) == (8 * n) % U64
  {
    var q := n / U64;
    var r := n % U64;
    assert 8 * n == (8 * q) * U64 + 8 * r;
    ModMultiple(8 * q, 8 * r);
  }

  lemma ModMultiple(q: nat, r: nat)
    ensures (q * U64 + r) % U64 == r % U64
  {
  }

  /** 256^i. */
  function Pow256(i: nat): (r: nat)
    ensures r > 0
  {
    if i == 0 then 1 else 256 * Pow256(i - 1)
  }

  /** `v >> (8 * i)` on an unsigned value: i divisions by 256. */
  function Shr8(v: nat, i: nat): nat {
    if i == 0 then v else Shr8(v, i - 1) / 256
  }

  /** `length_bytes[i]`: the value shifted right by 8 i bits, masked to
      8 bits. */
  function LengthByte(v: nat, i: nat): byte {
    (Shr8(v, i) % 256) as byte
  }

  /** The eight bytes of a 64-bit value, least significant first. */
  function LE64(v: nat): (r: seq<byte>)
    ensures |r| == 8
  {
    seq(8, i requires 0 <= i < 8 => LengthByte(v, i))
  }

  /** Little-endian bytes read back as a number. */
  function Value(b: seq<byte>): nat {
    if b == [] then 0 else b[0] as nat + 256 * Value(b[1..])
  }

  lemma {:induction false} ShrBound(v: nat, i: nat)
    requires i <= 8 && v < U64
    ensures Shr8(v, i) < Pow256(8 - i)
  {
    if i == 0 {
      assert Pow256(8) == U64;
    } else {
      ShrBound(v, i - 1);
    }
  }

  /** The bytes from position i on read back as the value shifted by
      8 i bits. */
  lemma {:induction false} ValueFrom(v: nat, i: nat)
    requires i <= 8 && v < U64
    ensures Value(LE64(v)[i..]) == Shr8(v, i)
    decreases 8 - i
  {
    if i == 8 {
      ShrBound(v, 8);
      assert LE64(v)[8..] == [];
    } else {
      ValueFrom(v, i + 1);
      assert LE64(v)[i..][1..] == LE64(v)[i + 1..];
    }
  }

  /** The eight bytes read back as the value: no two 64-bit values share
      their bytes. */
  lemma LE64RoundTrip(v: nat)
    requires v < U64
    ensures Value(LE64(v)) == v
  {
    ValueFrom(v, 0);
    assert LE64(v)[0..] == LE64(v);
  }

  /** The stream RFC 1321 compresses: message, padding, and the 64-bit
      bit length of the message. */
  function RfcStream(msg: seq<byte>): (s: seq<byte>)
    ensures |s| % 64 == 0
  {
    PadLenBounds(|msg|);
    msg + Padding(PadLen(|msg|)) + LE64(BitLength(|msg|))
  }

  /** The stream `md5_final` compresses: the length field is read from the
      counter after the padding went through `md5_update`. */
  function AsWrittenStream(msg: seq<byte>): (s: seq<byte>)
    ensures |s| % 64 == 0
  {
    PadLenBounds(|msg|);
    var p := PadLen(|msg|);
    msg + Padding(p) + LE64(BitLength(|msg| + p))
  }

  /** The four bytes of a word, least significant first: `(w >> 8 k) &
      0xFF`, the k-th base-256 digit. */
  function LE32(w: uint32): (r: seq<byte>)
    ensures |r| == 4
  {
    [(w % 0x100) as byte, ((w / 0x100) % 0x100) as byte, ((w / 0x1_0000) % 0x100) as byte, ((w / 0x100_0000) % 0x100) as byte]
  }

  /** The digest bytes: each word little-endian. */
  function DigestBytes(h: seq<uint32>): (r: seq<byte>)
    ensures |r| == 4 * |h|
  {
    if h == [] then [] else DigestBytes(h[..|h| - 1]) + LE32(h[|h| - 1])
  }

  /** MD5 as RFC 1321 defines it. */
  function Md5Rfc(msg: seq<byte>): (d: seq<byte>)
    ensures |d| == 16
  {
    DigestBytes(Blocks(RfcStream(msg)))
  }

  /** The digest `md5_final` produces. */
  function Md5AsWritten(msg: seq<byte>): (d: seq<byte>)
    ensures |d| == 16
  {
    DigestBytes(Blocks(AsWrittenStream(msg)))
  }

  /** The length field `md5_final` appends is never the message's: it is
      larger by eight times the padding, which is between 8 and 512 bits
      and so never a multiple of 2^64. The two streams differ for every
      message. */
  lemma LengthFieldDiffers(msg: seq<byte>)
    ensures BitLength(|msg| + PadLen(|msg|)) != BitLength(|msg|)
    ensures AsWrittenStream(msg) != RfcStream(msg)
  {
    var n := |msg|;
    var p := PadLen(n);
    PadLenBounds(n);
    BitLengthIsLowBits(n);
    BitLengthIsLowBits(n + p);
    var a := 8 * n;
    var r := a % U64;
    ModMultiple(a / U64, r + 8 * p);
    assert a + 8 * p == (a / U64) * U64 + (r + 8 * p);
    if r + 8 * p >= U64 {
      ModMultiple(1, r + 8 * p - U64);
    }
    var tail := |AsWrittenStream(msg)| - 8;
    assert AsWrittenStream(msg)[tail..] == LE64(BitLength(n + p));
    assert RfcStream(msg)[tail..] == LE64(BitLength(n));
    if AsWrittenStream(msg) == RfcStream(msg) {
      LE64RoundTrip(BitLength(n + p));
      LE64RoundTrip(BitLength(n));
    }
  }

  /** For the empty message the code appends 448 (0x1C0), where RFC 1321
      appends 0. */
  lemma EmptyMessageLength()
    ensures AsWrittenStream([])[56..] == [0xC0, 0x01, 0, 0, 0, 0, 0, 0]
    ensures RfcStream([])[56..] == [0, 0, 0, 0, 0, 0, 0, 0]
  {
    assert PadLen(0) == 56 && BitLength(56) == 448 && BitLength(0) == 0;
    assert Shr8(448, 1) == 1 && Shr8(448, 2) == 0;
    assert forall i | 2 <= i < 8 :: Shr8(448, i) == 0 by {
      assert Shr8(448, 3) == 0 && Shr8(448, 4) == 0 && Shr8(448, 5) == 0;
      assert Shr8(448, 6) == 0 && Shr8(448, 7) == 0;
    }
    assert forall i | 0 <= i < 8 :: Shr8(0, i) == 0 by {
      assert Shr8(0, 1) == 0 && Shr8(0, 2) == 0 && Shr8(0, 3) == 0 && Shr8(0, 4) == 0;
      assert Shr8(0, 5) == 0 && Shr8(0, 6) == 0 && Shr8(0, 7) == 0;
    }
    assert AsWrittenStream([])[56..] == LE64(448);
    assert RfcStream([])[56..] == LE64(0);
  }

  // ---------------------------------------------------------------------
  // Hex
  // ---------------------------------------------------------------------

  const HexDigits: string := "0123456789abcdef"

  /** The lowercase hex digits of a digest, two per byte, high nibble
      first: `std::hex` with `setw(2)` and `setfill('0')`. */
  function Hex(d: seq<byte>): (s: string)
    ensures |s| == 2 * |d|
  {
    if d == [] then []
    else
      var b := d[|d| - 1];
      Hex(d[..|d| - 1]) + [HexDigits[b / 16], HexDigits[b % 16]]
  }

  /** The value of a lowercase hex digit. */
  function HexValue(c: char): (v: nat)
    ensures v < 16
  {
    if '0' <= c <= '9' then c as int - '0' as int
    else if 'a' <= c <= 'f' then c as int - 'a' as int + 10
    else 0
  }

  /** The byte two digits spell, the high one first. */
  function DigitPair(hi: char, lo: char): byte
  {
    (16 * HexValue(hi) + HexValue(lo)) as byte
  }

  /** Reading the digits back. */
  function Unhex(s: string): seq<byte>
    requires |s| % 2 == 0
  {
    if s == [] then []
    else Unhex(s[..|s| - 2]) + [DigitPair(s[|s| - 2], s[|s| - 1])]
  }

  lemma HexDigitValue(n: nat)
    requires n < 16
    ensures HexValue(HexDigits[n]) == n
  {
  }

  /** The hex text is all lowercase hex digits. */
  lemma {:induction false} HexCharset(d: seq<byte>)
    ensures forall i :: 0 <= i < |Hex(d)| ==> Hex(d)[i] in HexDigits
  {
    if d != [] {
      var init := d[..|d| - 1];
      HexCharset(init);
      var s := Hex(d);
      forall i | 0 <= i < |s|
        ensures s[i] in HexDigits
      {
        if i < |s| - 2 {
          assert s[i] == Hex(init)[i];
        }
      }
    }
  }

  /** Reading back two more digits appends the byte they spell. */
  lemma UnhexSnoc(t: string, hi: char, lo: char)
    requires |t| % 2 == 0
    ensures Unhex(t + [hi, lo]) == Unhex(t) + [DigitPair(hi, lo)]
  {
    var u := t + [hi, lo];
    assert u[..|u| - 2] == t && u[|u| - 2] == hi && u[|u| - 1] == lo;
  }

  /** The two digits of a byte spell it. */
  lemma ByteDigits(b: byte)
    ensures DigitPair(HexDigits[b / 16], HexDigits[b % 16]) == b
  {
    HexDigitValue((b / 16) as nat);
    HexDigitValue((b % 16) as nat);
  }

  /** The hex text reads back as the bytes it was made from. */
  lemma {:induction false} HexRoundTrip(d: seq<byte>)
    ensures Unhex(Hex(d)) == d
  {
    if d != [] {
      var init := d[..|d| - 1];
      var b := d[|d| - 1];
      var hi, lo := HexDigits[b / 16], HexDigits[b % 16];
      assert Hex(d) == Hex(init) + [hi, lo];
      HexRoundTrip(init);
      ByteDigits(b);
      UnhexSnoc(Hex(init), hi, lo);
      assert init + [b] == d;
    }
  }

  // ---------------------------------------------------------------------
  // The context
  // ---------------------------------------------------------------------

  /** `MD5Context`. */
  class Context {
    const h: array<uint32>
    const buffer: array<byte>
    var totalBytes: nat
    var bufferLen: nat
    /** The bytes fed to the context. */
    ghost var absorbed: seq<byte>
    /** Its complete blocks, already compressed into `h`. */
    ghost var blocks: seq<seq<byte>>
    /** The words before the first block and after each block. */
    ghost var states: seq<seq<uint32>>

    /** The stream is the compressed blocks followed by the buffered
        bytes, and the words are the compression of those blocks. */
    ghost predicate Absorbs()
      reads this, h, buffer
    {
      Buffered() && bufferLen < 64
    }

    /** The same with a buffer that may be full. */
    ghost predicate Buffered()
      reads this, h, buffer
    {
      && h.Length == 4 && buffer.Length == 64 && bufferLen <= 64
      && Chained(states, blocks) && h[..] == states[|blocks|]
      && |Flatten(blocks)| == 64 * |blocks|
      && absorbed == Flatten(blocks) + buffer[..bufferLen]
    }

    ghost predicate Valid()
      reads this, h, buffer
    {
      Absorbs() && totalBytes == |absorbed| % U64
    }

    /** `MD5Context ctx;`: storage, not yet initialised. */
    constructor ()
      ensures fresh(h) && fresh(buffer) && h.Length == 4 && buffer.Length == 64
    {
      h := new uint32[4];
      buffer := new byte[64];
    }

    /** `md5_init`. */
    method Init()
      requires h.Length == 4 && buffer.Length == 64
      modifies this, h
      ensures Valid() && absorbed == []
      ensures h[..] == InitH && totalBytes == 0 && bufferLen == 0
    {
      h[0], h[1], h[2], h[3] := 0x67452301, 0xefcdab89, 0x98badcfe, 0x10325476;
      totalBytes := 0;
      bufferLen := 0;
      absorbed := [];
      blocks := [];
      states := [InitH];
    }

    /** `md5_transform` on the context's words. */
    method TransformBlock(block: seq<byte>)
      requires h.Length == 4 && |block| == 64
      modifies h
      ensures h[..] == Transform(old(h[..]), block)
    {
      var w := ReadWords(block);
      var q := Compress(Quad(h[0], h[1], h[2], h[3]), w);
      h[0], h[1], h[2], h[3] := Add(h[0], q.a), Add(h[1], q.b), Add(h[2], q.c), Add(h[3], q.d);
    }

    /** Compress a complete block and record it. */
    method Chain(block: seq<byte>)
      requires h.Length == 4 && |block| == 64
      requires Chained(states, blocks) && h[..] == states[|blocks|] && |Flatten(blocks)| == 64 * |blocks|
      modifies this, h
      ensures Chained(states, blocks) && h[..] == states[|blocks|] && |Flatten(blocks)| == 64 * |blocks|
      ensures blocks == old(blocks) + [block] && Flatten(blocks) == old(Flatten(blocks)) + block
      ensures unchanged(`absorbed, `totalBytes, `bufferLen)
    {
      ChainedSnoc(states, blocks, block);
      TransformBlock(block);
      states := states + [h[..]];
      assert (blocks + [block])[..|blocks|] == blocks;
      blocks := blocks + [block];
    }

    /** The `memcpy` into the buffer: `part` goes after the buffered
        bytes. */
    method CopyIn(part: seq<byte>)
      requires Absorbs() && bufferLen + |part| <= 64
      modifies this, buffer
      ensures bufferLen == old(bufferLen) + |part| && absorbed == old(absorbed) + part
      ensures buffer[..bufferLen] == old(buffer[..bufferLen]) + part
      ensures unchanged(`totalBytes, `blocks, `states)
      ensures Buffered()
    {
      var n := bufferLen;
      ghost var kept := buffer[..n];
      forall k | 0 <= k < |part| {
        buffer[n + k] := part[k];
      }
      assert buffer[..n + |part|] == kept + part;
      bufferLen := n + |part|;
      absorbed := absorbed + part;
    }

    /** The first part of `md5_update`: top up a partly filled buffer and
        compress it once full. */
    method FillBuffer(data: seq<byte>, toCopy: nat)
      requires Absorbs() && bufferLen > 0 && toCopy <= |data| && bufferLen + toCopy <= 64
      requires toCopy == |data| || bufferLen + toCopy == 64
      modifies this, h, buffer
      ensures Absorbs() && absorbed == old(absorbed) + data[..toCopy] && totalBytes == old(totalBytes)
      ensures bufferLen == 0 || toCopy == |data|
    {
      CopyIn(data[..toCopy]);
      if bufferLen == 64 {
        assert buffer[..] == buffer[..bufferLen];
        Chain(buffer[..]);
        bufferLen := 0;
      }
    }

    /** The first branch of `md5_update`: a partly filled buffer takes as
        much of `data` as it has room for; returns how much it took. */
    method TopUp(data: seq<byte>) returns (offset: nat)
      requires Absorbs()
      modifies this, h, buffer
      ensures Absorbs() && offset <= |data| && absorbed == old(absorbed) + data[..offset]
      ensures bufferLen == 0 || offset == |data|
      ensures totalBytes == old(totalBytes)
    {
      offset := 0;
      if bufferLen > 0 {
        var toCopy := 64 - bufferLen;
        if toCopy > |data| {
          toCopy := |data|;
        }
        FillBuffer(data, toCopy);
        offset := toCopy;
      } else {
        assert data[..0] == [];
      }
    }

    /** The loop of `md5_update`: compress one block of the input. */
    method AbsorbBlock(block: seq<byte>)
      requires Absorbs() && bufferLen == 0 && |block| == 64
      modifies this, h
      ensures Absorbs() && absorbed == old(absorbed) + block && bufferLen == 0 && totalBytes == old(totalBytes)
    {
      Chain(block);
      absorbed := absorbed + block;
    }

    /** The loop of `md5_update`: compress every complete block of `data`
        from `offset` on; returns where the remainder starts. */
    method AbsorbBlocks(data: seq<byte>, offset: nat) returns (next: nat)
      requires Absorbs() && offset <= |data| && (bufferLen == 0 || offset == |data|)
      modifies this, h, buffer
      ensures Absorbs() && offset <= next <= |data| && |data| < next + 64
      ensures absorbed == old(absorbed) + data[offset..next] && totalBytes == old(totalBytes)
      ensures bufferLen == 0 || next == |data|
    {
      next := offset;
      while next + 64 <= |data|
        invariant offset <= next <= |data| && Absorbs()
        invariant absorbed == old(absorbed) + data[offset..next]
        invariant bufferLen == 0 || next == |data|
        invariant totalBytes == old(totalBytes)
      {
        AbsorbBlock(data[next..next + 64]);
        assert data[offset..next + 64] == data[offset..next] + data[next..next + 64];
        next := next + 64;
      }
    }

    /** The tail of `md5_update`: keep the bytes short of a block. */
    method Stash(rest: seq<byte>)
      requires Absorbs() && bufferLen == 0 && 0 < |rest| < 64
      modifies this, buffer
      ensures Absorbs() && absorbed == old(absorbed) + rest && totalBytes == old(totalBytes)
    {
      forall k | 0 <= k < |rest| {
        buffer[k] := rest[k];
      }
      bufferLen := |rest|;
      absorbed := absorbed + rest;
      assert buffer[..bufferLen] == rest;
    }

    /** `md5_update`: the context absorbs `data`, and the byte counter
        grows by its length, wrapping like `uint64_t`. */
    method Update(data: seq<byte>)
      requires Valid()
      modifies this, h, buffer
      ensures Valid() && absorbed == old(absorbed) + data
    {
      totalBytes := (totalBytes + |data|) % U64;
      Absorb(data);
      CounterMod(|old(absorbed)|, |data|);
    }

    /** The three steps of `md5_update` after the counter: top up the
        buffer, compress the complete blocks, stash the rest. */
    method Absorb(data: seq<byte>)
      requires Absorbs()
      modifies this, h, buffer
      ensures Absorbs() && absorbed == old(absorbed) + data && totalBytes == old(totalBytes)
    {
      ghost var start := absorbed;
      var offset := TopUp(data);
      var next := AbsorbBlocks(data, offset);
      assert data[..offset] + data[offset..next] == data[..next];
      assert absorbed == start + data[..next];
      if next < |data| {
        Stash(data[next..]);
        assert data[..next] + data[next..] == data;
      } else {
        assert data[..next] == data;
      }
    }

    /** The padding length `md5_final` computes from the buffered bytes. */
    method PadLength() returns (padLen: nat)
      requires Absorbs()
      ensures padLen == PadLen(|absorbed|)
    {
      if bufferLen < 56 {
        padLen := 56 - bufferLen;
      } else {
        padLen := 64 - bufferLen + 56;
      }
      BufferedPart(|blocks|, bufferLen);
    }

    /** The padding and length field of `md5_final` as written: the
        counter is read after the padding went through `md5_update`. */
    method PadAsWritten()
      requires Valid()
      modifies this, h, buffer
      ensures Absorbs() && bufferLen == 0 && absorbed == AsWrittenStream(old(absorbed))
    {
      ghost var msg := absorbed;
      var padding: seq<byte> := [0x80] + seq(63, _ => 0);
      var padLen := PadLength();
      PadLenBounds(|msg|);
      assert padding[..padLen] == Padding(padLen);
      Update(padding[..padLen]);
      ghost var padded := absorbed;
      var totalBits := (totalBytes * 8) % U64;
      assert totalBits == BitLength(|msg| + padLen);
      var lengthBytes := LengthBytes(totalBits);
      Update(lengthBytes);
      assert absorbed == padded + LE64(BitLength(|msg| + padLen));
      assert absorbed == AsWrittenStream(msg);
      assert |absorbed| == 64 * |blocks| + bufferLen;
      BufferedPart(|blocks|, bufferLen);
    }

    /** The padding and length field with the length taken before the
        padding, as section 3.2 of RFC 1321 requires. */
    method PadCorrected()
      requires Valid()
      modifies this, h, buffer
      ensures Absorbs() && bufferLen == 0 && absorbed == RfcStream(old(absorbed))
    {
      ghost var msg := absorbed;
      var messageBits := (totalBytes * 8) % U64;
      BitLengthIsLowBits(|msg|);
      var padding: seq<byte> := [0x80] + seq(63, _ => 0);
      var padLen := PadLength();
      PadLenBounds(|msg|);
      assert padding[..padLen] == Padding(padLen);
      Update(padding[..padLen]);
      ghost var padded := absorbed;
      var lengthBytes := LengthBytes(messageBits);
      Update(lengthBytes);
      assert absorbed == padded + LE64(BitLength(|msg|));
      assert absorbed == RfcStream(msg);
      assert |absorbed| == 64 * |blocks| + bufferLen;
      BufferedPart(|blocks|, bufferLen);
    }

    /** `md5_final` as written. */
    method Final() returns (digest: seq<byte>)
      requires Valid()
      modifies this, h, buffer
      ensures digest == Md5AsWritten(old(absorbed))
    {
      PadAsWritten();
      digest := Output();
    }

    /** `md5_final` with the corrected length field. */
    method FinalCorrected() returns (digest: seq<byte>)
      requires Valid()
      modifies this, h, buffer
      ensures digest == Md5Rfc(old(absorbed))
    {
      PadCorrected();
      digest := Output();
    }

    /** The last loop of `md5_final`: the words, little-endian. */
    method Output() returns (digest: seq<byte>)
      requires Absorbs() && bufferLen == 0
      ensures digest == DigestBytes(Blocks(absorbed))
    {
      digest := [];
      var i := 0;
      while i < 4
        invariant i <= 4
        invariant digest == DigestBytes(h[..i])
      {
        var word := h[i];
        assert h[..i + 1][..i] == h[..i];
        digest := digest + LE32(word);
        i := i + 1;
      }
      assert h[..4] == h[..];
      assert absorbed == Flatten(blocks);
      ChainedBlocks(states, blocks);
    }
  }

  /** A stream of q blocks and r < 64 buffered bytes has r bytes past its
      last block boundary. */
  lemma BufferedPart(q: nat, r: nat)
    requires r < 64
    ensures (64 * q + r) % 64 == r
  {
  }

  /** The first loop of `md5_transform`: the block's sixteen
      little-endian words. */
  method ReadWords(block: seq<byte>) returns (w: seq<uint32>)
    requires |block| == 64
    ensures w == Words(block)
  {
    w := [];
    var i := 0;
    while i < 16
      invariant i <= 16 && |w| == i
      invariant forall k :: 0 <= k < i ==> w[k] == Word(block, 4 * k)
    {
      var j := i * 4;
      w := w + [(block[j] as int + 0x100 * block[j + 1] as int + 0x1_0000 * block[j + 2] as int + 0x100_0000 * block[j + 3] as int) as uint32];
      i := i + 1;
    }
  }

  /** The second loop of `md5_transform`: the 64 steps on the registers. */
  method Compress(q0: Quad, w: seq<uint32>) returns (q: Quad)
    requires |w| == 16
    ensures q == Rounds(q0, w, 64)
  {
    var a, b, c, d := q0.a, q0.b, q0.c, q0.d;
    var k: nat := 0;
    while k < 64
      invariant k <= 64
      invariant Quad(a, b, c, d) == Rounds(q0, w, k)
    {
      a, b, c, d := Step(a, b, c, d, w, k);
      k := k + 1;
    }
    q := Quad(a, b, c, d);
  }

  /** One step of the second loop of `md5_transform`. */
  method Step(a: uint32, b: uint32, c: uint32, d: uint32, w: seq<uint32>, k: nat) returns (a': uint32, b': uint32, c': uint32, d': uint32)
    requires |w| == 16 && k < 64
    ensures Quad(a', b', c', d') == Round(Quad(a, b, c, d), w, k)
  {
    TableSizes();
    var f: uint32;
    var g: nat;
    if k < 16 {
      f := Or(And(b, c), And(Not(b), d));
      g := k;
    } else if k < 32 {
      f := Or(And(d, b), And(Not(d), c));
      g := (5 * k + 1) % 16;
    } else if k < 48 {
      f := Xor(Xor(b, c), d);
      g := (3 * k + 5) % 16;
    } else {
      f := Xor(c, Or(b, Not(d)));
      g := (7 * k) % 16;
    }
    var sum := Add(Add(Add(a, f), K[k]), w[g]);
    a', b', c', d' := d, Add(b, LeftRotate(sum, S[k])), b, c;
  }

  /** The counter wraps like `uint64_t`. */
  lemma CounterMod(n: nat, m: nat)
    ensures ((n % U64) + m) % U64 == (n + m) % U64
  {
    var q := n / U64;
    assert n + m == q * U64 + ((n % U64) + m);
    ModMultiple(q, (n % U64) + m);
  }

  /** The `length_bytes` loop of `md5_final`: byte i is the bit count
      shifted right by 8 i, which the loop reaches by one more division by
      256 per byte. */
  method LengthBytes(totalBits: nat) returns (bytes: seq<byte>)
    ensures bytes == LE64(totalBits)
  {
    bytes := [];
    var shifted := totalBits;
    var i := 0;
    while i < 8
      invariant i <= 8 && |bytes| == i
      invariant shifted == Shr8(totalBits, i)
      invariant forall k :: 0 <= k < i ==> bytes[k] == LengthByte(totalBits, k)
    {
      bytes := bytes + [(shifted % 256) as byte];
      shifted := shifted / 256;
      i := i + 1;
    }
  }

  /** The hex loop of `Cache::MD5`. */
  method HexString(digest: seq<byte>) returns (s: string)
    ensures s == Hex(digest)
  {
    s := "";
    var i := 0;
    while i < |digest|
      invariant i <= |digest|
      invariant s == Hex(digest[..i])
    {
      assert digest[..i + 1][..i] == digest[..i];
      var b := digest[i];
      s := s + [HexDigits[b / 16], HexDigits[b % 16]];
      i := i + 1;
    }
    assert digest[..i] == digest;
  }

  /** `md5_init`, `md5_update` and `md5_final` on a fresh context, as
      `Cache::MD5` calls them. */
  method Digest(data: seq<byte>) returns (digest: seq<byte>)
    ensures digest == Md5AsWritten(data)
  {
    var ctx := new Context();
    ctx.Init();
    ctx.Update(data);
    assert ctx.absorbed == data;
    digest := ctx.Final();
  }

  /** The same with the corrected `md5_final`. */
  method DigestCorrected(data: seq<byte>) returns (digest: seq<byte>)
    ensures digest == Md5Rfc(data)
  {
    var ctx := new Context();
    ctx.Init();
    ctx.Update(data);
    assert ctx.absorbed == data;
    digest := ctx.FinalCorrected();
  }

  /** `Cache::MD5` as written: the hex digest of `md5_final`. */
  method MD5(data: seq<byte>) returns (hex: string)
    ensures hex == Hex(Md5AsWritten(data))
    ensures |hex| == 32
  {
    var digest := Digest(data);
    hex := HexString(digest);
  }

  /** `Cache::MD5` with the corrected length field: the RFC 1321 digest in
      hex. */
  method MD5Corrected(data: seq<byte>) returns (hex: string)
    ensures hex == Hex(Md5Rfc(data))
    ensures |hex| == 32
  {
    var digest := DigestCorrected(data);
    hex := HexString(digest);
  }
}
