/**
 Fixed-width integers and their byte encodings. `usize` is taken to be 64 bits wide; lengths of
 in-memory buffers are mathematical integers, since Rust never lets a buffer exceed `isize::MAX`.
 */
module Machine {
  const U32_BOUND: int := 0x1_0000_0000
  const U64_BOUND: int := 0x1_0000_0000_0000_0000

  type byte = x: int | 0 <= x < 0x100
  type u32 = x: int | 0 <= x < U32_BOUND
  type u64 = x: int | 0 <= x < U64_BOUND

  type Bytes = seq<byte>

  function Min(a: nat, b: nat): nat { if a <= b then a else b }

  /** `saturating_sub` */
  function SaturatingSub(a: nat, b: nat): nat { if a >= b then a - b else 0 }

  /** `u64::div_ceil` */
  function DivCeil(x: nat, d: nat): nat
    requires d > 0
  {
    if x % d == 0 then x / d else x / d + 1
  }

  /** Rust's `x as u32`: truncation to the low 32 bits. */
  function AsU32(x: nat): u32 { x % U32_BOUND }

  /** Rust's `x as u64`. */
  function AsU64(x: nat): u64 { x % U64_BOUND }

  lemma SmallAsU32(x: nat)
    requires x < U32_BOUND
    ensures AsU32(x) == x
  {
  }

  /** The `width` low bytes of `x`, least significant first (`to_le_bytes`). */
  function LeBytes(x: nat, width: nat): (bs: Bytes)
    ensures |bs| == width
  {
    if width == 0 then [] else [x % 0x100] + LeBytes(x / 0x100, width - 1)
  }

  /** The number whose bytes, least significant first, are `bs` (`from_le_bytes`). */
  function LeValue(bs: Bytes): nat {
    if bs == [] then 0 else (bs[0] as int) + 0x100 * LeValue(bs[1..])
  }

  function Reversed(bs: Bytes): (r: Bytes)
    ensures |r| == |bs|
  {
    if bs == [] then [] else Reversed(bs[1..]) + [bs[0]]
  }

  /** `to_be_bytes` and `from_be_bytes`. */
  function BeBytes(x: nat, width: nat): (bs: Bytes)
    ensures |bs| == width
  {
    Reversed(LeBytes(x, width))
  }

  function BeValue(bs: Bytes): nat { LeValue(Reversed(bs)) }

  function Pow256(n: nat): (p: nat)
    ensures p > 0
  {
    if n == 0 then 1 else 0x100 * Pow256(n - 1)
  }

  lemma {:induction false} LeValueOfBytes(x: nat, width: nat)
    ensures LeValue(LeBytes(x, width)) == x % Pow256(width) < Pow256(width)
  {
    if width > 0 {
      var m := Pow256(width - 1);
      LeValueOfBytes(x / 0x100, width - 1);
      assert LeBytes(x, width)[1..] == LeBytes(x / 0x100, width - 1);
      ModSplit(x, m);
    }
  }

  lemma ModSplit(x: nat, m: nat)
    requires m > 0
    ensures x % 0x100 + 0x100 * ((x / 0x100) % m) == x % (0x100 * m)
  {
    var q, r := x / 0x100, x % 0x100;
    var k, t := q / m, q % m;
    assert x == 0x100 * (k * m + t) + r == (0x100 * m) * k + (0x100 * t + r);
    DivUnique(x, 0x100 * m, k, 0x100 * t + r);
  }

  lemma DivUnique(x: int, d: int, q: int, r: int)
    requires 0 <= r < d && x == d * q + r
    ensures x / d == q && x % d == r
  {
    var e := x / d - q;
    assert d * e == r - x % d;
    assert e > 0 ==> d * e >= d;
    assert e < 0 ==> d * e <= -d;
  }

  lemma {:induction false} LeBytesOfValue(bs: Bytes)
    ensures LeBytes(LeValue(bs), |bs|) == bs && LeValue(bs) < Pow256(|bs|)
  {
    if bs != [] {
      LeBytesOfValue(bs[1..]);
      DivUnique(LeValue(bs), 0x100, LeValue(bs[1..]), bs[0]);
    }
  }

  lemma {:induction false} ReversedTwice(bs: Bytes)
    ensures Reversed(Reversed(bs)) == bs
  {
    if bs != [] {
      ReversedTwice(bs[1..]);
      ReversedSnoc(Reversed(bs[1..]), bs[0]);
    }
  }

  lemma {:induction false} ReversedSnoc(bs: Bytes, b: byte)
    ensures Reversed(bs + [b]) == [b] + Reversed(bs)
  {
    if bs == [] {
    } else {
      assert (bs + [b])[1..] == bs[1..] + [b];
      ReversedSnoc(bs[1..], b);
    }
  }

  /** Both encodings of a word read back, and print back. */
  lemma WordRoundTrips(x: nat, width: nat)
    requires x < Pow256(width)
    ensures LeValue(LeBytes(x, width)) == x && BeValue(BeBytes(x, width)) == x
  {
    LeValueOfBytes(x, width);
    ReversedTwice(LeBytes(x, width));
    assert x % Pow256(width) == x;
  }

  lemma BeBytesOfValue(bs: Bytes)
    ensures BeBytes(BeValue(bs), |bs|) == bs && BeValue(bs) < Pow256(|bs|)
  {
    LeBytesOfValue(Reversed(bs));
    ReversedTwice(bs);
  }

  /** Bytes in a `u32`. */
  const WORD: nat := 4

  lemma Pow256Word()
    ensures Pow256(WORD) == U32_BOUND
  {
    assert Pow256(2) == 0x1_0000;
  }

  // ---- words, byte by byte ----

  /** The number written in four bytes, least significant first. */
  ghost function LittleWord(b: Bytes): nat
    requires |b| == 4
  {
    (b[0] as int) + 0x100 * (b[1] as int) + 0x1_0000 * (b[2] as int) + 0x100_0000 * (b[3] as int)
  }

  /** The number written in eight bytes, least significant first. */
  ghost function LittleLong(b: Bytes): nat
    requires |b| == 8
  {
    LittleWord(b[..4]) + 0x1_0000_0000 * LittleWord(b[4..])
  }

  /** The number written in four bytes, most significant first. */
  ghost function BigWord(b: Bytes): u32
    requires |b| == 4
  {
    0x100_0000 * (b[0] as int) + 0x1_0000 * (b[1] as int) + 0x100 * (b[2] as int) + b[3]
  }

  lemma FirstWord(b: Bytes)
    requires |b| >= 4
    ensures LeValue(b) == LittleWord(b[..4]) + 0x1_0000_0000 * LeValue(b[4..])
  {
    assert LeValue(b) == (b[0] as int) + 0x100 * LeValue(b[1..]);
    assert LeValue(b[1..]) == (b[1] as int) + 0x100 * LeValue(b[2..]) by { assert b[1..][1..] == b[2..]; }
    assert LeValue(b[2..]) == (b[2] as int) + 0x100 * LeValue(b[3..]) by { assert b[2..][1..] == b[3..]; }
    assert LeValue(b[3..]) == (b[3] as int) + 0x100 * LeValue(b[4..]) by { assert b[3..][1..] == b[4..]; }
  }

  lemma WordValues(b: Bytes)
    requires |b| == 4
    ensures LeValue(b) == LittleWord(b) && BeValue(b) == BigWord(b)
  {
    assert b[..4] == b;
    FirstWord(b);
    ReversedWord(b);
    FirstWord(Reversed(b));
  }

  lemma ReversedWord(b: Bytes)
    requires |b| == 4
    ensures Reversed(b) == [b[3], b[2], b[1], b[0]]
  {
    assert Reversed(b[3..]) == [b[3]];
    assert Reversed(b[2..]) == [b[3], b[2]] by { assert b[2..][1..] == b[3..]; }
    assert Reversed(b[1..]) == [b[3], b[2], b[1]] by { assert b[1..][1..] == b[2..]; }
  }

  lemma LongValue(b: Bytes)
    requires |b| == 8
    ensures LeValue(b) == LittleLong(b)
  {
    FirstWord(b);
    WordValues(b[4..]);
  }
}
