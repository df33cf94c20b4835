/** Bytes, fixed-width integers and the base-128 varint, shared by the protobuf
    codec and by the message header.

    The C code works on unsigned words with `&`, `|` and shifts.  On the
    non-negative integers used here `x & 0x7f` is `x % 128`, `x >> 7` is
    `x / 128`, and `|` of parts that share no bit is `+`. */
module Words {

  type Byte = x: int | 0 <= x < 256

  const U32: nat := 0x1_0000_0000
  const U64: nat := 0x1_0000_0000_0000_0000

  function Pow2(n: nat): (p: nat)
    ensures p >= 1
  {
    if n == 0 then 1 else 2 * Pow2(n - 1)
  }

  lemma Pow2Step7(n: nat)
    ensures Pow2(n + 7) == 128 * Pow2(n)
  {
    assert Pow2(n + 1) == 2 * Pow2(n) && Pow2(n + 2) == 4 * Pow2(n);
    assert Pow2(n + 3) == 8 * Pow2(n) && Pow2(n + 4) == 16 * Pow2(n);
    assert Pow2(n + 5) == 32 * Pow2(n) && Pow2(n + 6) == 64 * Pow2(n);
  }

  lemma Pow2At63()
    ensures Pow2(63) == U64 / 2 && Pow2(0) == 1
  {
    assert Pow2(7) == 128 by { Pow2Step7(0); }
    assert Pow2(14) == 0x4000 by { Pow2Step7(7); }
    assert Pow2(21) == 0x20_0000 by { Pow2Step7(14); }
    assert Pow2(28) == 0x1000_0000 by { Pow2Step7(21); }
    assert Pow2(35) == 0x8_0000_0000 by { Pow2Step7(28); }
    assert Pow2(42) == 0x400_0000_0000 by { Pow2Step7(35); }
    assert Pow2(49) == 0x2_0000_0000_0000 by { Pow2Step7(42); }
    assert Pow2(56) == 0x100_0000_0000_0000 by { Pow2Step7(49); }
    assert Pow2(63) == 0x8000_0000_0000_0000 by { Pow2Step7(56); }
  }

  /** Little-endian groups of seven bits, top bit set on all but the last byte
      ("Base 128 Varints" in the Protocol Buffers Encoding specification). */
  function Varint(v: nat): (bytes: seq<Byte>)
    ensures |bytes| >= 1
  {
    if v < 128 then [v] else [v % 128 + 128] + Varint(v / 128)
  }

  lemma {:induction false} VarintLength(v: nat, n: nat)
    requires n >= 1 && v < Pow2(7 * n)
    ensures |Varint(v)| <= n
  {
    if v >= 128 {
      if n == 1 {
        Pow2Step7(0);
      } else {
        Pow2Step7(7 * (n - 1));
        VarintLength(v / 128, n - 1);
      }
    }
  }

  /** A 64-bit value takes at most ten bytes. */
  lemma VarintLength64(v: nat)
    requires v < U64
    ensures |Varint(v)| <= 10
  {
    Pow2At63();
    Pow2Step7(63);
    VarintLength(v, 10);
  }

  /** The number whose groups of seven bits, the lowest first, are in the bytes. */
  function GroupsValue(b: seq<Byte>): nat {
    if b == [] then 0 else b[0] % 128 + 128 * GroupsValue(b[1..])
  }

  /** All bytes but the last have their top bit set, and no group is spent on zeros. */
  predicate VarintForm(b: seq<Byte>) {
    && b != [] && b[|b| - 1] < 128 && (|b| > 1 ==> b[|b| - 1] != 0)
    && forall i :: 0 <= i < |b| - 1 ==> b[i] >= 128
  }

  /** It is the one shortest varint of its value. */
  lemma {:induction false} VarintIff(v: nat, b: seq<Byte>)
    ensures b == Varint(v) <==> VarintForm(b) && GroupsValue(b) == v
    decreases v
  {
    if v < 128 {
      ShortVarintIff(v, b);
    } else {
      var first: Byte := v % 128 + 128;
      if b != [] {
        VarintIff(v / 128, b[1..]);
        assert b == [b[0]] + b[1..];
        if VarintForm(b) && GroupsValue(b) == v {
          assert |b| > 1;
          assert VarintForm(b[1..]);
        }
        if b == Varint(v) {
          assert b[0] == first && b[1..] == Varint(v / 128);
          assert forall i :: 0 < i < |b| - 1 ==> b[i] == b[1..][i - 1];
        }
      }
    }
  }

  lemma ShortVarintIff(v: nat, b: seq<Byte>)
    requires v < 128
    ensures b == Varint(v) <==> VarintForm(b) && GroupsValue(b) == v
  {
    if VarintForm(b) && GroupsValue(b) == v {
      if |b| > 1 {
        GroupsPositive(b[1..]);
      }
      assert b == [b[0]];
    }
  }

  lemma {:induction false} GroupsPositive(b: seq<Byte>)
    requires b != [] && 0 < b[|b| - 1] < 128
    ensures GroupsValue(b) >= 1
  {
    if |b| > 1 {
      GroupsPositive(b[1..]);
    }
  }

  /** Two's complement of a C integer widened to 64 bits. */
  function ToU64(i: int): (w: nat)
    ensures w < U64 && (0 <= i < U64 ==> w == i)
  {
    i % U64
  }

  /** "Signed Integers" of the same specification. */
  function ZigZag(i: int): nat {
    if i < 0 then -2 * i - 1 else 2 * i
  }

  function UnZigZag(w: nat): int {
    if w % 2 == 1 then -(w / 2) - 1 else w / 2
  }

  lemma ZigZagInverse(i: int)
    ensures UnZigZag(ZigZag(i)) == i
  {}

  lemma ZigZagSmall(i: int)
    requires -0x8000_0000 <= i < 0x8000_0000
    ensures ZigZag(i) < U32
  {}
}
