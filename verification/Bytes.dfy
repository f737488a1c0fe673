/** Bytes and the little-endian integers of the on-disk formats. */
module Bytes {

  type byte = b: int | 0 <= b < 256

  type Bytes = seq<byte>

  const U32 := 0x1_0000_0000
  const U64 := 0x1_0000_0000_0000_0000

  function Pow256(w: nat): (p: nat)
    ensures p > 0
  {
    if w == 0 then 1 else 256 * Pow256(w - 1)
  }

  lemma Widths()
    ensures Pow256(4) == U32 && Pow256(8) == U64
  {
    assert Pow256(2) == 65536;
    assert Pow256(4) == U32;
    assert Pow256(6) == U32 * 65536;
  }

  /** `to_le_bytes` of the low `w` bytes of `n`. */
  function ToLe(n: nat, w: nat): (b: Bytes)
    ensures |b| == w
    decreases w
  {
    if w == 0 then [] else [n % 256] + ToLe(n / 256, w - 1)
  }

  /** `from_le_bytes`. */
  function FromLe(b: Bytes): nat {
    if b == [] then 0 else b[0] + 256 * FromLe(b[1..])
  }

  lemma {:induction false} LeRoundTrip(n: nat, w: nat)
    requires n < Pow256(w)
    ensures FromLe(ToLe(n, w)) == n
    decreases w
  {
    if w > 0 {
      LeRoundTrip(n / 256, w - 1);
      assert ToLe(n, w)[1..] == ToLe(n / 256, w - 1);
    }
  }

  /** The least significant byte comes first. */
  lemma LittleEndian(b: Bytes)
    ensures |b| == 4 ==>
              FromLe(b) == b[0] as int + 0x100 * (b[1] as int) + 0x1_0000 * (b[2] as int) + 0x100_0000 * (b[3] as int)
    ensures |b| == 8 ==> FromLe(b) == FromLe(b[..4]) + U32 * FromLe(b[4..])
    ensures |b| == 4 ==> FromLe(b) < U32
  {
    if |b| == 4 {
      FromLeFour(b, 0);
    } else if |b| == 8 {
      FromLeFour(b, 4);
      assert b[4..][0..] == b[4..];
      FromLeFour(b[..4], 0);
    }
  }

  lemma FromLeFour(b: Bytes, rest: nat)
    requires |b| == 4 + rest
    ensures FromLe(b) == b[0] as int + 0x100 * (b[1] as int) + 0x1_0000 * (b[2] as int) + 0x100_0000 * (b[3] as int)
                         + U32 * FromLe(b[4..])
  {
    assert b[1..][1..] == b[2..] && b[2..][1..] == b[3..] && b[3..][1..] == b[4..];
    assert FromLe(b[3..]) == b[3] + 256 * FromLe(b[4..]);
    assert FromLe(b[2..]) == b[2] + 256 * FromLe(b[3..]);
    assert FromLe(b[1..]) == b[1] + 256 * FromLe(b[2..]);
  }

  /** Writing what was read gives the same bytes. */
  lemma {:induction false} LeInverse(b: Bytes)
    ensures ToLe(FromLe(b), |b|) == b
  {
    if b != [] {
      LeInverse(b[1..]);
      assert FromLe(b) % 256 == b[0] && FromLe(b) / 256 == FromLe(b[1..]);
    }
  }

  lemma Le32(n: nat)
    requires n < U32
    ensures FromLe(ToLe(n, 4)) == n
  {
    Widths();
    LeRoundTrip(n, 4);
  }

  lemma Le64(n: nat)
    requires n < U64
    ensures FromLe(ToLe(n, 8)) == n
  {
    Widths();
    LeRoundTrip(n, 8);
  }

  function Zeros(n: nat): (z: Bytes)
    ensures |z| == n
  {
    seq(n, _ => 0)
  }

  /** `Vec::resize(n, 0)`. */
  function Padded(b: Bytes, n: nat): (r: Bytes)
    ensures |r| == if |b| < n then n else |b|
    ensures b <= r
  {
    if |b| < n then b + Zeros(n - |b|) else b
  }

  function DivCeil(a: nat, b: nat): nat
    requires b > 0
  {
    (a + b - 1) / b
  }
}
