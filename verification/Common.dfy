/** Vocabulary shared by the models: optional values and machine integers. */
module Common {

  datatype Option<+T> = None | Some(value: T)

  type byte = b: int | 0 <= b < 0x100
  type u16 = n: int | 0 <= n < 0x1_0000
  type u32 = n: int | 0 <= n < 0x1_0000_0000
  type u64 = n: int | 0 <= n < 0x1_0000_0000_0000_0000

  type bytes = seq<byte>

  function Max(a: int, b: int): int {
    if a < b then b else a
  }

  function Min(a: int, b: int): int {
    if a < b then a else b
  }

  function Concat(parts: seq<bytes>): bytes {
    if parts == [] then [] else parts[0] + Concat(parts[1..])
  }

  lemma SubsetSize<T>(a: set<T>, b: set<T>)
    requires a <= b
    ensures |a| <= |b|
  {
    assert b == a + (b - a);
  }

  /** A number cut to what fits below `size`, as narrowing casts and wrapping sums do. */
  function Wrap(n: nat, size: nat): (r: nat)
    requires size > 0
    ensures r < size
  {
    if n < size then n else Wrap(n - size, size)
  }

  function Low16(n: nat): u16 {
    Wrap(n, 0x1_0000)
  }

  function Low32(n: nat): u32 {
    Wrap(n, 0x1_0000_0000)
  }

  /** Cutting early changes nothing. */
  lemma {:induction false} WrapSum(a: nat, b: nat, size: nat)
    requires size > 0
    ensures Wrap(Wrap(a, size) + b, size) == Wrap(a + b, size)
  {
    if a >= size {
      WrapSum(a - size, b, size);
    }
  }

  /** Big-endian (network order) encodings. */
  function Be16(n: u16): bytes {
    [n / 256, n % 256]
  }

  function Be32(n: u32): bytes {
    Be16(n / 0x1_0000) + Be16(n % 0x1_0000)
  }

  function Be64(n: u64): bytes {
    Be32(n / 0x1_0000_0000) + Be32(n % 0x1_0000_0000)
  }

  function FromBe16(a: byte, b: byte): u16 {
    256 * a + b
  }

  function FromBe32(s: bytes): u32
    requires |s| == 4
  {
    0x1_0000 * FromBe16(s[0], s[1]) + FromBe16(s[2], s[3])
  }

  function FromBe64(s: bytes): u64
    requires |s| == 8
  {
    0x1_0000_0000 * FromBe32(s[..4]) + FromBe32(s[4..])
  }

  lemma Be16RoundTrip(n: u16)
    ensures |Be16(n)| == 2 && FromBe16(Be16(n)[0], Be16(n)[1]) == n
  {
  }

  lemma Be32RoundTrip(n: u32)
    ensures |Be32(n)| == 4 && FromBe32(Be32(n)) == n
  {
  }

  lemma Be64RoundTrip(n: u64)
    ensures |Be64(n)| == 8 && FromBe64(Be64(n)) == n
  {
  }
}
