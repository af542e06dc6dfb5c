/** Fixed-width words: the `u8` and `u32` of the source, with the wrapping arithmetic of a
    release build, and the little-endian layout of a length prefix. */
module Words {

  const MODULUS: nat := 0x1_0000_0000

  type byte = n: nat | n < 0x100
  type u32 = n: nat | n < 0x1_0000_0000

  /** `a.wrapping_add(n)`, and `a + n` in a release build. */
  function WrapAdd(a: u32, n: nat): u32 {
    (a + n) % MODULUS
  }

  /** `a.wrapping_sub(b)`. */
  function WrapSub(a: u32, b: u32): u32 {
    (a - b) % MODULUS
  }

  /** `n as u32`. */
  function Truncate(n: nat): u32 {
    n % MODULUS
  }

  /** `u32::to_le_bytes`. */
  function ToLittleEndian(n: u32): (bs: seq<byte>)
    ensures |bs| == 4
  {
    [n % 0x100, n / 0x100 % 0x100, n / 0x1_0000 % 0x100, n / 0x100_0000]
  }

  /** `u32::from_le_bytes`. */
  function FromLittleEndian(bs: seq<byte>): u32
    requires |bs| == 4
  {
    var b0: int, b1: int, b2: int, b3: int := bs[0], bs[1], bs[2], bs[3];
    b0 + 0x100 * b1 + 0x1_0000 * b2 + 0x100_0000 * b3
  }

  lemma LittleEndianRoundTrip(n: u32)
    ensures FromLittleEndian(ToLittleEndian(n)) == n
  {
    assert n == n % 0x100 + 0x100 * (n / 0x100);
    assert n / 0x100 == n / 0x100 % 0x100 + 0x100 * (n / 0x1_0000);
    assert n / 0x1_0000 == n / 0x1_0000 % 0x100 + 0x100 * (n / 0x100_0000);
  }

  lemma WrapAddAssoc(a: u32, m: nat, n: nat)
    ensures WrapAdd(WrapAdd(a, m), n) == WrapAdd(a, m + n)
  {
  }

  lemma WrapSubAdd(a: u32, n: u32)
    ensures WrapSub(WrapAdd(a, n), a) == n
  {
  }

  lemma TruncateSmall(n: nat, k: nat)
    requires n + k < MODULUS
    ensures Truncate(n) == n && WrapAdd(Truncate(n), k) == n + k
  {
  }

  // ----- division facts the ring needs -----

  lemma {:induction false} MulAtLeast(c: int, d: int)
    requires 0 < c && 1 <= d
    ensures c <= c * d
    decreases d
  {
    if d > 1 {
      MulAtLeast(c, d - 1);
      assert c * d == c * (d - 1) + c;
    }
  }

  /** The only multiple of `c` strictly between `-c` and `c` is zero. */
  lemma SmallMultiple(c: int, d: int)
    requires 0 < c && -c < c * d < c
    ensures d == 0
  {
    if d >= 1 {
      MulAtLeast(c, d);
    } else if d <= -1 {
      MulAtLeast(c, -d);
    }
  }

  lemma ModUnique(x: int, c: int, q: int, r: int)
    requires 0 <= r < c && x == c * q + r
    ensures x % c == r && x / c == q
  {
    assert x == c * (x / c) + x % c;
    assert c * (x / c - q) == r - x % c;
    SmallMultiple(c, x / c - q);
  }

  /** Reducing modulo a multiple of `c` first changes nothing modulo `c`. */
  lemma ModOfMod(x: int, c: int, m: int)
    requires 0 < c && 0 < m && m % c == 0
    ensures x % m % c == x % c
  {
    var k := m / c;
    assert m == c * k;
    var y := x % m;
    assert x == m * (x / m) + y;
    var q := y / c;
    assert y == c * q + y % c;
    assert m * (x / m) == c * (k * (x / m));
    assert x == c * (k * (x / m) + q) + y % c;
    ModUnique(x, c, k * (x / m) + q, y % c);
  }

  /** Numbers closer than `c` that agree modulo `c` are the same. */
  lemma ModDistinct(x: int, y: int, c: int)
    requires 0 < c && x <= y < x + c && x % c == y % c
    ensures x == y
  {
    assert x == c * (x / c) + x % c;
    assert y == c * (y / c) + y % c;
    var d := y / c - x / c;
    assert c * d == y - x;
    SmallMultiple(c, d);
  }
}
