/** Big-endian integers on byte streams, as encoding/binary writes them. */
module Wire {
  type byte = x: int | 0 <= x < 256

  function BE16(n: nat): (r: seq<byte>)
    requires n < 0x1_0000
    ensures |r| == 2 && UInt16(r) == n
  {
    [n / 0x100, n % 0x100]
  }

  function UInt16(s: seq<byte>): (n: nat)
    requires |s| == 2
    ensures n < 0x1_0000
  {
    s[0] as int * 0x100 + s[1] as int
  }

  function BE32(n: nat): (r: seq<byte>)
    requires n < 0x1_0000_0000
    ensures |r| == 4 && UInt32(r) == n
  {
    var high, low := n / 0x1_0000, n % 0x1_0000;
    [high / 0x100, high % 0x100, low / 0x100, low % 0x100]
  }

  function UInt32(s: seq<byte>): (n: nat)
    requires |s| == 4
    ensures n < 0x1_0000_0000
  {
    s[0] as int * 0x100_0000 + s[1] as int * 0x1_0000 + s[2] as int * 0x100 + s[3] as int
  }

  lemma DivMod(n: nat, d: nat, q: nat, r: nat)
    requires r < d && n == q * d + r
    ensures n / d == q && n % d == r
  {
    assert (n / d - q) * d == r - n % d;
    MultipleGrows(n / d - q, d);
  }

  lemma MultipleGrows(k: int, d: nat)
    ensures (k >= 1 ==> k * d >= d) && (k <= -1 ==> k * d <= 0 - d)
  {
    assert k >= 1 ==> (k - 1) * d >= 0;
    assert k <= -1 ==> (-1 - k) * d >= 0;
  }

  /** Decoding loses nothing: re-encoding gives the bytes back. */
  lemma Reencode16(s: seq<byte>)
    requires |s| == 2
    ensures BE16(UInt16(s)) == s
  {
  }

  lemma Reencode32(s: seq<byte>)
    requires |s| == 4
    ensures BE32(UInt32(s)) == s
  {
    var high, low := s[0] as int * 0x100 + s[1] as int, s[2] as int * 0x100 + s[3] as int;
    assert UInt32(s) == high * 0x1_0000 + low;
    DivMod(UInt32(s), 0x1_0000, high, low);
    DivMod(high, 0x100, s[0], s[1]);
    DivMod(low, 0x100, s[2], s[3]);
  }
}
