/** Bytes, 32-bit words and the little-endian header word of a p-bus frame. */
module Bytes {

  type byte = n: int | 0 <= n < 256

  const U32_LIMIT := 0x1_0000_0000

  type u32 = n: int | 0 <= n < 0x1_0000_0000

  type Text = seq<byte>

  /** What a u32 variable keeps of a size or a counter. */
  function Truncate32(n: nat): u32 {
    n % U32_LIMIT
  }

  /** The `k` low bytes of `n`, least significant first. */
  function LeBytes(n: nat, k: nat): (s: seq<byte>)
    ensures |s| == k
  {
    if k == 0 then [] else [n % 256] + LeBytes(n / 256, k - 1)
  }

  function LeValue(s: seq<byte>): nat {
    if s == [] then 0 else (s[0] as int) + 256 * LeValue(s[1..])
  }

  function Power256(k: nat): nat {
    if k == 0 then 1 else 256 * Power256(k - 1)
  }

  lemma {:induction false} LeValueOfBytes(n: nat, k: nat)
    requires n < Power256(k)
    ensures LeValue(LeBytes(n, k)) == n
  {
    if k > 0 {
      LeValueOfBytes(n / 256, k - 1);
      assert LeBytes(n, k)[1..] == LeBytes(n / 256, k - 1);
    }
  }

  lemma {:induction false} LeBytesOfValue(s: seq<byte>)
    ensures LeBytes(LeValue(s), |s|) == s && LeValue(s) < Power256(|s|)
  {
    if s != [] {
      LeBytesOfValue(s[1..]);
      assert s == [s[0]] + s[1..];
    }
  }

  lemma HeaderRange()
    ensures Power256(4) == U32_LIMIT
  {
    assert Power256(2) == 65536;
  }

  /** The header word. */
  function ToLe(n: u32): (s: seq<byte>)
    ensures |s| == 4
  {
    LeBytes(n, 4)
  }

  function FromLe(s: seq<byte>): u32
    requires |s| == 4
  {
    LeBytesOfValue(s);
    HeaderRange();
    LeValue(s)
  }

  lemma LeReadsBack(n: u32)
    ensures FromLe(ToLe(n)) == n
  {
    HeaderRange();
    LeValueOfBytes(n, 4);
  }

  lemma LeWritesBack(s: seq<byte>)
    requires |s| == 4
    ensures ToLe(FromLe(s)) == s
  {
    LeBytesOfValue(s);
  }

  /** The header word, byte by byte: the least significant one goes first. */
  lemma HeaderIsLittleEndian(n: u32)
    ensures ToLe(n) == [n % 0x100, n / 0x100 % 0x100, n / 0x1_0000 % 0x100, n / 0x100_0000]
  {
    var b, c, d := n / 0x100, n / 0x1_0000, n / 0x100_0000;
    assert b / 256 == c && c / 256 == d && d / 256 == 0 && d % 256 == d;
    assert LeBytes(d, 1) == [d] + LeBytes(0, 0);
    assert LeBytes(c, 2) == [c % 256] + LeBytes(d, 1);
    assert LeBytes(b, 3) == [b % 256] + LeBytes(c, 2);
  }

  function Ascii(s: string): Text {
    seq(|s|, i requires 0 <= i < |s| => s[i] as int % 256)
  }

  function Min(a: nat, b: nat): nat {
    if a < b then a else b
  }

  lemma Reassociate(a: seq<byte>, b: seq<byte>, c: seq<byte>)
    ensures a + (b + c) == (a + b) + c
  {
  }
}
