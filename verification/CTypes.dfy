/**
 The machine-level types the C sources compute with: signed chars, 32-bit ints
 stored in host (little-endian) order, and NUL-terminated strings.
 */
module CTypes {

  /** A C `char`, signed as on the targets of the Makefile. */
  type SChar = c: int | -128 <= c <= 127

  const INT_MAX := 0x7fff_ffff
  const INT_MIN := -0x8000_0000

  /** Any value a C `int` can hold. */
  type Int32 = i: int | INT_MIN <= i <= INT_MAX

  /** The conversion `(char)n`: keep the low byte, read it as signed. */
  function ToSChar(n: int): (c: SChar)
    ensures -128 <= n <= 127 ==> c == n
  {
    var u := n % 256;
    if u < 128 then u else u - 256
  }

  /** The byte a `char` occupies, read as unsigned. */
  function ToByte(c: SChar): (b: nat)
    ensures b < 256
  {
    if c < 0 then c + 256 else c
  }

  /** The four bytes `memcpy(_, &n, sizeof(int))` writes. */
  function IntBytes(n: int): (b: seq<SChar>)
    ensures |b| == 4
  {
    [ToSChar(n), ToSChar(n / 0x100), ToSChar(n / 0x1_0000), ToSChar(n / 0x100_0000)]
  }

  /** The int `memcpy(&n, _, sizeof(int))` reads from four bytes. */
  function BytesInt(b: seq<SChar>): (n: Int32)
    requires |b| == 4
  {
    var high: int := b[3];
    ToByte(b[0]) + 0x100 * ToByte(b[1]) + 0x1_0000 * ToByte(b[2]) + 0x100_0000 * high
  }

  lemma IntBytesRoundTrip(n: Int32)
    ensures BytesInt(IntBytes(n)) == n
  {
    assert ToByte(ToSChar(n)) == n % 0x100;
    var q := n / 0x100;
    assert ToByte(ToSChar(q)) == q % 0x100;
    assert n / 0x1_0000 == q / 0x100;
    var r := q / 0x100;
    assert ToByte(ToSChar(r)) == r % 0x100;
    assert n / 0x100_0000 == r / 0x100;
    assert -128 <= r / 0x100 <= 127;
  }

  /** What `strlen` and `strcmp` see of a block: the characters before its first NUL. */
  function CStr(s: seq<SChar>): (r: seq<SChar>)
    ensures |r| <= |s| && r == s[..|r|] && NulFree(r)
    ensures |r| < |s| ==> s[|r|] == 0
  {
    if s == [] || s[0] == 0 then [] else [s[0]] + CStr(s[1..])
  }

  predicate NulFree(s: seq<SChar>) {
    forall k | 0 <= k < |s| :: s[k] != 0
  }

  /** `CStr` is the only prefix that is NUL-free and stops at a NUL or at the end. */
  lemma {:induction false} CStrUnique(s: seq<SChar>, n: nat)
    requires n <= |s| && NulFree(s[..n])
    requires n < |s| ==> s[n] == 0
    ensures CStr(s) == s[..n]
  {
    if s != [] && s[0] != 0 {
      assert n > 0;
      assert s[1..][..n-1] == s[..n][1..];
      CStrUnique(s[1..], n - 1);
    }
  }
}
