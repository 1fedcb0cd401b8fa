/** Big-endian integers as Go's encoding/binary writes them, and sequence prefixes. */
module Bytes {

  type byte = x: int | 0 <= x < 256

  /** A 32-bit unsigned value. */
  type u32 = x: int | 0 <= x < 0x1_0000_0000

  const U32_LIMIT := 0x1_0000_0000
  const U64_LIMIT := 0x1_0000_0000_0000_0000

  /** The four bytes of `uint32(n)`: a value of 2^32 or more is truncated. */
  function PutU32(n: nat): (b: seq<byte>)
    ensures |b| == 4
  {
    [n / 0x100_0000 % 256, n / 0x1_0000 % 256, n / 0x100 % 256, n % 256]
  }

  function GetU32(b: seq<byte>): (n: u32)
    requires |b| == 4
  {
    b[0] as int * 0x100_0000 + b[1] as int * 0x1_0000 + b[2] as int * 0x100 + b[3] as int
  }

  lemma GetPutU32(n: nat)
    ensures GetU32(PutU32(n)) == n % U32_LIMIT
    ensures n < U32_LIMIT ==> GetU32(PutU32(n)) == n
  {
    var q := n / 0x100;
    var r := q / 0x100;
    assert n / 0x1_0000 == r && n / 0x100_0000 == r / 0x100;
  }

  /** The eight bytes of `uint64(n)`, high word first. */
  function PutU64(n: nat): (b: seq<byte>)
    ensures |b| == 8
  {
    PutU32(n / U32_LIMIT) + PutU32(n % U32_LIMIT)
  }

  function GetU64(b: seq<byte>): nat
    requires |b| == 8
  {
    GetU32(b[..4]) * U32_LIMIT + GetU32(b[4..])
  }

  lemma GetPutU64(n: nat)
    requires n < U64_LIMIT
    ensures GetU64(PutU64(n)) == n
  {
    hide PutU32, GetU32;
    var high, low := n / U32_LIMIT, n % U32_LIMIT;
    assert PutU64(n)[..4] == PutU32(high) && PutU64(n)[4..] == PutU32(low);
    GetPutU32(high);
    GetPutU32(low);
  }

  /** The first `n` elements, or all of them when there are fewer. */
  function Take<T>(s: seq<T>, n: int): seq<T> {
    if n <= 0 then [] else if n >= |s| then s else s[..n]
  }

  /** What `Take` leaves behind. */
  function Drop<T>(s: seq<T>, n: int): seq<T> {
    if n <= 0 then s else if n >= |s| then [] else s[n..]
  }

  lemma TakeDropConcat<T>(a: seq<T>, b: seq<T>, n: int)
    ensures n <= |a| ==> Take(a + b, n) == Take(a, n) && Drop(a + b, n) == Drop(a, n) + b
    ensures n >= |a| ==> Take(a + b, n) == a + Take(b, n - |a|) && Drop(a + b, n) == Drop(b, n - |a|)
    ensures n >= |a| ==> Take(a, n) == a && Drop(a, n) == []
    ensures n > 0 && n <= |a| ==> |Take(a, n)| == n
  {
  }
}
