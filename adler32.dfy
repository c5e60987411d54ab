/** The Adler-32 checksum of section 2.2 of RFC 1950, computed with the
    running sums of the sample code in section 9 of RFC 1950, over the
    UTF-8 bytes of a string as Python's str.encode("utf-8") gives them. */
module Adler32 {

  type byte = b: int | 0 <= b < 256

  /** BASE: the largest prime below 65536. */
  const Base: nat := 65521

  /** The UTF-8 encoding of one Unicode scalar value. */
  function Utf8Char(c: char): (r: seq<byte>)
    ensures 1 <= |r| <= 4
    ensures c as int < 0x80 ==> r == [c as int]
  {
    var n := c as int;
    if n < 0x80 then [n]
    else if n < 0x800 then [0xC0 + n / 64, 0x80 + n % 64]
    else if n < 0x10000 then [0xE0 + n / 4096, 0x80 + (n / 64) % 64, 0x80 + n % 64]
    else [0xF0 + n / 262144, 0x80 + (n / 4096) % 64, 0x80 + (n / 64) % 64, 0x80 + n % 64]
  }

  /** s.encode("utf-8") */
  function Utf8(s: string): (r: seq<byte>)
    ensures |r| >= |s|
  {
    if s == [] then [] else Utf8Char(s[0]) + Utf8(s[1..])
  }

  /** An ASCII string encodes to its character codes, one byte each. */
  lemma {:induction false} Utf8Ascii(s: string)
    requires forall k :: 0 <= k < |s| ==> s[k] as int < 0x80
    ensures |Utf8(s)| == |s|
    ensures forall k :: 0 <= k < |s| ==> Utf8(s)[k] == s[k] as int
  {
    if s != [] {
      Utf8Ascii(s[1..]);
    }
  }

  /** D1 + D2 + ... + Dn */
  function Sum(data: seq<byte>): nat {
    if data == [] then 0 else Sum(data[..|data| - 1]) + data[|data| - 1]
  }

  /** (1 + D1) + (1 + D1 + D2) + ... + (1 + D1 + ... + Dn), before the modulus. */
  function PrefixSums(data: seq<byte>): nat {
    if data == [] then 0 else PrefixSums(data[..|data| - 1]) + 1 + Sum(data)
  }

  /** s1 = 1 + D1 + ... + Dn (modulo 65521) */
  function S1(data: seq<byte>): nat {
    (1 + Sum(data)) % Base
  }

  /** s2 = (1 + D1) + ... + (1 + D1 + ... + Dn) (modulo 65521) */
  function S2(data: seq<byte>): nat {
    PrefixSums(data) % Base
  }

  /** The checksum: s2 in the high 16 bits, s1 in the low 16 bits. */
  function Checksum(data: seq<byte>): (r: nat)
    ensures r < 0x1_0000_0000
    ensures r % 65536 == S1(data) && r / 65536 == S2(data)
  {
    S2(data) * 65536 + S1(data)
  }

  /** The running-sum loop of the RFC's sample code: each byte is added to
      s1 and the new s1 to s2, both reduced modulo BASE at every step. */
  method UpdateAdler32(data: seq<byte>) returns (adler: nat)
    ensures adler == Checksum(data)
  {
    var s1: nat := 1;
    var s2: nat := 0;
    for n := 0 to |data|
      invariant s1 == S1(data[..n])
      invariant s2 == S2(data[..n])
    {
      ghost var prefix := data[..n + 1];
      assert prefix[..n] == data[..n];
      ReduceEarly(1 + Sum(data[..n]), data[n]);
      s1 := (s1 + data[n]) % Base;
      ReduceEarly(PrefixSums(data[..n]), 1 + Sum(prefix));
      ReduceEarly(1 + Sum(prefix), PrefixSums(data[..n]) % Base);
      s2 := (s2 + s1) % Base;
    }
    assert data[..|data|] == data;
    adler := s2 * 65536 + s1;
  }

  /** Reducing a summand modulo BASE early leaves the reduced sum unchanged. */
  lemma ReduceEarly(a: nat, b: nat)
    ensures (a % Base + b) % Base == (a + b) % Base
  {
    var q := a / Base;
    assert a == Base * q + a % Base;
  }

  /** The checksum of no data is 1. */
  lemma ChecksumEmpty()
    ensures Checksum([]) == 1
  {
  }

  /** slug_to_provider_id: zlib.adler32 of the slug's UTF-8 bytes. */
  method SlugToProviderId(slug: string) returns (id: nat)
    ensures id == Checksum(Utf8(slug))
    ensures id < 0x1_0000_0000
  {
    id := UpdateAdler32(Utf8(slug));
  }

  /** The well-known test string "Wikipedia" has checksum 0x11E60398. */
  lemma ChecksumOfWikipedia()
    ensures Checksum([87, 105, 107, 105, 112, 101, 100, 105, 97]) == 0x11E60398
  {
    var w: seq<byte> := [87, 105, 107, 105, 112, 101, 100, 105, 97];
    assert w[..1][..0] == w[..0];
    assert Sum(w[..1]) == 87 && PrefixSums(w[..1]) == 88;
    assert w[..2][..1] == w[..1];
    assert Sum(w[..2]) == 192 && PrefixSums(w[..2]) == 281;
    assert w[..3][..2] == w[..2];
    assert Sum(w[..3]) == 299 && PrefixSums(w[..3]) == 581;
    assert w[..4][..3] == w[..3];
    assert Sum(w[..4]) == 404 && PrefixSums(w[..4]) == 986;
    assert w[..5][..4] == w[..4];
    assert Sum(w[..5]) == 516 && PrefixSums(w[..5]) == 1503;
    assert w[..6][..5] == w[..5];
    assert Sum(w[..6]) == 617 && PrefixSums(w[..6]) == 2121;
    assert w[..7][..6] == w[..6];
    assert Sum(w[..7]) == 717 && PrefixSums(w[..7]) == 2839;
    assert w[..8][..7] == w[..7];
    assert Sum(w[..8]) == 822 && PrefixSums(w[..8]) == 3662;
    assert w[..9][..8] == w[..8];
    assert Sum(w[..9]) == 919 && PrefixSums(w[..9]) == 4582;
    assert w[..9] == w;
  }
}
