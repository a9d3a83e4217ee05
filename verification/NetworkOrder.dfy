/** net/Endian.h: integers as big-endian two's-complement bytes. */
module NetworkOrder {
  import opened CMath

  function Octet(x: int): char {
    (x % 256) as char
  }

  function Power256(size: nat): (p: nat)
    ensures p >= 1
    ensures size > 0 ==> p % 2 == 0
  {
    if size == 0 then 1 else 256 * Power256(size - 1)
  }

  // The low `size` bytes of x, most significant first.
  function Encode(x: int, size: nat): (s: string)
    ensures |s| == size
    decreases size
  {
    if size == 0 then [] else Encode(x / 256, size - 1) + [Octet(x)]
  }

  // The unsigned value of big-endian bytes.
  function Unsigned(s: string): nat {
    if s == [] then 0 else Unsigned(s[..|s| - 1]) * 256 + s[|s| - 1] as int
  }

  // The value of a signed integer with those bytes.
  function Decode(s: string): int {
    var u := Unsigned(s);
    if |s| > 0 && u >= Power256(|s|) / 2 then u - Power256(|s|) else u
  }

  predicate FitsSigned(x: int, size: nat) {
    size > 0 && -(Power256(size) / 2) <= x < Power256(size) / 2
  }

  predicate IsOctets(s: string) {
    forall i :: 0 <= i < |s| ==> s[i] as int < 256
  }

  lemma ModuloByParts(x: int, p: nat)
    requires p > 0
    ensures x / 256 % p * 256 + x % 256 == x % (256 * p)
  {
    var q, r := x / 256 / p, x / 256 % p;
    var m := r * 256 + x % 256;
    assert 0 <= m < 256 * p;
    assert x == 256 * p * q + m by {
      assert x / 256 == p * q + r;
      assert 256 * (p * q) == 256 * p * q;
    }
    RemainderIs(x, 256 * p, q, m);
  }

  lemma {:induction false} UnsignedOfEncoded(x: int, size: nat)
    ensures Unsigned(Encode(x, size)) == x % Power256(size)
    decreases size
  {
    if size > 0 {
      UnsignedOfEncoded(x / 256, size - 1);
      assert Encode(x, size)[..size - 1] == Encode(x / 256, size - 1);
      ModuloByParts(x, Power256(size - 1));
    }
  }

  lemma FoldedResidue(x: int, p: int, u: int)
    requires p > 0 && p % 2 == 0 && u == x % p
    ensures (if u >= p / 2 then u - p else u) == x <==> -(p / 2) <= x < p / 2
  {
    if 0 <= x < p / 2 { RemainderIs(x, p, 0, x); }
    if -(p / 2) <= x < 0 { RemainderIs(x, p, -1, x + p); }
  }

  /** An integer reads back as written exactly when it fits the signed type of that size. */
  lemma EncodeRoundTrip(x: int, size: nat)
    requires size > 0
    ensures Decode(Encode(x, size)) == x <==> FitsSigned(x, size)
  {
    UnsignedOfEncoded(x, size);
    FoldedResidue(x, Power256(size), Unsigned(Encode(x, size)));
  }

  /** The bytes stand in network order: the k-th from the end is the k-th digit of x to the base 256. */
  lemma {:induction false} EncodeIsBigEndian(x: int, size: nat, k: nat)
    requires k < size
    ensures Encode(x, size)[size - 1 - k] as int == x / Power256(k) % 256
    decreases k
  {
    if k > 0 {
      EncodeIsBigEndian(x / 256, size - 1, k - 1);
      DivideByParts(x, 256, Power256(k - 1));
    }
  }

  lemma {:induction false} UnsignedBound(s: string)
    requires IsOctets(s)
    ensures Unsigned(s) < Power256(|s|)
  {
    if s != [] { UnsignedBound(s[..|s| - 1]); }
  }

  lemma {:induction false} EncodeOfUnsigned(s: string, x: int, q: int)
    requires IsOctets(s) && x == Power256(|s|) * q + Unsigned(s)
    ensures Encode(x, |s|) == s
  {
    if s != [] {
      var n := |s| - 1;
      var rest, p := s[..n], Power256(n);
      assert x == 256 * (p * q + Unsigned(rest)) + s[n] as int by { assert 256 * (p * q) == 256 * p * q; }
      assert x / 256 == p * q + Unsigned(rest) && x % 256 == s[n] as int;
      EncodeOfUnsigned(rest, x / 256, q);
      assert s == rest + [s[n]];
    }
  }

  /** Bytes read as an integer are written back as the same bytes. */
  lemma DecodeRoundTrip(s: string)
    requires IsOctets(s)
    ensures Encode(Decode(s), |s|) == s
  {
    UnsignedBound(s);
    EncodeOfUnsigned(s, Decode(s), if Decode(s) == Unsigned(s) then 0 else -1);
  }
}
