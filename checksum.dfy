/** The 8-bit additive checksum of the station protocol
    (`Sportiduino._checsum`). */
module Checksums {

  /** A byte as an integer in 0..255; `int2byte` and `byte2int` are the
      identity between the two views (Python 2 `six` semantics). */
  type byte = x: int | 0 <= x < 0x100

  /** The sum of the byte values of `s`, accumulated from the front as the
      loop does (the recursion peels off the last byte). */
  function Sum(s: seq<byte>): (r: nat)
    ensures r <= 0xff * |s|
  {
    if s == [] then 0 else Sum(s[..|s| - 1]) + s[|s| - 1]
  }

  /** The checksum: the sum of the byte values, keeping the low eight bits. */
  function Checksum(s: seq<byte>): (cs: byte)
    ensures s == [] ==> cs == 0
    ensures |s| == 1 ==> cs == s[0]
  {
    assert |s| == 1 ==> s[..0] == [];
    Sum(s) % 0x100
  }

  /** `_checsum`: a loop adds every byte value into an accumulator, which is
      then masked with 0xff. The accumulator is a non-negative unbounded
      integer, so the mask is the remainder modulo 256. */
  method ComputeChecksum(s: seq<byte>) returns (cs: byte)
    ensures cs == Checksum(s)
  {
    var sum: nat := 0;
    for i := 0 to |s|
      invariant sum == Sum(s[..i])
    {
      assert s[..i + 1][..i] == s[..i];
      sum := sum + s[i];
    }
    assert s[..|s|] == s;
    cs := sum % 0x100;
  }

  /** Appending a byte adds its value to the byte sum. */
  lemma SumAppend(s: seq<byte>, x: byte)
    ensures Sum(s + [x]) == Sum(s) + x
  {
  }

  /** The byte sum of a concatenation is the sum of the byte sums. */
  lemma {:induction false} SumConcat(a: seq<byte>, b: seq<byte>)
    ensures Sum(a + b) == Sum(a) + Sum(b)
  {
    if b != [] {
      var b' := b[..|b| - 1];
      assert (a + b)[..|a + b| - 1] == a + b';
      SumConcat(a, b');
    } else {
      assert a + b == a;
    }
  }

  /** The checksum of `a ++ b` is the checksum of `a` plus the checksum of
      `b`, modulo 256. */
  lemma ChecksumConcat(a: seq<byte>, b: seq<byte>)
    ensures Checksum(a + b) == (Checksum(a) + Checksum(b)) % 0x100
  {
    SumConcat(a, b);
    ModAdd(Sum(a), Sum(b));
  }

  /** Remainders modulo 256 distribute over addition. */
  lemma ModAdd(x: nat, y: nat)
    ensures (x + y) % 0x100 == (x % 0x100 + y % 0x100) % 0x100
  {
  }

  /** Replacing one byte changes the byte sum by exactly the difference. */
  lemma SumUpdate(s: seq<byte>, i: nat, v: byte)
    requires i < |s|
    ensures Sum(s[i := v]) + s[i] == Sum(s) + v
  {
    var pre, post := s[..i], s[i + 1..];
    assert s == pre + [s[i]] + post;
    assert s[i := v] == pre + [v] + post;
    SumConcat(pre + [s[i]], post);
    SumConcat(pre, [s[i]]);
    SumConcat(pre + [v], post);
    SumConcat(pre, [v]);
  }

  /** The checksum detects every change to a single byte: two different
      byte values never differ by a multiple of 256. */
  lemma ChecksumDetectsByteChange(s: seq<byte>, i: nat, v: byte)
    requires i < |s| && v != s[i]
    ensures Checksum(s[i := v]) != Checksum(s)
  {
    SumUpdate(s, i, v);
  }
}
