/** Bytes, fixed-width integers and the few sequence facts every codec of the data path needs. */
module Bytes {

  type byte = b: int | 0 <= b < 256

  const TWO32: nat := 0x1_0000_0000
  const TWO64: nat := 0x1_0000_0000_0000_0000
  const INT_MAX: nat := 0x7FFF_FFFF

  datatype Option<T> = None | Some(value: T)

  function Min(a: nat, b: nat): nat { if a < b then a else b }

  /** The cast of a size_t to an int. */
  function AsInt(n: nat): int
  {
    var low := n % TWO32;
    if low > INT_MAX then low - TWO32 else low
  }

  function Zeros(n: nat): (r: seq<byte>)
    ensures |r| == n && forall i :: 0 <= i < n ==> r[i] == 0
  {
    seq(n, _ => 0)
  }

  lemma Associative(a: seq<byte>, b: seq<byte>, c: seq<byte>)
    ensures a + (b + c) == a + b + c
  {
  }

  lemma Halves(a: seq<byte>, b: seq<byte>)
    ensures (a + b)[..|a|] == a && (a + b)[|a|..] == b
  {
  }

  function Concat(parts: seq<seq<byte>>): seq<byte>
  {
    if parts == [] then [] else parts[0] + Concat(parts[1..])
  }

  lemma {:induction false} ConcatSplit(a: seq<seq<byte>>, b: seq<seq<byte>>)
    ensures Concat(a + b) == Concat(a) + Concat(b)
  {
    if a == [] {
      assert a + b == b;
    } else {
      assert (a + b)[1..] == a[1..] + b;
      ConcatSplit(a[1..], b);
    }
  }

  // Network byte order (htons, htonl) and its inverse (ntohs, ntohl).

  function Be16(v: nat): (r: seq<byte>)
    requires v < 0x1_0000
    ensures |r| == 2
  {
    [v / 256, v % 256]
  }

  function FromBe16(s: seq<byte>): (v: nat)
    requires |s| == 2
    ensures v < 0x1_0000
  {
    256 * (s[0] as int) + s[1]
  }

  lemma Be16RoundTrip(v: nat)
    requires v < 0x1_0000
    ensures FromBe16(Be16(v)) == v
  {
  }

  // Little-endian digits of a 32-bit value: host byte order of the supported targets.

  function Le32(v: nat): (r: seq<byte>)
    requires v < TWO32
    ensures |r| == 4
  {
    var q1 := v / 256;
    var q2 := q1 / 256;
    [v % 256, q1 % 256, q2 % 256, q2 / 256]
  }

  function FromLe32(s: seq<byte>): (v: nat)
    requires |s| == 4
    ensures v < TWO32
  {
    256 * (256 * (256 * (s[3] as int) + s[2]) + s[1]) + s[0]
  }

  lemma Le32RoundTrip(v: nat)
    requires v < TWO32
    ensures FromLe32(Le32(v)) == v
  {
  }

  lemma FromLe32RoundTrip(s: seq<byte>)
    requires |s| == 4
    ensures Le32(FromLe32(s)) == s
  {
    var q2 := 256 * (s[3] as int) + s[2];
    var q1 := 256 * q2 + s[1];
    var v := 256 * q1 + s[0];
    assert v / 256 == q1 && v % 256 == s[0];
    assert q1 / 256 == q2 && q1 % 256 == s[1];
    assert q2 / 256 == s[3] && q2 % 256 == s[2];
  }

  function Reverse4(s: seq<byte>): (r: seq<byte>)
    requires |s| == 4
    ensures |r| == 4
  {
    [s[3], s[2], s[1], s[0]]
  }

  function Be32(v: nat): (r: seq<byte>)
    requires v < TWO32
    ensures |r| == 4
  {
    Reverse4(Le32(v))
  }

  function FromBe32(s: seq<byte>): (v: nat)
    requires |s| == 4
    ensures v < TWO32
  {
    FromLe32(Reverse4(s))
  }

  lemma Be32RoundTrip(v: nat)
    requires v < TWO32
    ensures FromBe32(Be32(v)) == v
  {
    assert Reverse4(Be32(v)) == Le32(v);
    Le32RoundTrip(v);
  }

  // Which byte stands where, as arithmetic on the bytes.

  lemma Be16Bytes(v: nat)
    requires v < 0x1_0000
    ensures 256 * (Be16(v)[0] as int) + Be16(v)[1] == v
  {
  }

  lemma FromBe16Bytes(s: seq<byte>)
    requires |s| == 2
    ensures FromBe16(s) == 256 * (s[0] as int) + s[1]
  {
  }

  lemma Be32Bytes(v: nat)
    requires v < TWO32
    ensures var s := Be32(v); 16777216 * (s[0] as int) + 65536 * (s[1] as int) + 256 * (s[2] as int) + s[3] == v
  {
    var q1 := v / 256;
    var q2 := q1 / 256;
    assert v == 256 * q1 + v % 256 && q1 == 256 * q2 + q1 % 256;
  }

  lemma FromBe32Bytes(s: seq<byte>)
    requires |s| == 4
    ensures FromBe32(s) == 16777216 * (s[0] as int) + 65536 * (s[1] as int) + 256 * (s[2] as int) + s[3]
  {
  }

  lemma Le32Bytes(v: nat)
    requires v < TWO32
    ensures var s := Le32(v); (s[0] as int) + 256 * (s[1] as int) + 65536 * (s[2] as int) + 16777216 * (s[3] as int) == v
  {
    var q1 := v / 256;
    var q2 := q1 / 256;
    assert v == 256 * q1 + v % 256 && q1 == 256 * q2 + q1 % 256;
  }

  lemma FromLe32Bytes(s: seq<byte>)
    requires |s| == 4
    ensures FromLe32(s) == (s[0] as int) + 256 * (s[1] as int) + 65536 * (s[2] as int) + 16777216 * (s[3] as int)
  {
  }
}
