/** The base-128 varint and zigzag codecs of the hand-written Protocol Buffers serializer
    (src/common/serial_struct_define.h), with the byte reader they consume from. */
module Varint {
  import opened Bytes

  /** The two overload families: uint32_t (5 bytes at most) and uint64_t (10 bytes at most). */
  datatype Width = W32 | W64 {
    function Modulus(): int { if W32? then TWO32 else TWO64 }
    function MaxBytes(): nat { if W32? then 5 else 10 }
  }

  /** `v` shifted left by 7 bits, c times. */
  function Scale(v: nat, c: nat): (r: nat)
    ensures v <= r
  {
    if c == 0 then v else 128 * Scale(v, c - 1)
  }

  lemma WidthFits(w: Width)
    ensures w.Modulus() <= Scale(1, w.MaxBytes())
  {
    assert Scale(1, 3) == 128 * 128 * 128;
    assert Scale(1, 5) == 128 * 128 * Scale(1, 3);
    assert Scale(1, 7) == 128 * 128 * Scale(1, 5);
    assert Scale(1, 9) == 128 * 128 * Scale(1, 7);
  }

  /** Digits of `v` in base 128, least significant first; the top bit marks "more to come". */
  function Encode(v: nat): (r: seq<byte>)
    ensures |r| > 0
  {
    if v < 128 then [v] else [v % 128 + 128] + Encode(v / 128)
  }

  lemma {:induction false} EncodeLength(v: nat, n: nat)
    requires n > 0 && v < Scale(1, n)
    ensures |Encode(v)| <= n
    decreases n
  {
    if v >= 128 {
      EncodeLength(v / 128, n - 1);
    }
  }

  /** Result of a read: the success flag, the value left in the out-parameter (a partial one
      when the read fails) and the bytes not consumed. */
  datatype VarintRead = VarintRead(ok: bool, value: nat, rest: seq<byte>)

  /** The low seven bits of the c-th byte, shifted to their place and cut to the width. */
  function Shifted(x: byte, c: nat, w: Width): nat
  {
    if c == 0 then x % 128 else 128 * Shifted(x, c - 1, w) % w.Modulus()
  }

  /** Reads from the c-th digit on, with `acc` already collected. The bits of the new digit lie
      above those of `acc`, so the source's bitwise or adds it. */
  function DecodeFrom(s: seq<byte>, w: Width, c: nat, acc: nat): (d: VarintRead)
    requires c <= w.MaxBytes()
    ensures |d.rest| <= |s|
    ensures d.ok ==> |d.rest| < |s|
    decreases w.MaxBytes() - c
  {
    if c == w.MaxBytes() then VarintRead(false, acc, s)
    else if s == [] then VarintRead(false, acc, [])
    else
      var acc' := acc + Shifted(s[0], c, w);
      if s[0] < 128 then VarintRead(true, acc', s[1..])
      else DecodeFrom(s[1..], w, c + 1, acc')
  }

  function Decode(s: seq<byte>, w: Width): (d: VarintRead)
    ensures |d.rest| <= |s|
    ensures d.ok ==> |d.rest| < |s|
  {
    DecodeFrom(s, w, 0, 0)
  }

  lemma {:induction false} ScaleAdds(a: nat, q: nat, c: nat)
    ensures Scale(a + 128 * q, c) == Scale(a, c) + Scale(q, c + 1)
  {
    if c > 0 {
      ScaleAdds(a, q, c - 1);
    }
  }

  lemma {:induction false} ShiftedInRange(x: byte, c: nat, w: Width)
    requires Scale(x % 128, c) < w.Modulus()
    ensures Shifted(x, c, w) == Scale(x % 128, c)
  {
    if c > 0 {
      ShiftedInRange(x, c - 1, w);
    }
  }

  /** The low digit of `v` in its place, and the rest of `v` one place up. */
  lemma DigitAt(v: nat, w: Width, c: nat, x: byte)
    requires x % 128 == v % 128 && Scale(v, c) < w.Modulus()
    ensures v < 128 ==> Shifted(x, c, w) == Scale(v, c)
    ensures Shifted(x, c, w) + Scale(v / 128, c + 1) == Scale(v, c)
  {
    assert v == v % 128 + 128 * (v / 128);
    ScaleAdds(v % 128, v / 128, c);
    ShiftedInRange(x, c, w);
  }

  lemma ConsTail(x: byte, t: seq<byte>)
    ensures ([x] + t)[0] == x && ([x] + t)[1..] == t
  {
  }

  /** The first byte of an encoding, and what follows it. */
  lemma EncodedHead(v: nat, rest: seq<byte>)
    ensures Encode(v) + rest ==
      if v < 128 then [v] + rest else [v % 128 + 128] + (Encode(v / 128) + rest)
  {
    if v >= 128 {
      Associative([v % 128 + 128], Encode(v / 128), rest);
    }
  }

  lemma {:induction false} DecodeEncodeFrom(v: nat, w: Width, c: nat, acc: nat, rest: seq<byte>)
    requires c < w.MaxBytes()
    requires v < Scale(1, w.MaxBytes() - c)
    requires acc + Scale(v, c) < w.Modulus()
    ensures DecodeFrom(Encode(v) + rest, w, c, acc) == VarintRead(true, acc + Scale(v, c), rest)
    decreases v
  {
    EncodedHead(v, rest);
    if v < 128 {
      DigitAt(v, w, c, v);
      DecodeLast(v, rest, w, c, acc);
    } else {
      var x, q := v % 128 + 128, v / 128;
      DigitAt(v, w, c, x);
      ScaleSplit(v, w.MaxBytes() - c);
      DecodeEncodeFrom(q, w, c + 1, acc + Shifted(x, c, w), rest);
      DecodeMore(x, Encode(q) + rest, w, c, acc, acc + Scale(v, c), rest);
    }
  }

  lemma DecodeLast(x: byte, rest: seq<byte>, w: Width, c: nat, acc: nat)
    requires c < w.MaxBytes() && x < 128
    ensures DecodeFrom([x] + rest, w, c, acc) == VarintRead(true, acc + Shifted(x, c, w), rest)
  {
    ConsTail(x, rest);
  }

  lemma DecodeMore(x: byte, more: seq<byte>, w: Width, c: nat, acc: nat, total: nat, rest: seq<byte>)
    requires c < w.MaxBytes() && x >= 128
    requires DecodeFrom(more, w, c + 1, acc + Shifted(x, c, w)) == VarintRead(true, total, rest)
    ensures DecodeFrom([x] + more, w, c, acc) == VarintRead(true, total, rest)
  {
    ConsTail(x, more);
  }

  lemma ScaleSplit(v: nat, n: nat)
    requires v >= 128 && v < Scale(1, n)
    ensures n > 1 && v / 128 < Scale(1, n - 1)
  {
    assert n > 0;
    assert v < 128 * Scale(1, n - 1);
  }

  /** Reading what WriteVarint wrote gives the value back and consumes exactly its bytes. */
  lemma DecodeEncode(v: nat, w: Width, rest: seq<byte>)
    requires v < w.Modulus()
    ensures Decode(Encode(v) + rest, w) == VarintRead(true, v, rest)
  {
    WidthFits(w);
    DecodeEncodeFrom(v, w, 0, 0, rest);
  }

  // What the bytes mean, without the codec.

  /** The number whose base-128 digits, least significant first, are the low seven bits of the bytes. */
  function Meaning(s: seq<byte>): nat
  {
    if s == [] then 0 else s[0] % 128 + 128 * Meaning(s[1..])
  }

  /** All bytes but the last have the top bit set. */
  predicate Closed(s: seq<byte>)
  {
    s != [] && s[|s| - 1] < 128 && forall i :: 0 <= i < |s| - 1 ==> s[i] >= 128
  }

  /** The bytes written are the digits of the value, and no leading zero digit among them. */
  lemma {:induction false} EncodeMeans(v: nat)
    ensures Closed(Encode(v)) && Meaning(Encode(v)) == v && (|Encode(v)| > 1 ==> Encode(v)[|Encode(v)| - 1] != 0)
  {
    if v >= 128 {
      EncodeMeans(v / 128);
      var t := Encode(v / 128);
      assert Encode(v) == [v % 128 + 128] + t && ([v % 128 + 128] + t)[1..] == t;
      assert v == v % 128 + 128 * (v / 128);
    }
  }

  /** How often the width was cut off when the digit was shifted. */
  lemma {:induction false} ShiftedExcess(x: byte, c: nat, w: Width) returns (q: nat)
    ensures Shifted(x, c, w) + w.Modulus() * q == Scale(x % 128, c)
  {
    if c == 0 {
      q := 0;
    } else {
      var q' := ShiftedExcess(x, c - 1, w);
      var n := 128 * Shifted(x, c - 1, w);
      q := 128 * q' + n / w.Modulus();
      match w {
        case W32 => assert n == TWO32 * (n / TWO32) + n % TWO32;
        case W64 => assert n == TWO64 * (n / TWO64) + n % TWO64;
      }
    }
  }

  /** Reading any closed run of bytes, canonical or not, from digit c on. */
  lemma {:induction false} DecodeMeansFrom(s: seq<byte>, rest: seq<byte>, w: Width, c: nat, acc: nat) returns (q: nat)
    requires Closed(s) && c + |s| <= w.MaxBytes()
    ensures var d := DecodeFrom(s + rest, w, c, acc);
      d.ok && d.rest == rest && d.value + w.Modulus() * q == acc + Scale(Meaning(s), c)
    decreases |s|, 1
  {
    var x, t := s[0], s[1..];
    assert s + rest == [x] + (t + rest);
    ScaleAdds(x % 128, Meaning(t), c);
    if x < 128 {
      assert t == [] && t + rest == rest;
      q := ShiftedExcess(x, c, w);
      DecodeLast(x, rest, w, c, acc);
      ScaleZero(c + 1);
    } else {
      q := DecodeMeansMore(x, t, rest, w, c, acc);
    }
  }

  /** A digit with more behind it. */
  lemma {:induction false} DecodeMeansMore(x: byte, t: seq<byte>, rest: seq<byte>, w: Width, c: nat, acc: nat) returns (q: nat)
    requires x >= 128 && Closed(t) && c + 1 + |t| <= w.MaxBytes()
    ensures var d := DecodeFrom([x] + (t + rest), w, c, acc);
      d.ok && d.rest == rest && d.value + w.Modulus() * q == acc + (Scale(x % 128, c) + Scale(Meaning(t), c + 1))
    decreases |t|, 2
  {
    var q1 := ShiftedExcess(x, c, w);
    var acc' := acc + Shifted(x, c, w);
    var q2 := DecodeMeansFrom(t, rest, w, c + 1, acc');
    var d := DecodeFrom(t + rest, w, c + 1, acc');
    DecodeMore(x, t + rest, w, c, acc, d.value, rest);
    Distribute(w, q1, q2);
    q := q1 + q2;
  }

  lemma Distribute(w: Width, a: nat, b: nat)
    ensures w.Modulus() * (a + b) == w.Modulus() * a + w.Modulus() * b
  {
  }

  lemma {:induction false} ScaleZero(c: nat)
    ensures Scale(0, c) == 0
  {
    if c > 0 {
      ScaleZero(c - 1);
    }
  }

  /** What is read from any input: bytes up to the first without the top bit give their meaning cut to the
      width, whoever wrote them. */
  lemma DecodeMeans(s: seq<byte>, rest: seq<byte>, w: Width)
    requires Closed(s) && |s| <= w.MaxBytes()
    ensures var d := Decode(s + rest, w); d.ok && d.rest == rest && d.value % w.Modulus() == Meaning(s) % w.Modulus()
  {
    var q := DecodeMeansFrom(s, rest, w, 0, 0);
    SameRest(Decode(s + rest, w).value, Meaning(s), q, w);
  }

  lemma SameRest(v: nat, n: nat, q: nat, w: Width)
    requires v + w.Modulus() * q == n
    ensures v % w.Modulus() == n % w.Modulus()
  {
    match w
    case W32 => SameRest32(v, n, q);
    case W64 => SameRest64(v, n, q);
  }

  lemma SameRest32(v: nat, n: nat, q: nat)
    requires v + TWO32 * q == n
    ensures v % TWO32 == n % TWO32
  {
    assert n == TWO32 * (v / TWO32 + q) + v % TWO32;
  }

  lemma SameRest64(v: nat, n: nat, q: nat)
    requires v + TWO64 * q == n
    ensures v % TWO64 == n % TWO64
  {
    assert n == TWO64 * (v / TWO64 + q) + v % TWO64;
  }

  /** And without such a byte among the first five or ten the read fails and consumes them. */
  lemma {:induction false} DecodeOpen(s: seq<byte>, w: Width, c: nat, acc: nat)
    requires c <= w.MaxBytes() && forall i :: 0 <= i < |s| && i < w.MaxBytes() - c ==> s[i] >= 128
    ensures var d := DecodeFrom(s, w, c, acc); !d.ok && d.rest == s[Min(|s|, w.MaxBytes() - c)..]
    decreases w.MaxBytes() - c
  {
    if c < w.MaxBytes() && s != [] {
      DecodeOpen(s[1..], w, c + 1, acc + Shifted(s[0], c, w));
    }
  }

  lemma EncodeStep(prefix: seq<byte>, v: nat)
    requires v >= 128
    ensures prefix + Encode(v) == prefix + [v % 128 + 128] + Encode(v / 128)
  {
  }

  /** One digit of the writer's loop; the last one leaves no quotient. */
  method PutDigit(b: array<byte>, i: nat, v: nat) returns (last: bool)
    requires i < b.Length
    modifies b
    ensures last == (v < 128)
    ensures last ==> b[..i + 1] == old(b[..i]) + Encode(v)
    ensures !last ==> b[..i + 1] + Encode(v / 128) == old(b[..i]) + Encode(v)
  {
    ghost var prefix := b[..i];
    b[i] := v % 128;
    last := v / 128 == 0;
    if !last {
      EncodeStep(prefix, v);
      b[i] := v % 128 + 128;
    }
    assert b[..i + 1] == prefix + [b[i]];
  }

  /** The writer's loop: one digit per iteration into a fixed array, emitted at the first zero quotient. */
  method WriteVarint(value: nat, w: Width) returns (out: seq<byte>)
    requires value < w.Modulus()
    ensures out == Encode(value)
  {
    WidthFits(w);
    var n := w.MaxBytes();
    var b := new byte[n](_ => 0);
    var v: nat, i, done := value, 0, false;
    out := [];
    while i < n && !done
      invariant 0 <= i <= n
      invariant done ==> out == Encode(value)
      invariant !done ==> v < Scale(1, n - i) && (i > 0 ==> v > 0)
      invariant !done ==> b[..i] + Encode(v) == Encode(value)
      decreases n - i, !done
    {
      done := PutDigit(b, i, v);
      if done {
        out := b[..i + 1];
      } else {
        v := v / 128;
        i := i + 1;
      }
    }
  }

  /** `StringReader`: a cursor over the received bytes. */
  class StringReader {
    const input: seq<byte>
    var pos: nat

    ghost predicate Valid()
      reads this
    {
      pos <= |input|
    }

    ghost function Rest(): seq<byte>
      reads this
      requires Valid()
    {
      input[pos..]
    }

    constructor (s: seq<byte>)
      ensures Valid() && Rest() == s
    {
      input := s;
      pos := 0;
    }

    method Read(size: nat) returns (bytes: seq<byte>)
      requires Valid()
      modifies this
      ensures Valid()
      ensures bytes == old(Rest())[..Min(size, |old(Rest())|)]
      ensures Rest() == old(Rest())[|bytes|..]
    {
      var readSize := Min(size, |input| - pos);
      bytes := input[pos..pos + readSize];
      pos := pos + readSize;
    }

    method ReadByte() returns (ok: bool, x: byte)
      requires Valid()
      modifies this
      ensures Valid()
      ensures ok == (old(Rest()) != [])
      ensures ok ==> x == old(Rest())[0] && Rest() == old(Rest())[1..]
      ensures !ok ==> Rest() == old(Rest())
    {
      var bytes := Read(1);
      ok := |bytes| == 1;
      x := if ok then bytes[0] else 0;
    }

    /** One iteration of the reader's loop. */
    method ReadDigit(w: Width, c: nat, acc: nat) returns (more: bool, ok: bool, value: nat)
      requires Valid() && c < w.MaxBytes()
      modifies this
      ensures Valid()
      ensures more ==> !ok && DecodeFrom(Rest(), w, c + 1, value) == DecodeFrom(old(Rest()), w, c, acc)
      ensures !more ==> VarintRead(ok, value, Rest()) == DecodeFrom(old(Rest()), w, c, acc)
    {
      var got, x := ReadByte();
      if got {
        value := acc + Shifted(x, c, w);
        ok := x < 128;
        more := !ok;
      } else {
        more, ok, value := false, false, acc;
      }
    }

    /** The reader's loop: at most MaxBytes digits, stopping at the first without the top bit. */
    method ReadVarint(w: Width) returns (ok: bool, value: nat)
      requires Valid()
      modifies this
      ensures Valid()
      ensures VarintRead(ok, value, Rest()) == Decode(old(Rest()), w)
    {
      ok, value := false, 0;
      var c, more := 0, true;
      while c < w.MaxBytes() && more
        invariant Valid() && c <= w.MaxBytes()
        invariant more ==> !ok && DecodeFrom(Rest(), w, c, value) == Decode(old(Rest()), w)
        invariant !more ==> VarintRead(ok, value, Rest()) == Decode(old(Rest()), w)
      {
        more, ok, value := ReadDigit(w, c, value);
        c := c + 1;
      }
    }
  }

  // Zigzag

  function Pow2(n: nat): (m: nat)
    ensures m > 0
  {
    if n == 0 then 1 else 2 * Pow2(n - 1)
  }

  /** Bitwise exclusive or. */
  function Xor(a: nat, b: nat): nat
    decreases a + b
  {
    if a == 0 && b == 0 then 0 else (if a % 2 == b % 2 then 0 else 1) + 2 * Xor(a / 2, b / 2)
  }

  lemma {:induction false} XorZeros(a: nat)
    ensures Xor(a, 0) == a
  {
    if a != 0 {
      XorZeros(a / 2);
    }
  }

  /** Exclusive or with n ones is subtraction from them. */
  lemma {:induction false} XorOnes(a: nat, n: nat)
    requires a < Pow2(n)
    ensures Xor(a, Pow2(n) - 1) == Pow2(n) - 1 - a
    decreases n
  {
    if n > 0 {
      var k := Pow2(n - 1);
      assert (2 * k - 1) / 2 == k - 1 && (2 * k - 1) % 2 == 1;
      XorOnes(a / 2, n - 1);
    }
  }

  lemma Pow2Byte(n: nat)
    requires n >= 8
    ensures Pow2(n) == 256 * Pow2(n - 8)
  {
    assert Pow2(n) == 4 * Pow2(n - 2);
    assert Pow2(n - 2) == 4 * Pow2(n - 4);
    assert Pow2(n - 4) == 4 * Pow2(n - 6);
    assert Pow2(n - 6) == 4 * Pow2(n - 8);
  }

  lemma Pow2Word(n: nat)
    requires n >= 32
    ensures Pow2(n) == TWO32 * Pow2(n - 32)
  {
    Pow2Byte(n);
    Pow2Byte(n - 8);
    Pow2Byte(n - 16);
    Pow2Byte(n - 24);
  }

  /** The masks of a width: all zeros changes nothing, all ones subtracts. */
  lemma XorMask(a: nat, w: Width, n: nat)
    requires a < w.Modulus() && n == if w.W32? then 32 else 64
    ensures Xor(a, 0) == a && Xor(a, w.Modulus() - 1) == w.Modulus() - 1 - a
  {
    Pow2Word(n);
    if w.W64? {
      Pow2Word(n - 32);
    }
    XorZeros(a);
    XorOnes(a, n);
  }

  lemma Doubled(value: int, w: Width)
    requires -w.Modulus() <= 2 * value < w.Modulus()
    ensures value < 0 ==> 2 * (value + w.Modulus()) % w.Modulus() == 2 * value + w.Modulus()
    ensures value >= 0 ==> 2 * value % w.Modulus() == 2 * value
  {
  }

  lemma LowBitMask(bit: nat, w: Width)
    requires bit < 2
    ensures (w.Modulus() - 1 - bit + 1) % w.Modulus() == if bit == 0 then 0 else w.Modulus() - 1
  {
  }

  /** The value shifted left by one, xor its sign bit shifted right over the whole width. */
  function MakeZigzag(value: int, w: Width): (z: nat)
    requires -w.Modulus() <= 2 * value < w.Modulus()
    ensures z < w.Modulus()
    ensures z == if value >= 0 then 2 * value else -2 * value - 1
  {
    var m := w.Modulus();
    var unsigned := if value < 0 then value + m else value;
    var signs := if value < 0 then m - 1 else 0;
    Doubled(value, w);
    XorMask(2 * unsigned % m, w, if w.W32? then 32 else 64);
    Xor(2 * unsigned % m, signs)
  }

  /** The value shifted right by one, xor the complement of its low bit plus one. */
  function ReadZigzag(z: nat, w: Width): (value: int)
    requires z < w.Modulus()
    ensures -w.Modulus() <= 2 * value < w.Modulus()
    ensures MakeZigzag(value, w) == z
  {
    var m := w.Modulus();
    var mask := (m - 1 - z % 2 + 1) % m;
    LowBitMask(z % 2, w);
    XorMask(z / 2, w, if w.W32? then 32 else 64);
    var raw := Xor(z / 2, mask);
    if 2 * raw >= m then raw - m else raw
  }

  /** Together with the contract of ReadZigzag: the two are mutually inverse bijections. */
  lemma ZigzagRoundTrip(value: int, w: Width)
    requires -w.Modulus() <= 2 * value < w.Modulus()
    ensures ReadZigzag(MakeZigzag(value, w), w) == value
  {
  }
}
