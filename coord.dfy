/**
  The variable-length coordinate format shared by the Go packer
  (procsvg/prog.go `CoordBytes`, `CoordFromBytes`) and the C++ reader
  (gdiplusdemo/IconPack.cpp `ProgMem::coord`).

  The first byte `b0` announces the form: bit 0 set gives one byte holding an
  integer in [-64, 63]; otherwise bit 1 set gives two bytes holding a multiple
  of 1/64 in [-128, 128); otherwise four bytes hold an IEEE 754 binary32 bit
  pattern (IEEE 754-2008 section 3.4). Decoded values are kept exact:
  `Fixed(k)` stands for k/64, and a binary32 pattern is kept as its 32 bits.
 */
module Coord {
  import opened Base

  /** A decoded coordinate: `Fixed(k)` is k/64; `Binary32(bits)` is the binary32 number with that bit pattern. */
  datatype CoordValue = Fixed(k: int) | Binary32(bits: U32)

  /** The length of the form announced by a first byte. */
  function FormLength(b0: Byte): nat
  {
    if b0 % 2 == 1 then 1 else if (b0 / 2) % 2 == 1 then 2 else 4
  }

  /** The value of a coordinate in 1/64 units, where it has one. */
  function Sixtyfourths(c: CoordValue): real
    requires c.Fixed?
  {
    c.k as real / 64.0
  }

  function AbsR(x: real): real { if x < 0.0 then -x else x }

  /** Go's `math.Round`: the nearest integer, halves rounded away from zero. */
  function Round(v: real): (i: int)
    ensures -0.5 <= v - i as real <= 0.5
  {
    if v >= 0.0 then (v + 0.5).Floor else -((-v + 0.5).Floor)
  }

  lemma {:induction false} RoundOfInteger(k: int)
    ensures Round(k as real) == k
  {
    if k >= 0 {
      assert (k as real + 0.5).Floor == k;
    } else {
      assert (-(k as real) + 0.5).Floor == -k;
    }
  }

  /**
    `CoordBytes(p, v, prec)` without the length check on `p`: the bytes the
    packer writes for `v` at precision `prec`. `bits32` is Go's
    `math.Float32bits(float32(v))`, a floating-point conversion the model does
    not interpret.
   */
  function EncodeCoord(v: real, prec: real, bits32: real -> U32): (r: seq<Byte>)
    ensures |r| == 1 || |r| == 2 || |r| == 4
    ensures FormLength(r[0]) == |r|
  {
    if FitsOneByte(v, prec) then
      [(Round(v) + 64) * 2 + 1]
    else if FitsTwoBytes(v, prec) then
      var x := (Round(v * 64.0) + 8192) * 4 + 2;
      TwoByteTag(x);
      Le16(x)
    else
      var b := Le32(bits32(v));
      FourByteTag(b[0]);
      [b[0] - b[0] % 4] + b[1..]
  }

  /** The packer's test for the one-byte form: `v` is within `prec` of an integer in [-64, 64). */
  predicate FitsOneByte(v: real, prec: real)
  {
    var i := Round(v);
    AbsR(v - i as real) <= prec && -64 <= i < 64
  }

  /** The packer's test for the two-byte form: `v` is within `prec` of a multiple of 1/64 in [-128, 128). */
  predicate FitsTwoBytes(v: real, prec: real)
  {
    var n := Round(v * 64.0);
    AbsR(v - n as real / 64.0) <= prec && -8192 <= n < 8192
  }

  lemma TwoByteTag(x: int)
    requires x % 4 == 2
    ensures FormLength(x % 0x100) == 2
  {
    var lo := x % 0x100;
    assert x == 0x100 * (x / 0x100) + lo;
    assert lo % 4 == 2;
  }

  lemma FourByteTag(b: Byte)
    ensures FormLength(b - b % 4) == 4
  {
    assert (b - b % 4) % 4 == 0;
  }

  /**
    Go's `CoordBytes(p, v, prec)`: writes the encoding of `v` into the
    caller's buffer and returns its length, or returns 0 and leaves the
    buffer alone when the buffer is too short for the form needed.
   */
  method CoordBytes(p: array<Byte>, v: real, prec: real, bits32: real -> U32) returns (n: nat)
    modifies p
    ensures var enc := EncodeCoord(v, prec, bits32);
      n == (if |enc| <= p.Length then |enc| else 0)
    ensures p[..n] == EncodeCoord(v, prec, bits32)[..n]
    ensures p[n..] == old(p[n..])
  {
    if p.Length == 0 {
      return 0;
    }
    if FitsOneByte(v, prec) {
      p[0] := (Round(v) + 64) * 2 + 1;
      return 1;
    }
    if p.Length < 2 {
      return 0;
    }
    if FitsTwoBytes(v, prec) {
      var x := (Round(v * 64.0) + 8192) * 4 + 2;
      p[0] := x % 0x100;
      p[1] := x / 0x100;
      assert p[..2] == Le16(x);
      return 2;
    }
    if p.Length < 4 {
      return 0;
    }
    var b := Le32(bits32(v));
    p[0] := b[0] - b[0] % 4;
    p[1] := b[1];
    p[2] := b[2];
    p[3] := b[3];
    assert p[..4] == [b[0] - b[0] % 4] + b[1..];
    return 4;
  }

  /**
    Go's `CoordFromBytes(p)`: the coordinate at the start of `p` and the
    number of bytes it takes, or (0, 0) when `p` is empty or shorter than the
    form its first byte announces.
   */
  function CoordFromBytes(p: seq<Byte>): (res: (CoordValue, nat))
    ensures res.1 <= |p|
    ensures res.1 == 0 <==> (|p| == 0 || |p| < FormLength(p[0]))
    ensures res.1 != 0 ==> res.1 == FormLength(p[0])
    ensures res.1 == 0 ==> res.0 == Fixed(0)
  {
    if |p| == 0 then (Fixed(0), 0)
    else if p[0] % 2 == 1 then (Fixed(64 * (p[0] as int / 2 - 64)), 1)
    else if |p| < 2 then (Fixed(0), 0)
    else if (p[0] / 2) % 2 == 1 then
      var u := ReadLe16(p, 0);
      (Fixed(u / 4 - 8192), 2)
    else if |p| < 4 then (Fixed(0), 0)
    else (Binary32(ReadLe32(p, 0)), 4)
  }

  /** Whatever `v` is, the decoder consumes exactly the bytes the encoder wrote. */
  lemma EncodedLengthIsRead(v: real, prec: real, bits32: real -> U32, rest: seq<Byte>)
    ensures var enc := EncodeCoord(v, prec, bits32);
      CoordFromBytes(enc + rest).1 == |enc|
  {
    var enc := EncodeCoord(v, prec, bits32);
    assert (enc + rest)[0] == enc[0];
  }

  /**
    A one- or two-byte encoding decodes to a multiple of 1/64 within `prec`
    of the value encoded; a four-byte encoding decodes to the binary32
    pattern with its two tag bits cleared.
   */
  lemma EncodeDecodeWithinPrecision(v: real, prec: real, bits32: real -> U32, rest: seq<Byte>)
    ensures var enc := EncodeCoord(v, prec, bits32);
      var c := CoordFromBytes(enc + rest).0;
      (|enc| < 4 ==> c.Fixed? && AbsR(Sixtyfourths(c) - v) <= prec)
      && (|enc| == 4 ==> c == Binary32(bits32(v) - bits32(v) % 4))
  {
    var enc := EncodeCoord(v, prec, bits32);
    var p := enc + rest;
    assert p[0] == enc[0];
    if FitsOneByte(v, prec) {
      var i := Round(v);
      assert enc == [(i + 64) * 2 + 1];
      assert p[0] as int / 2 - 64 == i;
      assert Sixtyfourths(CoordFromBytes(p).0) == i as real;
    } else if FitsTwoBytes(v, prec) {
      var n := Round(v * 64.0);
      var x := (n + 8192) * 4 + 2;
      assert enc == Le16(x);
      assert ReadLe16(p, 0) == x;
      assert x / 4 - 8192 == n;
    } else {
      FourByteDecode(bits32(v), rest);
    }
  }

  /** The four-byte form reads back as the pattern with its two low bits cleared. */
  lemma FourByteDecode(bits: U32, rest: seq<Byte>)
    ensures var b := Le32(bits);
      CoordFromBytes([b[0] - b[0] % 4] + b[1..] + rest) == (Binary32(bits - bits % 4), 4)
  {
    var b := Le32(bits);
    FourByteTag(b[0]);
    var p := [b[0] - b[0] % 4] + b[1..] + rest;
    assert p[0] == b[0] - b[0] % 4;
    assert p[1] == b[1] && p[2] == b[2] && p[3] == b[3];
    assert ReadLe32(p, 0) == ReadLe32(b, 0) - b[0] % 4;
    assert b[0] % 4 == bits % 4;
  }

  /** A distance from an integer smaller than 1/64 means the multiple of 1/64 is that integer. */
  lemma {:induction false} NearIntegerSixtyfourths(k: int, j: int)
    requires AbsR(k as real / 64.0 - j as real) < 1.0 / 64.0
    ensures k == 64 * j
  {
    var d := k - 64 * j;
    assert k as real / 64.0 - j as real == d as real / 64.0;
    assert -1 < d < 1;
  }

  /**
    Round trip: every multiple k/64 in [-128, 128) comes back exactly, in
    one byte when it is an integer in [-64, 64) and in two bytes otherwise,
    for any precision in [0, 1/64).
   */
  lemma RoundTripFixed(k: int, prec: real, bits32: real -> U32, rest: seq<Byte>)
    requires -8192 <= k < 8192
    requires 0.0 <= prec < 1.0 / 64.0
    ensures var enc := EncodeCoord(k as real / 64.0, prec, bits32);
      CoordFromBytes(enc + rest)
        == (Fixed(k), if k % 64 == 0 && -64 <= k / 64 < 64 then 1 else 2)
  {
    var v := k as real / 64.0;
    if k % 64 == 0 && -64 <= k / 64 < 64 {
      assert v == (k / 64) as real;
      RoundTripInteger(k / 64, prec, bits32, rest);
    } else {
      OneByteMeansInteger(k, prec);
      RoundTripTwoBytes(k, prec, bits32, rest);
    }
  }

  /** An integer in [-64, 64) takes one byte and comes back exactly. */
  lemma RoundTripInteger(j: int, prec: real, bits32: real -> U32, rest: seq<Byte>)
    requires -64 <= j < 64 && 0.0 <= prec
    ensures CoordFromBytes(EncodeCoord(j as real, prec, bits32) + rest) == (Fixed(64 * j), 1)
  {
    RoundOfInteger(j);
    var enc := EncodeCoord(j as real, prec, bits32);
    assert FitsOneByte(j as real, prec);
    assert enc == [(j + 64) * 2 + 1];
    assert (enc + rest)[0] == enc[0];
  }

  /** A multiple of 1/64 in [-128, 128) that does not take one byte takes two and comes back exactly. */
  lemma RoundTripTwoBytes(k: int, prec: real, bits32: real -> U32, rest: seq<Byte>)
    requires -8192 <= k < 8192 && 0.0 <= prec
    requires !FitsOneByte(k as real / 64.0, prec)
    ensures CoordFromBytes(EncodeCoord(k as real / 64.0, prec, bits32) + rest) == (Fixed(k), 2)
  {
    var v := k as real / 64.0;
    assert FitsTwoBytes(v, prec) && Round(v * 64.0) == k by {
      assert v * 64.0 == k as real;
      RoundOfInteger(k);
    }
    var x := (k + 8192) * 4 + 2;
    var enc := EncodeCoord(v, prec, bits32);
    assert enc == Le16(x);
    var p := enc + rest;
    assert ReadLe16(p, 0) == x by {
      assert p[0] == enc[0] && p[1] == enc[1];
    }
    assert x / 4 - 8192 == k;
  }

  /** At a precision below 1/64 only integers take the one-byte form. */
  lemma OneByteMeansInteger(k: int, prec: real)
    requires prec < 1.0 / 64.0
    ensures FitsOneByte(k as real / 64.0, prec) ==> k == 64 * Round(k as real / 64.0)
  {
    var v := k as real / 64.0;
    if FitsOneByte(v, prec) {
      NearIntegerSixtyfourths(k, Round(v));
    }
  }

}
