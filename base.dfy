/**
  Shared vocabulary of the model: optional values and results, the fixed-width
  unsigned integers of the wire format, and little-endian byte order.
  Every width is an explicit range over `int`, so wrap-around and truncation
  have to be written out where the source relies on them.
 */
module Base {

  datatype Option<T> = None | Some(value: T)

  datatype Result<T, E> = Ok(value: T) | Err(error: E)

  type Byte = b: int | 0 <= b < 0x100
  type U16 = x: int | 0 <= x < 0x1_0000
  type U32 = x: int | 0 <= x < 0x1_0000_0000

  /** Truncation of any integer to the low 8, 16 or 32 bits (Go `byte(x)`, `uint16(x)`, `uint32(x)`). */
  function ToByte(x: int): Byte { x % 0x100 }
  function ToU16(x: int): U16 { x % 0x1_0000 }
  function ToU32(x: int): U32 { x % 0x1_0000_0000 }

  /** A count that already fits in 32 bits is stored unchanged. */
  lemma ToU32Small(x: int)
    requires 0 <= x < 0x1_0000_0000
    ensures ToU32(x) == x
  {
  }

  /** The little-endian 16-bit value stored at s[i], s[i+1]. */
  function ReadLe16(s: seq<Byte>, i: nat): U16
    requires i + 2 <= |s|
  {
    s[i] as int + 0x100 * s[i + 1] as int
  }

  /** The little-endian 32-bit value stored at s[i..i+4]. */
  function ReadLe32(s: seq<Byte>, i: nat): U32
    requires i + 4 <= |s|
  {
    s[i] as int + 0x100 * s[i + 1] as int + 0x1_0000 * s[i + 2] as int + 0x100_0000 * s[i + 3] as int
  }

  /** Go's `byteOrder.PutUint16` (little endian). */
  function Le16(x: U16): (r: seq<Byte>)
    ensures |r| == 2 && ReadLe16(r, 0) == x
  {
    [x % 0x100, x / 0x100]
  }

  /** Go's `byteOrder.PutUint32` / the C++ `readUint32` layout (little endian). */
  function Le32(x: U32): (r: seq<Byte>)
    ensures |r| == 4 && ReadLe32(r, 0) == x
  {
    [x % 0x100, (x / 0x100) % 0x100, (x / 0x1_0000) % 0x100, x / 0x100_0000]
  }

  /** Reading then re-encoding four bytes gives them back: the byte order is a bijection. */
  lemma Le32OfRead(s: seq<Byte>, i: nat)
    requires i + 4 <= |s|
    ensures Le32(ReadLe32(s, i)) == s[i..i + 4]
  {
    var x := ReadLe32(s, i);
    var q1 := s[i + 1] as int + 0x100 * s[i + 2] as int + 0x1_0000 * s[i + 3] as int;
    var q2 := s[i + 2] as int + 0x100 * s[i + 3] as int;
    DivMod256(s[i], q1);
    DivMod256(s[i + 1], q2);
    DivMod256(s[i + 2], s[i + 3]);
    assert x / 0x1_0000 == (x / 0x100) / 0x100;
    assert x / 0x100_0000 == ((x / 0x100) / 0x100) / 0x100;
  }

  /** The same for two bytes. */
  lemma Le16OfRead(s: seq<Byte>, i: nat)
    requires i + 2 <= |s|
    ensures Le16(ReadLe16(s, i)) == s[i..i + 2]
  {
    DivMod256(s[i], s[i + 1]);
  }

  lemma DivMod256(lo: Byte, q: int)
    ensures (lo + 0x100 * q) / 0x100 == q && (lo + 0x100 * q) % 0x100 == lo
  {
  }

  /** Adding to a 32-bit wrapped sum is the wrapped sum of the whole. */
  lemma ToU32Add(a: int, b: int)
    ensures (ToU32(a) + b) % 0x1_0000_0000 == ToU32(a + b)
  {
    var m := 0x1_0000_0000;
    assert a == m * (a / m) + a % m;
    assert (a % m + b) == (a + b) - m * (a / m);
  }

  /** Reading a little-endian value does not depend on what follows it. */
  lemma ReadLe32Prefix(s: seq<Byte>, t: seq<Byte>, i: nat)
    requires i + 4 <= |s|
    ensures ReadLe32(s + t, i) == ReadLe32(s, i)
  {
  }

  /** The pieces `f` makes of `v`, element after element, joined. */
  function Flat<T, U>(f: T -> seq<U>, v: seq<T>): seq<U>
    decreases |v|
  {
    if |v| == 0 then [] else Flat(f, v[..|v| - 1]) + f(v[|v| - 1])
  }

  lemma {:induction false} FlatConcat<T, U>(f: T -> seq<U>, a: seq<T>, b: seq<T>)
    ensures Flat(f, a + b) == Flat(f, a) + Flat(f, b)
    decreases |b|
  {
    if |b| == 0 {
      assert a + b == a;
    } else {
      assert (a + b)[..|a + b| - 1] == a + b[..|b| - 1];
      assert (a + b)[|a + b| - 1] == b[|b| - 1];
      FlatConcat(f, a, b[..|b| - 1]);
    }
  }

  /** Splitting off the first element of `Flat`. */
  lemma FlatFront<T, U>(f: T -> seq<U>, s: seq<T>)
    requires |s| > 0
    ensures Flat(f, s) == f(s[0]) + Flat(f, s[1..])
  {
    var h := [s[0]];
    assert h[..0] == [];
    assert Flat(f, h) == f(s[0]);
    assert h + s[1..] == s;
    FlatConcat(f, h, s[1..]);
  }
}
