/** Machine words as the Java code sees them: an unsigned octet on the wire,
    a signed 32-bit `int`, and `ByteBuffer`'s big-endian `putInt`/`getInt`. */
module Wire {

  /** One octet of a datagram. Java's signed `byte` is compared only for
      equality with constants, so the unsigned view loses nothing. */
  newtype byte = x: int | 0 <= x < 0x100

  /** Java `int`. */
  newtype int32 = x: int | -0x8000_0000 <= x < 0x8000_0000

  const TwoTo32: int := 0x1_0000_0000

  datatype Option<+T> = None | Some(value: T)

  /** The unsigned 32-bit pattern of a Java `int` (two's complement). */
  function Unsigned(v: int32): (u: nat)
    ensures u < TwoTo32
    ensures (u - v as int) % TwoTo32 == 0
    ensures 0 <= v as int ==> u == v as int
  {
    if v < 0 then v as int + TwoTo32 else v as int
  }

  /** The four octets `ByteBuffer.putInt` writes, most significant first. */
  function BigEndian32(v: int32): (r: seq<byte>)
    ensures |r| == 4
  {
    var u := Unsigned(v);
    [(u / 0x100_0000) as byte, (u / 0x1_0000 % 0x100) as byte,
     (u / 0x100 % 0x100) as byte, (u % 0x100) as byte]
  }

  /** The unsigned value of four big-endian octets. */
  function WordValue(b: seq<byte>): (u: nat)
    requires |b| == 4
    ensures u < TwoTo32
  {
    b[0] as int * 0x100_0000 + b[1] as int * 0x1_0000 + b[2] as int * 0x100 + b[3] as int
  }

  /** `ByteBuffer.getInt` on four octets: the signed reading of their value. */
  function ReadInt32(b: seq<byte>): (v: int32)
    requires |b| == 4
    ensures Unsigned(v) == WordValue(b)
  {
    var u := WordValue(b);
    if u < 0x8000_0000 then u as int32 else (u - TwoTo32) as int32
  }

  /** Writing an `int` and reading it back gives the same `int`. */
  lemma ReadBigEndian32(v: int32)
    ensures ReadInt32(BigEndian32(v)) == v
  {
    var u := Unsigned(v);
    DigitsRecombine(u);
    assert WordValue(BigEndian32(v)) == u;
  }

  /** Reading four octets and writing the `int` back gives the same octets. */
  lemma BigEndianReadInt32(b: seq<byte>)
    requires |b| == 4
    ensures BigEndian32(ReadInt32(b)) == b
  {
    var u := WordValue(b);
    DigitsOf(b[0] as int, b[1] as int, b[2] as int, b[3] as int);
    assert Unsigned(ReadInt32(b)) == u;
  }

  /** Two four-octet groups are equal exactly when they read as the same `int`. */
  lemma ReadInt32Injective(a: seq<byte>, b: seq<byte>)
    requires |a| == 4 && |b| == 4
    ensures ReadInt32(a) == ReadInt32(b) <==> a == b
  {
    BigEndianReadInt32(a);
    BigEndianReadInt32(b);
  }

  lemma DigitsRecombine(u: nat)
    requires u < TwoTo32
    ensures (u / 0x100_0000) * 0x100_0000 + (u / 0x1_0000 % 0x100) * 0x1_0000
            + (u / 0x100 % 0x100) * 0x100 + u % 0x100 == u
  {
    var a, b, c, d := u / 0x100_0000, u / 0x1_0000 % 0x100, u / 0x100 % 0x100, u % 0x100;
    assert u / 0x100 == (u / 0x1_0000) * 0x100 + c;
    assert u / 0x1_0000 == a * 0x100 + b;
    assert u == (u / 0x100) * 0x100 + d;
  }

  lemma DigitsOf(a: int, b: int, c: int, d: int)
    requires 0 <= a < 0x100 && 0 <= b < 0x100 && 0 <= c < 0x100 && 0 <= d < 0x100
    ensures var u := a * 0x100_0000 + b * 0x1_0000 + c * 0x100 + d;
      u / 0x100_0000 == a && u / 0x1_0000 % 0x100 == b && u / 0x100 % 0x100 == c && u % 0x100 == d
  {
    var u := a * 0x100_0000 + b * 0x1_0000 + c * 0x100 + d;
    var hi := a * 0x1_0000 + b * 0x100 + c;
    assert u == hi * 0x100 + d;
    assert u / 0x100 == hi;
    var mid := a * 0x100 + b;
    assert hi == mid * 0x100 + c;
    assert u / 0x1_0000 == hi / 0x100 == mid;
    assert u / 0x100_0000 == mid / 0x100 == a;
  }

  /** Where the three parts of a concatenation sit in it. */
  lemma Pieces(a: seq<byte>, b: seq<byte>, c: seq<byte>)
    ensures (a + b + c)[..|a|] == a
    ensures (a + b + c)[|a| .. |a| + |b|] == b
    ensures (a + b + c)[|a| + |b| ..] == c
  {
  }

  /** `n` zero octets, as `new byte[n]` holds. */
  function Zeros(n: nat): (r: seq<byte>)
    ensures |r| == n && forall i :: 0 <= i < n ==> r[i] == 0
  {
    seq(n, _ => 0)
  }
}
