/** Byte strings and fixed-width integers in them. */
module ByteStrings {
  import opened Powers

  type Byte = b: int | 0 <= b < 256

  type Bytes = seq<Byte>

  /** The `len` low bytes of `n`, lowest first. */
  function LittleEndian(n: nat, len: nat): (b: Bytes)
    ensures |b| == len
  {
    if len == 0 then [] else [n % 256] + LittleEndian(n / 256, len - 1)
  }

  function FromLittleEndian(b: Bytes): nat {
    if b == [] then 0 else b[0] + 256 * FromLittleEndian(b[1..])
  }

  lemma {:induction false} LittleEndianRoundTrip(n: nat, len: nat)
    requires n < Pow(256, len)
    ensures FromLittleEndian(LittleEndian(n, len)) == n
  {
    if len > 0 {
      LittleEndianRoundTrip(n / 256, len - 1);
      assert LittleEndian(n, len)[1..] == LittleEndian(n / 256, len - 1);
    }
  }

  lemma {:induction false} LittleEndianOnto(b: Bytes)
    ensures FromLittleEndian(b) < Pow(256, |b|) && LittleEndian(FromLittleEndian(b), |b|) == b
  {
    if b != [] {
      var n := FromLittleEndian(b[1..]);
      LittleEndianOnto(b[1..]);
      assert b == [b[0]] + b[1..];
      DivisionIs(b[0] + 256 * n, 256, n, b[0]);
    }
  }

  /** The `len` low bytes of `n`, highest first. */
  function BigEndian(n: nat, len: nat): (b: Bytes)
    ensures |b| == len
  {
    if len == 0 then [] else BigEndian(n / 256, len - 1) + [n % 256]
  }

  function FromBigEndian(b: Bytes): (n: nat)
    ensures n < Pow(256, |b|)
  {
    if b == [] then 0 else 256 * FromBigEndian(b[..|b| - 1]) + b[|b| - 1]
  }

  lemma {:induction false} BigEndianRoundTrip(n: nat, len: nat)
    requires n < Pow(256, len)
    ensures FromBigEndian(BigEndian(n, len)) == n
  {
    if len > 0 {
      BigEndianRoundTrip(n / 256, len - 1);
      assert BigEndian(n, len)[..len - 1] == BigEndian(n / 256, len - 1);
    }
  }

  lemma {:induction false} BigEndianOnto(b: Bytes)
    ensures BigEndian(FromBigEndian(b), |b|) == b
  {
    if b != [] {
      BigEndianOnto(b[..|b| - 1]);
      assert b == b[..|b| - 1] + [b[|b| - 1]];
    }
  }

  /** Byte strings of one length compared byte by byte from the front. */
  predicate Before(a: Bytes, b: Bytes)
    requires |a| == |b|
  {
    a != [] && (a[0] < b[0] || (a[0] == b[0] && Before(a[1..], b[1..])))
  }

  lemma {:induction false} BeforeLast(a: Bytes, b: Bytes, x: Byte, y: Byte)
    requires |a| == |b|
    ensures Before(a + [x], b + [y]) <==> Before(a, b) || (a == b && x < y)
  {
    if a == [] {
      assert a + [x] == [x] && b + [y] == [y];
    } else {
      assert (a + [x])[1..] == a[1..] + [x] && (b + [y])[1..] == b[1..] + [y];
      BeforeLast(a[1..], b[1..], x, y);
      assert a == [a[0]] + a[1..] && b == [b[0]] + b[1..];
    }
  }

  /** Comparing the big-endian bytes of two numbers compares the numbers. */
  lemma {:induction false} OrderOfBytes(m: nat, n: nat, len: nat)
    requires m < Pow(256, len) && n < Pow(256, len)
    ensures Before(BigEndian(m, len), BigEndian(n, len)) <==> m < n
  {
    if len > 0 {
      OrderOfBytes(m / 256, n / 256, len - 1);
      BeforeLast(BigEndian(m / 256, len - 1), BigEndian(n / 256, len - 1), m % 256, n % 256);
      if BigEndian(m / 256, len - 1) == BigEndian(n / 256, len - 1) {
        BigEndianRoundTrip(m / 256, len - 1);
        BigEndianRoundTrip(n / 256, len - 1);
      }
    }
  }
}
