/** Fixed-width big-endian integers, the integer layout of every VLT/1 byte format, and concatenation. */
module BigEndian {
  import opened Format

  lemma Regroup(a: Bytes, b: Bytes, c: Bytes)
    ensures a + b + c == a + (b + c)
  {
  }

  function Pow256(n: nat): (p: nat)
    ensures p > 0
  {
    if n == 0 then 1 else 256 * Pow256(n - 1)
  }

  lemma Widths()
    ensures Pow256(1) == 0x100
    ensures Pow256(2) == 0x1_0000
    ensures Pow256(4) == 0x1_0000_0000
    ensures Pow256(8) == 0x1_0000_0000_0000_0000
  {
    assert Pow256(3) == 256 * Pow256(2);
    assert Pow256(5) == 256 * Pow256(4);
    assert Pow256(6) == 256 * Pow256(5);
    assert Pow256(7) == 256 * Pow256(6);
  }

  function ToBytes(value: nat, width: nat): (b: Bytes)
    requires value < Pow256(width)
    ensures |b| == width
    decreases value, width
  {
    if width == 0 then [] else ToBytes(value / 256, width - 1) + [value % 256]
  }

  function FromBytes(b: Bytes): (value: nat)
    ensures value < Pow256(|b|)
  {
    if b == [] then 0 else 256 * FromBytes(b[..|b| - 1]) + b[|b| - 1]
  }

  lemma {:induction false} FromToBytes(value: nat, width: nat)
    requires value < Pow256(width)
    ensures FromBytes(ToBytes(value, width)) == value
  {
    if width == 0 {
    } else {
      var b := ToBytes(value, width);
      assert b[..width - 1] == ToBytes(value / 256, width - 1);
      FromToBytes(value / 256, width - 1);
    }
  }

  lemma {:induction false} ToFromBytes(b: Bytes)
    ensures ToBytes(FromBytes(b), |b|) == b
  {
    if b == [] {
    } else {
      ToFromBytes(b[..|b| - 1]);
      assert FromBytes(b) / 256 == FromBytes(b[..|b| - 1]);
      assert b == b[..|b| - 1] + [b[|b| - 1]];
    }
  }

  /** The low-order bytes of a wide encoding are the narrow encoding. */
  lemma {:induction false} LowBytes(value: nat, width: nat, narrow: nat)
    requires narrow <= width
    requires value < Pow256(narrow) && value < Pow256(width)
    ensures ToBytes(value, width)[width - narrow..] == ToBytes(value, narrow)
  {
    if narrow == 0 {
    } else {
      LowBytes(value / 256, width - 1, narrow - 1);
      assert ToBytes(value, width)[width - narrow..]
          == ToBytes(value / 256, width - 1)[width - narrow..] + [value % 256];
    }
  }

  lemma LastByte(value: nat, width: nat)
    requires width > 0 && value < Pow256(width)
    ensures ToBytes(value, width)[width - 1] == value % 256
  {
  }

  lemma MulBound(a: nat, b: nat, x: nat, y: nat)
    requires a <= x && b <= y
    ensures a * b <= x * y
  {
    assert a * b <= x * b && x * b <= x * y;
  }

  lemma DivideExact(q: nat, r: nat, size: nat)
    requires r < size
    ensures (size * q + r) / size == q
  {
    var d := (size * q + r) / size;
    if d < q {
      MulBound(size, d + 1, size, q);
    } else if d > q {
      MulBound(size, q + 1, size, d);
    }
  }

  lemma Scaled(b: nat, q: nat, t: nat, r: nat)
    ensures 256 * (b * q + t) + r == (256 * b) * q + (256 * t + r)
  {
    assert 256 * (b * q) == (256 * b) * q;
  }

  lemma QuotientAndRest(a: nat, b: nat)
    requires b > 0
    ensures a == b * (a / b) + a % b && a % b < b
  {
  }

  lemma DivideTwice(a: nat, b: nat)
    requires b > 0
    ensures a / 256 / b == a / (256 * b)
  {
    var c := a / 256;
    var q, t, r := c / b, c % b, a % 256;
    QuotientAndRest(c, b);
    Scaled(b, q, t, r);
    DivideExact(q, 256 * t + r, 256 * b);
  }

  /** Most significant byte first: byte `i` holds the digit of weight 256^(width - 1 - i). */
  lemma {:induction false} ByteAt(value: nat, width: nat, i: nat)
    requires i < width && value < Pow256(width)
    ensures ToBytes(value, width)[i] == value / Pow256(width - 1 - i) % 256
  {
    if i == width - 1 {
    } else {
      ByteAt(value / 256, width - 1, i);
      DivideTwice(value, Pow256(width - 2 - i));
    }
  }

  function U32Bytes(n: U32): (b: Bytes)
    ensures |b| == 4
  {
    Widths();
    ToBytes(n, 4)
  }

  function U64Bytes(n: U64): (b: Bytes)
    ensures |b| == 8
  {
    Widths();
    ToBytes(n, 8)
  }

  lemma U32BytesInjective(a: U32, b: U32)
    requires U32Bytes(a) == U32Bytes(b)
    ensures a == b
  {
    Widths();
    FromToBytes(a, 4);
    FromToBytes(b, 4);
  }

  lemma U64BytesInjective(a: U64, b: U64)
    requires U64Bytes(a) == U64Bytes(b)
    ensures a == b
  {
    Widths();
    FromToBytes(a, 8);
    FromToBytes(b, 8);
  }
}
