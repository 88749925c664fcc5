/**
  Byte strings and fixed-width little-endian integers, as written by Go's
  `encoding/binary`.
 */
module ByteStrings {

  type Byte = b: int | 0 <= b < 256
  type Bytes = seq<Byte>
  const TWO_64 := 0x1_0000_0000_0000_0000
  const TWO_32 := 0x1_0000_0000
  const TWO_16 := 0x1_0000
  const TWO_63 := 0x8000_0000_0000_0000

  /** `value` as `width` little-endian bytes. */
  function LittleEndian(value: nat, width: nat): Bytes {
    if width == 0 then [] else [value % 256] + LittleEndian(value / 256, width - 1)
  }

  function Bound(width: nat): nat {
    if width == 0 then 1 else 256 * Bound(width - 1)
  }

  lemma {:induction false} LittleEndianIsInjective(a: nat, b: nat, width: nat)
    ensures |LittleEndian(a, width)| == |LittleEndian(b, width)| == width
    ensures a < Bound(width) && b < Bound(width) && LittleEndian(a, width) == LittleEndian(b, width) ==> a == b
  {
    if width != 0 {
      LittleEndianIsInjective(a / 256, b / 256, width - 1);
      var x, y := LittleEndian(a, width), LittleEndian(b, width);
      assert x[1..] == LittleEndian(a / 256, width - 1);
      assert y[1..] == LittleEndian(b / 256, width - 1);
      assert x[0] == a % 256 && y[0] == b % 256;
    }
  }

  /** `binary.LittleEndian.PutUint64` of a value converted to uint64. */
  function PutUint64(value: int): Bytes {
    LittleEndian(value % TWO_64, 8)
  }

  /** The number a little-endian byte string stands for. */
  function Number(b: Bytes): nat {
    if b == [] then 0 else b[0] + 256 * Number(b[1..])
  }

  lemma {:induction false} NumberOfLittleEndian(value: nat, width: nat)
    requires value < Bound(width)
    ensures |LittleEndian(value, width)| == width && Number(LittleEndian(value, width)) == value
  {
    if width != 0 {
      NumberOfLittleEndian(value / 256, width - 1);
      assert LittleEndian(value, width)[1..] == LittleEndian(value / 256, width - 1);
    }
  }

  lemma {:induction false} LittleEndianOfNumber(b: Bytes)
    ensures Number(b) < Bound(|b|) && LittleEndian(Number(b), |b|) == b
  {
    if b != [] {
      LittleEndianOfNumber(b[1..]);
      assert Number(b) % 256 == b[0] && Number(b) / 256 == Number(b[1..]);
    }
  }

  /** `int64(x)` of a uint64. */
  function Signed(value: int): int {
    if value >= TWO_63 then value - TWO_64 else value
  }

  /** `int64(binary.LittleEndian.Uint64(b))`. */
  function GetInt64(b: Bytes): int {
    Signed(Number(b))
  }

  function PutUint16(value: int): Bytes {
    LittleEndian(value % TWO_16, 2)
  }

  function PutUint32(value: int): Bytes {
    LittleEndian(value % TWO_32, 4)
  }

  function GetUint(b: Bytes): int {
    Number(b)
  }
}
