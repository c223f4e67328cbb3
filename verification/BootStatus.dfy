/** Bits of the boot status that an ERoT reports, most significant byte first. */
module BootStatus {
  import opened Bytes
  import opened Outcomes

  const BOOT_COMPLETE_BIT := 5
  const BOOT_COMPLETE_TIMEOUT_BIT := 27
  const FATAL_CODE_FIRST_BIT := 28
  const FATAL_CODE_BIT_COUNT := 4

  function GetBit(status: seq<Byte>, bit: nat): bool {
    var byteOffset := bit / 8;
    if |status| <= byteOffset then false
    else BitOf(status[|status| - 1 - byteOffset], bit % 8)
  }

  /** `c` followed by `j` zero bits. */
  function ShiftUp(c: nat, j: nat): nat {
    if j == 0 then c else 2 * ShiftUp(c, j - 1)
  }

  lemma {:induction false} LowBits(c: nat, x: nat, j: nat, k: nat)
    requires k < j
    ensures BitOf(ShiftUp(c, j) + x, k) <==> BitOf(x, k)
  {
    var half := ShiftUp(c, j - 1);
    assert ShiftUp(c, j) + x == 2 * half + x;
    if k > 0 {
      assert (2 * half + x) / 2 == half + x / 2;
      LowBits(c, x / 2, j - 1, k - 1);
    }
  }

  lemma ShiftUpByte(c: nat)
    ensures ShiftUp(c, 8) == 256 * c
  {
    assert ShiftUp(c, 1) == 2 * c;
    assert ShiftUp(c, 3) == 8 * c;
    assert ShiftUp(c, 5) == 32 * c;
    assert ShiftUp(c, 7) == 128 * c;
  }

  /** For every status and every bit number, the bit is that bit of the number the
      bytes denote; bits beyond the status are clear. */
  lemma {:induction false} GetBitIsBit(status: seq<Byte>, k: nat)
    ensures GetBit(status, k) <==> BitOf(BigEndian(status), k)
    decreases |status|
  {
    hide BitOf;
    if status == [] {
      ZeroHasNoBits(k);
    } else {
      var init, b := status[..|status| - 1], status[|status| - 1];
      var n := BigEndian(status);
      assert n == 256 * BigEndian(init) + b;
      if k < 8 {
        ShiftUpByte(BigEndian(init));
        LowBits(BigEndian(init), b, 8, k);
      } else {
        GetBitIsBit(init, k - 8);
        BitOfHigher(BigEndian(init), b, k - 8);
        assert k / 8 == (k - 8) / 8 + 1 && k % 8 == (k - 8) % 8;
      }
    }
  }

  lemma {:induction false} ZeroHasNoBits(k: nat)
    ensures !BitOf(0, k)
  {
    if k > 0 {
      ZeroHasNoBits(k - 1);
    }
  }

  lemma BitOfHigher(m: nat, b: Byte, k: nat)
    ensures BitOf(256 * m + b, k + 8) <==> BitOf(m, k)
  {
    ShiftShift(256 * m + b, 8, k);
    ShiftByte(256 * m + b);
  }

  function BitValue(b: bool, weight: nat): nat {
    if b then weight else 0
  }

  lemma Mod16(a: nat, r: nat)
    requires r < 16
    ensures (16 * a + r) % 16 == r
  {}

  /** The low four bits of a number, put together again. */
  lemma FourBits(q: nat)
    ensures BitValue(BitOf(q, 0), 1) + BitValue(BitOf(q, 1), 2) + BitValue(BitOf(q, 2), 4) + BitValue(BitOf(q, 3), 8)
            == q % 16
  {
    hide Shift;
    ShiftLast(q, 0);
    ShiftLast(q, 1);
    ShiftLast(q, 2);
    ShiftLast(q, 3);
    var q1, q2, q3, q4 := Shift(q, 1), Shift(q, 2), Shift(q, 3), Shift(q, 4);
    var b0, b1, b2, b3 := q % 2, q1 % 2, q2 % 2, q3 % 2;
    assert q == 2 * q1 + b0 && q1 == 2 * q2 + b1 && q2 == 2 * q3 + b2 && q3 == 2 * q4 + b3;
    Mod16(q4, b0 + 2 * b1 + 4 * b2 + 8 * b3);
  }

  lemma FatalBits(status: seq<Byte>, i: nat)
    ensures GetBit(status, FATAL_CODE_FIRST_BIT + i) <==> BitOf(BigEndian(status) / 0x1000_0000, i)
  {
    hide Shift, GetBit, BigEndian;
    var n := BigEndian(status);
    GetBitIsBit(status, FATAL_CODE_FIRST_BIT + i);
    ShiftShift(n, 28, i);
    ShiftBy28(n);
  }

  lemma ShiftBy28(n: nat)
    ensures Shift(n, 28) == n / 0x1000_0000
  {
    hide Shift;
    ShiftShift(n, 8, 20);
    ShiftByte(n);
    ShiftShift(n / 0x100, 8, 12);
    ShiftByte(n / 0x100);
    ShiftShift(n / 0x1_0000, 8, 4);
    ShiftByte(n / 0x1_0000);
    ShiftByte(n / 0x100_0000);
  }

  /** What the code must be: the four bits from bit 28 on, if the status reaches them. */
  function FatalCode(status: seq<Byte>): Option<nat> {
    if |status| <= 3 then None else Some(BigEndian(status) / 0x1000_0000 % 16)
  }

  /** Collects the code bit by bit. */
  method GetAPFatalErrorCode(status: seq<Byte>) returns (r: Option<nat>)
    ensures r == FatalCode(status)
  {
    if |status| <= FATAL_CODE_FIRST_BIT / 8 {
      return None;
    }
    ghost var q := BigEndian(status) / 0x1000_0000;
    var code, weight := 0, 1;
    for bit := 0 to FATAL_CODE_BIT_COUNT
      invariant weight == [1, 2, 4, 8, 16][bit]
      invariant code == (if bit > 0 then BitValue(BitOf(q, 0), 1) else 0)
                        + (if bit > 1 then BitValue(BitOf(q, 1), 2) else 0)
                        + (if bit > 2 then BitValue(BitOf(q, 2), 4) else 0)
                        + (if bit > 3 then BitValue(BitOf(q, 3), 8) else 0)
    {
      FatalBits(status, bit);
      if GetBit(status, FATAL_CODE_FIRST_BIT + bit) {
        code := code + weight;
      }
      weight := 2 * weight;
    }
    FourBits(q);
    return Some(code);
  }
}
