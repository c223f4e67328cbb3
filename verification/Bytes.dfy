/** Bytes and the numbers that byte strings denote. */
module Bytes {

  type Byte = b: int | 0 <= b < 256

  /** Most significant byte first. */
  function BigEndian(s: seq<Byte>): nat {
    if s == [] then 0 else 256 * BigEndian(s[..|s| - 1]) + s[|s| - 1]
  }

  /** Least significant byte first. */
  function LittleEndian(s: seq<Byte>): nat {
    if s == [] then 0 else s[0] + 256 * LittleEndian(s[1..])
  }

  /** Shifting right by `k` bits halves `k` times. */
  function Shift(n: nat, k: nat): nat {
    if k == 0 then n else Shift(n / 2, k - 1)
  }

  /** Bit `k` of a number. */
  predicate BitOf(n: nat, k: nat) {
    Shift(n, k) % 2 == 1
  }

  lemma {:induction false} ShiftShift(n: nat, i: nat, j: nat)
    ensures Shift(n, i + j) == Shift(Shift(n, i), j)
  {
    if i > 0 {
      ShiftShift(n / 2, i - 1, j);
    }
  }

  lemma ShiftLast(n: nat, k: nat)
    ensures Shift(n, 0) == n && Shift(n, k + 1) == Shift(n, k) / 2
  {
    ShiftShift(n, k, 1);
    assert Shift(Shift(n, k), 1) == Shift(Shift(n, k) / 2, 0);
  }

  lemma ShiftByte(n: nat)
    ensures Shift(n, 1) == n / 2 && Shift(n, 2) == n / 4 && Shift(n, 3) == n / 8 && Shift(n, 4) == n / 16
    ensures Shift(n, 8) == n / 256
  {
    hide Shift;
    ShiftLast(n, 0);
    ShiftLast(n, 1);
    ShiftLast(n, 2);
    ShiftLast(n, 3);
    ShiftLast(n, 4);
    ShiftLast(n, 5);
    ShiftLast(n, 6);
    ShiftLast(n, 7);
  }

  /** The two orders differ in which byte weighs more. */
  lemma TwoBytes(a: Byte, b: Byte)
    ensures BigEndian([a, b]) == 256 * a + b && LittleEndian([a, b]) == a + 256 * b
  {
    assert [a, b][..1] == [a] && [a][..0] == [] && BigEndian([a]) == a;
    assert [a, b][1..] == [b] && [b][1..] == [] && LittleEndian([b]) == b;
  }

  /** Three bits as quotients. */
  lemma BitsAreQuotients(n: nat)
    ensures BitOf(n, 0) <==> n % 2 == 1
    ensures BitOf(n, 5) <==> n / 0x20 % 2 == 1
    ensures BitOf(n, 27) <==> n / 0x800_0000 % 2 == 1
  {
    hide Shift;
    ShiftLast(n, 4);
    assert Shift(n, 0) == n by { ShiftLast(n, 0); }
    ShiftByte(n);
    ShiftBy24(n);
    ShiftShift(n, 24, 3);
    ShiftLast(n / 0x100_0000, 2);
    ShiftByte(n / 0x100_0000);
  }

  lemma ShiftBy24(n: nat)
    ensures Shift(n, 24) == n / 0x100_0000
  {
    hide Shift;
    ShiftShift(n, 8, 16);
    ShiftByte(n);
    ShiftShift(n / 0x100, 8, 8);
    ShiftByte(n / 0x100);
    ShiftByte(n / 0x1_0000);
  }
}
