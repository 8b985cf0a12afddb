/** Shared vocabulary: an optional value (the source's `null`) and the
    unsigned 32-bit integer that spell ids and update fields are stored as. */
module Common {

  /** A reference that may be `null` in the source. */
  datatype Option<+T> = None | Some(value: T)

  /** .NET `uint`. */
  type uint32 = x: int | 0 <= x < 0x1_0000_0000

  /** .NET `byte`. */
  type uint8 = x: int | 0 <= x < 0x100

  /** The value C#'s unchecked `(int)` cast gives for a `uint`. */
  function AsInt32(x: uint32): (r: int)
    ensures -0x8000_0000 <= r < 0x8000_0000
    ensures (r - x) % 0x1_0000_0000 == 0
    ensures r >= 0 <==> x < 0x8000_0000
  {
    if x < 0x8000_0000 then x else x - 0x1_0000_0000
  }

  /** The value C#'s unchecked `(byte)` cast gives for an `int`: its low byte. */
  function LowByte(x: int): (r: uint8)
    ensures (r - x) % 0x100 == 0
    ensures 0 <= x < 0x100 ==> r == x
  {
    x % 0x100
  }

  function Abs(x: int): (r: nat)
    ensures r == x || r == -x
  {
    if x >= 0 then x else -x
  }

  /** C#'s integer division, which truncates toward zero (Dafny's `/` is
      Euclidean): the magnitude is |a| / |b| and the sign is the product of the signs. */
  function TruncDiv(a: int, b: int): (q: int)
    requires b != 0
    ensures Abs(q) == Abs(a) / Abs(b)
    ensures (a >= 0) == (b > 0) ==> q >= 0
    ensures (a >= 0) != (b > 0) ==> q <= 0
    ensures 0 <= a && 0 < b ==> q == a / b
  {
    var m := Abs(a) / Abs(b);
    NatDivNat(Abs(a), Abs(b));
    if (a >= 0) == (b > 0) then m else -m
  }

  lemma NatDivNat(x: nat, y: nat)
    requires y > 0
    ensures x / y >= 0
  {
  }

  // PowerType values (the unit's default power resource).
  const PowerMana := 0
  const PowerRage := 1
  const PowerFocus := 2
  const PowerEnergy := 3
  const PowerHappiness := 4
  const PowerRunes := 5
  const PowerRunicPower := 6
  /** `PowerType.Count`: the number of power types. */
  const PowerTypeCount := 7

  // ClassId values.
  const ClassWarrior := 1

  /** Bit `i` of a 32-bit mask. */
  predicate HasBit(x: bv32, i: nat)
    requires i < 32
  {
    x & (1 << i) != 0
  }
}
