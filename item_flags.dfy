/** The `HasAnyFlag` extension methods on the item flag enumerations. */
module ItemFlags {
  import opened Common

  // The three flag enumerations the extension methods are declared on; each
  // is backed by a 32-bit integer, so all three overloads are the same test.
  type ItemSubClassMask = bv32
  type SocketColor = bv32
  type ItemBagFamilyMask = bv32

  /** Whether the two masks share a flag. */
  predicate HasAnyFlag(flags: bv32, otherFlags: bv32)
  {
    flags & otherFlags != 0
  }

  /** Testing against a union of flags is testing against either part. */
  lemma HasAnyFlagUnion(a: bv32, b: bv32, c: bv32)
    ensures HasAnyFlag(a, b | c) <==> HasAnyFlag(a, b) || HasAnyFlag(a, c)
  {
    assert a & (b | c) == (a & b) | (a & c);
  }

  /** Testing a single flag is testing its bit. */
  lemma HasAnyFlagSingle(a: bv32, i: nat)
    requires i < 32
    ensures HasAnyFlag(a, 1 << i) <==> HasBit(a, i)
  {
  }

  lemma HasAnyFlagSymmetric(a: bv32, b: bv32)
    ensures HasAnyFlag(a, b) == HasAnyFlag(b, a)
  {
  }

  lemma HasAnyFlagZero(a: bv32)
    ensures !HasAnyFlag(a, 0) && !HasAnyFlag(0, a)
  {
  }

  lemma HasAnyFlagSelf(a: bv32)
    ensures HasAnyFlag(a, a) <==> a != 0
  {
  }
}
