/** The value side of a spell: its effects, the attribute bits its derived
    fields are computed from, and the pure rules `Init2` and the helper
    methods of `Spell` follow. */
module SpellTypes {
  import opened Common

  // ---------------------------------------------------------------------
  // Enumerations (only the members the modelled code tests are named)

  datatype SpellEffectType =
    | EffectNone | SchoolDamage | Dummy | ApplyAura | EnvironmentalDamage | InstantKill
    | Attack | NormalizedWeaponDamagePlus | Skinning | TameCreature | SkillStep | Skill
    | TriggerSpell | LearnSpell | LearnPetSpell | PersistantAreaAura
    | OtherEffect(effectCode: nat)

  datatype AuraType =
    | AuraNone | TrackCreatures | TrackResources | TrackStealthed | AddModifierFlat
    | AddModifierPercent | PeriodicTriggerSpell | AuraDummy
    | OtherAura(auraCode: nat)

  datatype ImplicitTargetType =
    | TargetNone | TargetSelf | TotemAir | TotemEarth | TotemFire | TotemWater
    | SelfFishing | HeartstoneLocation | DynamicObject
    | OtherTarget(targetCode: nat)

  datatype HarmType = Beneficial | Neutral | Harmful

  datatype EquipmentSlot = MainHand | OffHand | ExtraWeapon | SlotEnd

  /** `SpellEffect.AffectMask`: three 32-bit class masks. */
  type AffectMask = m: seq<bv32> | |m| == 3 witness [0, 0, 0]

  /** A spell effect. The last six fields are the effect's own
      classifications, which the effect computes from its raw data. */
  datatype SpellEffect = SpellEffect(
    effectIndex: int,
    effectType: SpellEffectType,
    auraType: AuraType,
    implicitTargetA: ImplicitTargetType,
    implicitTargetB: ImplicitTargetType,
    basePoints: int,
    miscValue: int,
    chainTargets: int,
    amplitude: int,
    pointsPerComboPoint: int,
    triggerSpellId: uint32,
    affectMask: AffectMask,
    hasHandlerCreator: bool,      // a SpellEffectHandlerCreator is set
    hasAuraHandlerCreator: bool,  // an AuraEffectHandlerCreator is set
    harmType: HarmType,
    isHealEffect: bool,
    isStrikeEffect: bool,
    isPeriodic: bool,
    isAreaEffect: bool,
    hasTargets: bool)

  /** A freshly constructed effect with the given index and type. */
  function NewEffect(index: int, effectType: SpellEffectType): (e: SpellEffect)
    ensures e.effectIndex == index && e.effectType == effectType
    ensures e.implicitTargetA == TargetNone && e.triggerSpellId == 0 && e.auraType == AuraNone
    ensures !e.hasHandlerCreator && !e.hasAuraHandlerCreator && e.affectMask == [0, 0, 0]
  {
    SpellEffect(index, effectType, AuraNone, TargetNone, TargetNone, 0, 0, 0, 0, 0, 0,
                [0, 0, 0], false, false, Neutral, false, false, false, false, false)
  }

  predicate HasTarget(e: SpellEffect, t: ImplicitTargetType)
  {
    e.implicitTargetA == t || e.implicitTargetB == t
  }

  // ---------------------------------------------------------------------
  // Attribute bits (the model's own values; each is a single distinct bit
  // of the attribute word it belongs to)

  // SpellAttributes
  const AttrRanged: bv32 := 0x0000_0002
  const AttrOnNextMelee: bv32 := 0x0000_0004
  const AttrPassive: bv32 := 0x0000_0040
  const AttrOnNextMelee2: bv32 := 0x0000_0400
  const AttrCannotBeCastInCombat: bv32 := 0x1000_0000
  // SpellAttributesEx
  const AttrExChanneled1: bv32 := 0x0000_0004
  const AttrExChanneled2: bv32 := 0x0000_0040
  const AttrExRemainOutOfCombat: bv32 := 0x0000_0100
  const AttrExFinishingMove: bv32 := 0x0010_0000
  // SpellAttributesExC
  const AttrExCRequiresWand: bv32 := 0x0000_0800
  const AttrExCRequiresOffHandWeapon: bv32 := 0x0100_0000
  const AttrExCShootRangedWeapon: bv32 := 0x0200_0000
  const AttrExCRequiresMainHandWeapon: bv32 := 0x0400_0000
  // SpellTargetFlags
  const TargetFlagUnitCorpse: bv32 := 0x0000_0400
  const TargetFlagPvPCorpse: bv32 := 0x0000_0800
  const TargetFlagCorpse: bv32 := 0x0000_8000
  // AuraInterruptFlags
  const AuraInterruptOnStartAttack: bv32 := 0x0000_0080
  // InterruptFlags
  const InterruptOnTakeDamage: bv32 := 0x0000_0010
  // ProcTriggerFlags
  const ProcSpellCast: bv32 := 0x0001_0000

  // ItemClass.Armor, ItemSubClassMask.Shield, SkillId.Thrown
  const ItemClassArmor := 4
  const SubClassMaskShield: bv32 := 0x0000_0040
  const SkillThrown := 176

  /** `Enum.HasFlag`: all bits of `flag` are set. */
  predicate HasFlag(flags: bv32, flag: bv32)
  {
    flags & flag == flag
  }

  predicate HasAnyFlag(flags: bv32, otherFlags: bv32)
  {
    flags & otherFlags != 0
  }

  /** `IsChanneled` from the raw data. */
  predicate ChanneledByAttributes(attributesEx: bv32, channelInterruptFlags: int)
  {
    HasAnyFlag(attributesEx, AttrExChanneled1 | AttrExChanneled2) || channelInterruptFlags > 0
  }

  /** The attribute half of `IsRangedAbility`. */
  predicate RangedByAttributes(attributes: bv32, attributesExC: bv32)
  {
    HasAnyFlag(attributes, AttrRanged) || HasFlag(attributesExC, AttrExCShootRangedWeapon)
  }

  /** The attribute half of `RequiresCasterOutOfCombat`. */
  predicate OutOfCombatByAttributes(attributes: bv32, attributesEx: bv32, auraInterruptFlags: bv32)
  {
    HasFlag(attributes, AttrCannotBeCastInCombat) || HasFlag(attributesEx, AttrExRemainOutOfCombat) ||
    HasFlag(auraInterruptFlags, AuraInterruptOnStartAttack)
  }

  /** Some mask is non-zero. */
  predicate SomeNonZero(masks: seq<bv32>)
  {
    exists i :: 0 <= i < |masks| && masks[i] != 0
  }

  // ---------------------------------------------------------------------
  // Searching the effects

  /** Whether some effect satisfies `p` (what `HasEffectWith` returns). */
  predicate AnyEffect(effects: seq<SpellEffect>, p: SpellEffect -> bool)
  {
    exists i :: 0 <= i < |effects| && p(effects[i])
  }

  /** Extending a prefix by one effect adds that effect to the search. */
  lemma AnyEffectSnoc(effects: seq<SpellEffect>, p: SpellEffect -> bool, i: nat)
    requires i < |effects|
    ensures AnyEffect(effects[..i + 1], p) <==> AnyEffect(effects[..i], p) || p(effects[i])
  {
    assert effects[..i + 1][i] == effects[i];
    assert forall j :: 0 <= j < i ==> effects[..i + 1][j] == effects[..i][j];
  }

  /** The index of the first effect satisfying `p`, or |effects|. */
  function FirstIndexWith(effects: seq<SpellEffect>, p: SpellEffect -> bool): (k: nat)
    ensures k <= |effects|
    ensures k < |effects| ==> p(effects[k])
    ensures forall j :: 0 <= j < k ==> !p(effects[j])
    ensures k == |effects| <==> !AnyEffect(effects, p)
  {
    if effects == [] then 0
    else if p(effects[0]) then 0
    else
      var k := FirstIndexWith(effects[1..], p);
      assert forall j :: 1 <= j < |effects| ==> effects[j] == effects[1..][j - 1];
      k + 1
  }

  /** The first effect satisfying `p`, or null. */
  function FirstEffectWith(effects: seq<SpellEffect>, p: SpellEffect -> bool): (r: Option<SpellEffect>)
    ensures r.None? <==> !AnyEffect(effects, p)
    ensures r.Some? ==> exists i :: 0 <= i < |effects| && effects[i] == r.value && p(r.value) &&
                                    forall j :: 0 <= j < i ==> !p(effects[j])
  {
    var k := FirstIndexWith(effects, p);
    if k < |effects| then Some(effects[k]) else None
  }

  /** The effects satisfying `p`, in order. */
  function Filter(effects: seq<SpellEffect>, p: SpellEffect -> bool): (r: seq<SpellEffect>)
    ensures |r| == CountEffects(effects, p) <= |effects|
    ensures forall e :: e in r <==> e in effects && p(e)
    decreases |effects|
  {
    if effects == [] then []
    else
      var front := effects[..|effects| - 1];
      var last := effects[|effects| - 1];
      assert effects == front + [last];
      Filter(front, p) + (if p(last) then [last] else [])
  }

  /** Filtering a concatenation filters each part and keeps them in order,
      so the result lists the matching effects in their original order. */
  lemma {:induction false} FilterAppend(front: seq<SpellEffect>, back: seq<SpellEffect>, p: SpellEffect -> bool)
    ensures Filter(front + back, p) == Filter(front, p) + Filter(back, p)
    decreases |back|
  {
    if back == [] {
      assert front + back == front;
    } else {
      var init, last := back[..|back| - 1], back[|back| - 1];
      assert (front + back)[..|front + back| - 1] == front + init;
      assert back[..|back| - 1] == init;
      FilterAppend(front, init, p);
    }
  }

  /** `GetEffectsWith`: the matching effects, or null (not an empty list)
      when none matches. */
  function EffectsWith(effects: seq<SpellEffect>, p: SpellEffect -> bool): (r: Option<seq<SpellEffect>>)
    ensures r.None? <==> !AnyEffect(effects, p)
    ensures r.Some? ==> |r.value| == CountEffects(effects, p) > 0 && forall e :: e in r.value <==> e in effects && p(e)
  {
    var f := Filter(effects, p);
    if f == [] then
      assert forall i :: 0 <= i < |effects| ==> effects[i] in effects;
      None
    else
      assert f[0] in f;
      Some(f)
  }

  /** The last value a `ForeachEffect` callback stores: `pick` gives the
      value an effect stores, if any; without one the old value stays. */
  function LastPicked(effects: seq<SpellEffect>, pick: SpellEffect -> Option<int>, init: int): (r: int)
    ensures r == init || exists i :: 0 <= i < |effects| && pick(effects[i]) == Some(r)
    ensures (forall i :: 0 <= i < |effects| ==> pick(effects[i]).None?) ==> r == init
    ensures |effects| > 0 && pick(effects[|effects| - 1]).Some? ==> r == pick(effects[|effects| - 1]).value
    decreases |effects|
  {
    if effects == [] then init
    else
      var last := effects[|effects| - 1];
      var before := LastPicked(effects[..|effects| - 1], pick, init);
      if pick(last).Some? then pick(last).value else before
  }

  /** The value `LastPicked` leaves is the one stored by the last effect
      that stores one. */
  lemma {:induction false} LastPickedIsLastStored(effects: seq<SpellEffect>, pick: SpellEffect -> Option<int>,
                                                  init: int, k: int)
    requires 0 <= k < |effects| && pick(effects[k]).Some?
    requires forall j :: k < j < |effects| ==> pick(effects[j]).None?
    ensures LastPicked(effects, pick, init) == pick(effects[k]).value
    decreases |effects|
  {
    if k < |effects| - 1 {
      var front := effects[..|effects| - 1];
      assert pick(effects[|effects| - 1]).None?;
      assert forall j :: k <= j < |front| ==> front[j] == effects[j];
      LastPickedIsLastStored(front, pick, init, k);
    }
  }

  /** The number of effects satisfying `p`. */
  function CountEffects(effects: seq<SpellEffect>, p: SpellEffect -> bool): (n: nat)
    ensures n <= |effects|
    ensures n == 0 <==> !AnyEffect(effects, p)
    decreases |effects|
  {
    if effects == [] then 0
    else
      var n := CountEffects(effects[..|effects| - 1], p);
      assert forall i :: 0 <= i < |effects| - 1 ==> effects[..|effects| - 1][i] == effects[i];
      n + (if p(effects[|effects| - 1]) then 1 else 0)
  }

  /** `CountEffects` is the number of indices whose effect satisfies `p`. */
  lemma {:induction false} CountEffectsIsCardinality(effects: seq<SpellEffect>, p: SpellEffect -> bool)
    ensures CountEffects(effects, p) == |set i | 0 <= i < |effects| && p(effects[i])|
    decreases |effects|
  {
    if effects != [] {
      var last := |effects| - 1;
      var front := effects[..last];
      CountEffectsIsCardinality(front, p);
      var before := set i | 0 <= i < |front| && p(front[i]);
      var all := set i | 0 <= i < |effects| && p(effects[i]);
      assert before == set i | 0 <= i < last && p(effects[i]);
      if p(effects[last]) {
        assert all == before + {last};
        assert last !in before;
      } else {
        assert all == before;
      }
    }
  }

  // ---------------------------------------------------------------------
  // Effect predicates used by Init2

  predicate IsTrackingAura(e: SpellEffect)
  {
    e.auraType == TrackCreatures || e.auraType == TrackResources || e.auraType == TrackStealthed
  }
  predicate IsHealEffect(e: SpellEffect) { e.isHealEffect }
  predicate IsDualWieldEffect(e: SpellEffect) { e.effectType == NormalizedWeaponDamagePlus }
  predicate IsPeriodicEffect(e: SpellEffect) { e.isPeriodic }
  predicate IsStrikeEffect(e: SpellEffect) { e.isStrikeEffect }
  predicate IsComboPointEffect(e: SpellEffect) { e.pointsPerComboPoint > 0 && e.effectType != Dummy }
  predicate IsTotemEffect(e: SpellEffect)
  {
    HasTarget(e, TotemAir) || HasTarget(e, TotemEarth) || HasTarget(e, TotemFire) || HasTarget(e, TotemWater)
  }
  /** The test `GetEffect` applies: the effect has type `t`. */
  function OfType(t: SpellEffectType): SpellEffect -> bool
  {
    (e: SpellEffect) => e.effectType == t
  }
  predicate HasAffectMask(e: SpellEffect) { e.affectMask[0] != 0 || e.affectMask[1] != 0 || e.affectMask[2] != 0 }
  predicate IsFishingEffect(e: SpellEffect) { HasTarget(e, SelfFishing) }
  predicate IsSkinningEffect(e: SpellEffect) { e.effectType == Skinning }
  predicate IsTameEffect(e: SpellEffect) { e.effectType == TameCreature }
  predicate IsHarmfulEffect(e: SpellEffect) { e.harmType == Harmful }
  predicate IsBeneficialEffect(e: SpellEffect) { e.harmType == Beneficial }
  predicate IsNeutralEffect(e: SpellEffect) { e.harmType == Neutral }
  predicate EffectHasTargets(e: SpellEffect) { e.hasTargets }
  predicate TargetsSelf(e: SpellEffect) { HasTarget(e, TargetSelf) }
  predicate IsAreaEffect(e: SpellEffect) { e.isAreaEffect }
  predicate IsDamageEffect(e: SpellEffect)
  {
    e.effectType == Attack || e.effectType == EnvironmentalDamage || e.effectType == InstantKill ||
    e.effectType == SchoolDamage || e.isStrikeEffect
  }
  predicate IsHearthstoneEffect(e: SpellEffect) { HasTarget(e, HeartstoneLocation) }
  predicate IsModifierEffect(e: SpellEffect) { e.auraType == AddModifierFlat || e.auraType == AddModifierPercent }
  predicate HasHandlerCreator(e: SpellEffect) { e.hasHandlerCreator }

  function ChainTargetsOf(e: SpellEffect): Option<int>
  {
    if e.chainTargets > 0 then Some(e.chainTargets) else None
  }

  function SkillOf(e: SpellEffect): Option<int>
  {
    if e.effectType == Skill then Some(e.miscValue) else None
  }

  // ---------------------------------------------------------------------
  // The HarmType rule

  datatype HarmInfo = HarmInfo(harmType: HarmType, hasHarmfulEffects: bool, hasBeneficialEffects: bool)

  function HarmRule(isPreventionDebuff: bool, mechanicIsNegative: bool, effects: seq<SpellEffect>): HarmInfo
  {
    if isPreventionDebuff || mechanicIsNegative then HarmInfo(Harmful, true, false)
    else
      var harmful := AnyEffect(effects, IsHarmfulEffect);
      var beneficial := AnyEffect(effects, IsBeneficialEffect);
      var harmType :=
        if harmful != beneficial && !AnyEffect(effects, IsNeutralEffect) then
          (if harmful then Harmful else Beneficial)
        else Neutral;
      HarmInfo(harmType, harmful, beneficial)
  }

  /** A prevention debuff or a negative mechanic is harmful outright;
      otherwise a spell is harmful exactly when it has a harmful effect and
      neither a beneficial nor a neutral one, beneficial in the mirror case,
      and neutral in every other case. */
  lemma HarmRuleCases(isPreventionDebuff: bool, mechanicIsNegative: bool, effects: seq<SpellEffect>)
    ensures var h := HarmRule(isPreventionDebuff, mechanicIsNegative, effects);
      var harmful, beneficial, neutral :=
        AnyEffect(effects, IsHarmfulEffect), AnyEffect(effects, IsBeneficialEffect), AnyEffect(effects, IsNeutralEffect);
      if isPreventionDebuff || mechanicIsNegative then
        h.harmType == Harmful && h.hasHarmfulEffects && !h.hasBeneficialEffects
      else
        && h.hasHarmfulEffects == harmful && h.hasBeneficialEffects == beneficial
        && (h.harmType == Harmful <==> harmful && !beneficial && !neutral)
        && (h.harmType == Beneficial <==> beneficial && !harmful && !neutral)
        && (h.harmType == Neutral <==> neutral || harmful == beneficial)
  {
  }

  /** A spell whose every effect is harmful, and that has at least one
      effect, is harmful. */
  lemma AllHarmfulEffectsMakeHarmfulSpell(effects: seq<SpellEffect>)
    requires |effects| > 0
    requires forall i :: 0 <= i < |effects| ==> effects[i].harmType == Harmful
    ensures HarmRule(false, false, effects).harmType == Harmful
  {
    assert IsHarmfulEffect(effects[0]);
    assert !AnyEffect(effects, IsBeneficialEffect);
    assert !AnyEffect(effects, IsNeutralEffect);
  }

  /** `IsBeneficialFor`: with a caster, whether the caster may not attack
      the target decides a neutral spell. */
  predicate IsBeneficialFor(harmType: HarmType, hasCaster: bool, mayAttack: bool): (r: bool)
    ensures r <==> !IsHarmfulFor(harmType, hasCaster, mayAttack)
    ensures !hasCaster ==> (r <==> harmType != Harmful)
  {
    harmType == Beneficial || (harmType == Neutral && (!hasCaster || !mayAttack))
  }

  /** `IsHarmfulFor`; the overload taking a caster object is the case
      `hasCaster`. */
  predicate IsHarmfulFor(harmType: HarmType, hasCaster: bool, mayAttack: bool): (r: bool)
    ensures harmType == Harmful ==> r
    ensures harmType == Beneficial ==> !r
    ensures !hasCaster || !mayAttack ==> (r <==> harmType == Harmful)
  {
    harmType == Harmful || (harmType == Neutral && hasCaster && mayAttack)
  }

  /** A spell is beneficial or harmful for a target, never both and never
      neither. */
  lemma BeneficialXorHarmful(harmType: HarmType, hasCaster: bool, mayAttack: bool)
    ensures IsBeneficialFor(harmType, hasCaster, mayAttack) != IsHarmfulFor(harmType, hasCaster, mayAttack)
  {
  }

  // ---------------------------------------------------------------------
  // Weapon and slot rules

  /** The equipment slot a weapon ability needs: a shield requirement means
      the off hand; otherwise ranged abilities and wands need the extra
      weapon slot, then the off-hand and main-hand requirements, in that
      order; `SlotEnd` means none. */
  function EquipmentSlotRule(requiredItemClass: int, requiredItemSubClassMask: bv32,
                             isRangedAbility: bool, attributesExC: bv32): EquipmentSlot
  {
    if requiredItemClass == ItemClassArmor && requiredItemSubClassMask == SubClassMaskShield then OffHand
    else if isRangedAbility || HasFlag(attributesExC, AttrExCRequiresWand) then ExtraWeapon
    else if HasFlag(attributesExC, AttrExCRequiresOffHandWeapon) then OffHand
    else if HasFlag(attributesExC, AttrExCRequiresMainHandWeapon) then MainHand
    else SlotEnd
  }

  /** The slot is the main hand only when the main-hand bit is the only
      weapon requirement, and no requirement at all gives no slot. */
  lemma EquipmentSlotCases(requiredItemClass: int, requiredItemSubClassMask: bv32,
                           isRangedAbility: bool, attributesExC: bv32)
    ensures var slot := EquipmentSlotRule(requiredItemClass, requiredItemSubClassMask, isRangedAbility, attributesExC);
      var shield := requiredItemClass == ItemClassArmor && requiredItemSubClassMask == SubClassMaskShield;
      && (slot == ExtraWeapon <==> !shield && (isRangedAbility || HasFlag(attributesExC, AttrExCRequiresWand)))
      && (slot == OffHand <==> shield || (!isRangedAbility && !HasFlag(attributesExC, AttrExCRequiresWand) &&
                                          HasFlag(attributesExC, AttrExCRequiresOffHandWeapon)))
      && (slot == MainHand ==> !shield && !isRangedAbility && HasFlag(attributesExC, AttrExCRequiresMainHandWeapon))
      && (slot == SlotEnd <==>
            (!shield && !isRangedAbility && !HasFlag(attributesExC, AttrExCRequiresWand) &&
             !HasFlag(attributesExC, AttrExCRequiresOffHandWeapon) &&
             !HasFlag(attributesExC, AttrExCRequiresMainHandWeapon)))
  {
  }

  /** `HasIndividualCooldown`. */
  predicate HasIndividualCooldownRule(cooldownTime: int, isWeaponAbility: bool, isOnNextStrike: bool,
                                      slot: EquipmentSlot)
  {
    cooldownTime > 0 || (isWeaponAbility && !isOnNextStrike && slot != SlotEnd)
  }

  // ---------------------------------------------------------------------
  // Schools

  /** The indices of the set bits of `mask` from bit `k` up, ascending. */
  function SetBitIndicesFrom(mask: bv32, k: nat): seq<nat>
    requires k <= 32
    decreases 32 - k
  {
    if k == 32 then []
    else (if HasBit(mask, k) then [k] else []) + SetBitIndicesFrom(mask, k + 1)
  }

  lemma {:induction false} SetBitIndicesFromSpec(mask: bv32, k: nat)
    requires k <= 32
    ensures forall x :: x in SetBitIndicesFrom(mask, k) <==> k <= x < 32 && HasBit(mask, x)
    ensures forall i, j :: 0 <= i < j < |SetBitIndicesFrom(mask, k)| ==>
      SetBitIndicesFrom(mask, k)[i] < SetBitIndicesFrom(mask, k)[j]
    decreases 32 - k
  {
    if k < 32 {
      SetBitIndicesFromSpec(mask, k + 1);
      var rest := SetBitIndicesFrom(mask, k + 1);
      var head: seq<nat> := if HasBit(mask, k) then [k] else [];
      assert SetBitIndicesFrom(mask, k) == head + rest;
      forall x
        ensures x in head + rest <==> k <= x < 32 && HasBit(mask, x)
      {
        assert x in head + rest <==> x in head || x in rest;
      }
      forall i, j | 0 <= i < j < |head + rest|
        ensures (head + rest)[i] < (head + rest)[j]
      {
        if i >= |head| {
          assert (head + rest)[i] == rest[i - |head|];
          assert (head + rest)[j] == rest[j - |head|];
        } else {
          assert (head + rest)[j] == rest[j - 1] && rest[j - 1] in rest;
        }
      }
    }
  }

  /** `Schools`: the damage schools of the school mask, or Physical alone
      when the mask has none. */
  function SchoolsRule(schoolMask: bv32): seq<nat>
  {
    var indices := SetBitIndicesFrom(schoolMask, 0);
    if indices == [] then [0] else indices
  }

  /** The schools are never empty and ascending; for a non-zero mask they
      are exactly its set bits, and Physical alone stands in for an empty mask. */
  lemma SchoolsRuleSpec(schoolMask: bv32)
    ensures var s := SchoolsRule(schoolMask);
      && |s| > 0
      && (forall i, j :: 0 <= i < j < |s| ==> s[i] < s[j])
      && (schoolMask != 0 ==> forall x: nat :: x in s <==> x < 32 && HasBit(schoolMask, x))
      && (schoolMask == 0 ==> s == [0])
  {
    SetBitIndicesFromSpec(schoolMask, 0);
    if schoolMask == 0 {
      NoSetBitsInZero(0);
    } else {
      NonZeroMaskHasSetBit(schoolMask);
    }
  }

  lemma NonZeroMaskHasSetBit(mask: bv32)
    requires mask != 0
    ensures SetBitIndicesFrom(mask, 0) != []
  {
    SetBitIndicesFromSpec(mask, 0);
    AllBitsClearIsZero(mask);
  }

  /** A mask with none of its 32 bits set is zero. */
  lemma AllBitsClearIsZero(mask: bv32)
    ensures (forall x: nat :: x < 32 ==> !HasBit(mask, x)) ==> mask == 0
  {
    if forall x: nat :: x < 32 ==> !HasBit(mask, x) {
      assert !HasBit(mask, 0) && !HasBit(mask, 1) && !HasBit(mask, 2) && !HasBit(mask, 3) &&
           !HasBit(mask, 4) && !HasBit(mask, 5) && !HasBit(mask, 6) && !HasBit(mask, 7) &&
           !HasBit(mask, 8) && !HasBit(mask, 9) && !HasBit(mask, 10) && !HasBit(mask, 11) &&
           !HasBit(mask, 12) && !HasBit(mask, 13) && !HasBit(mask, 14) && !HasBit(mask, 15) &&
           !HasBit(mask, 16) && !HasBit(mask, 17) && !HasBit(mask, 18) && !HasBit(mask, 19) &&
           !HasBit(mask, 20) && !HasBit(mask, 21) && !HasBit(mask, 22) && !HasBit(mask, 23) &&
           !HasBit(mask, 24) && !HasBit(mask, 25) && !HasBit(mask, 26) && !HasBit(mask, 27) &&
           !HasBit(mask, 28) && !HasBit(mask, 29) && !HasBit(mask, 30) && !HasBit(mask, 31);
    }
  }

  lemma {:induction false} NoSetBitsInZero(k: nat)
    requires k <= 32
    ensures SetBitIndicesFrom(0, k) == []
    decreases 32 - k
  {
    if k < 32 {
      NoSetBitsInZero(k + 1);
      assert !HasBit(0, k);
    }
  }

  // ---------------------------------------------------------------------
  // AllAffectingMasks

  /** `a` and `m` share a bit. */
  predicate SharesFlag(a: bv32, m: bv32)
  {
    a & m != 0
  }

  /** Testing an OR-ed value for a flag tests either part. */
  lemma SharesFlagOfUnion(r: bv32, a: bv32, b: bv32, m: bv32)
    requires r == a | b
    ensures SharesFlag(r, m) <==> SharesFlag(a, m) || SharesFlag(b, m)
  {
    assert (a | b) & m == (a & m) | (b & m);
  }

  /** `acc` OR-ed with index `k` of every effect's affect mask, left to
      right. */
  function OrMaskAt(acc: bv32, effects: seq<SpellEffect>, k: nat): bv32
    requires k < 3
    decreases |effects|
  {
    if effects == [] then acc
    else OrMaskAt(acc, effects[..|effects| - 1], k) | effects[|effects| - 1].affectMask[k]
  }

  /** The fold over a prefix one longer ORs in one more mask. */
  lemma OrMaskAtPrefix(acc: bv32, effects: seq<SpellEffect>, i: nat, k: nat)
    requires i < |effects| && k < 3
    ensures OrMaskAt(acc, effects[..i + 1], k) == OrMaskAt(acc, effects[..i], k) | effects[i].affectMask[k]
  {
    assert effects[..i + 1][..i] == effects[..i];
  }

  /** Some effect's mask at index `k` shares a bit with `m`. */
  predicate SomeEffectShares(effects: seq<SpellEffect>, k: nat, m: bv32)
    requires k < 3
    decreases |effects|
  {
    |effects| > 0 &&
    (SomeEffectShares(effects[..|effects| - 1], k, m) || SharesFlag(effects[|effects| - 1].affectMask[k], m))
  }

  lemma {:induction false} SomeEffectSharesSpec(effects: seq<SpellEffect>, k: nat, m: bv32)
    requires k < 3
    ensures SomeEffectShares(effects, k, m) <==> exists i :: 0 <= i < |effects| && SharesFlag(effects[i].affectMask[k], m)
    decreases |effects|
  {
    if |effects| > 0 {
      var front := effects[..|effects| - 1];
      SomeEffectSharesSpec(front, k, m);
      assert forall i :: 0 <= i < |front| ==> front[i] == effects[i];
      if !SharesFlag(effects[|effects| - 1].affectMask[k], m) &&
         exists i :: 0 <= i < |effects| && SharesFlag(effects[i].affectMask[k], m) {
        var i :| 0 <= i < |effects| && SharesFlag(effects[i].affectMask[k], m);
        assert SharesFlag(front[i].affectMask[k], m);
      }
    }
  }

  /** One more effect ORs in its own mask. */
  lemma OrMaskAtSnoc(acc: bv32, effects: seq<SpellEffect>, k: nat)
    requires k < 3 && |effects| > 0
    ensures OrMaskAt(acc, effects, k) == OrMaskAt(acc, effects[..|effects| - 1], k) | effects[|effects| - 1].affectMask[k]
  {
  }

  /** The accumulated mask shares a flag with `m` exactly when the initial
      value or one of the effects' masks does. */
  lemma {:induction false} OrMaskAtUnion(acc: bv32, effects: seq<SpellEffect>, k: nat, m: bv32)
    requires k < 3
    ensures SharesFlag(OrMaskAt(acc, effects, k), m) <==>
      SharesFlag(acc, m) || exists i :: 0 <= i < |effects| && SharesFlag(effects[i].affectMask[k], m)
    decreases |effects|
  {
    SomeEffectSharesSpec(effects, k, m);
    OrMaskAtUnionStep(acc, effects, k, m);
  }

  lemma {:induction false} OrMaskAtUnionStep(acc: bv32, effects: seq<SpellEffect>, k: nat, m: bv32)
    requires k < 3
    ensures SharesFlag(OrMaskAt(acc, effects, k), m) <==> SharesFlag(acc, m) || SomeEffectShares(effects, k, m)
    decreases |effects|
  {
    if |effects| > 0 {
      var front := effects[..|effects| - 1];
      OrMaskAtUnionStep(acc, front, k, m);
      SnocShares(acc, effects, k, m);
    }
  }

  lemma SnocShares(acc: bv32, effects: seq<SpellEffect>, k: nat, m: bv32)
    requires k < 3 && |effects| > 0
    ensures SharesFlag(OrMaskAt(acc, effects, k), m) <==>
      SharesFlag(OrMaskAt(acc, effects[..|effects| - 1], k), m) || SharesFlag(effects[|effects| - 1].affectMask[k], m)
  {
    OrMaskAtSnoc(acc, effects, k);
    SharesFlagOfUnion(OrMaskAt(acc, effects, k), OrMaskAt(acc, effects[..|effects| - 1], k), effects[|effects| - 1].affectMask[k], m);
  }

  // ---------------------------------------------------------------------
  // Small helpers

  /** `GetMaxLevelDiff`: the spell's level range when the caster is above
      the maximum level, otherwise the distance from the base level. */
  function GetMaxLevelDiff(baseLevel: int, maxLevel: int, casterLevel: int): (d: int)
    ensures d >= 0
    ensures baseLevel <= maxLevel < casterLevel ==> d == maxLevel - baseLevel
    ensures !(baseLevel <= maxLevel < casterLevel) ==> d == Abs(casterLevel - baseLevel)
    ensures baseLevel <= maxLevel ==> d <= Abs(casterLevel - baseLevel)
  {
    if maxLevel >= baseLevel && maxLevel < casterLevel then maxLevel - baseLevel
    else Abs(casterLevel - baseLevel)
  }

  /** `MatchesMask`: scans the spell's class mask and fails (None) on
      reaching an index the given masks do not have. */
  function MatchesMaskRule(classMask: seq<bv32>, masks: seq<bv32>): Option<bool>
    decreases |classMask|
  {
    if classMask == [] then Some(false)
    else if masks == [] then None
    else if SharesFlag(masks[0], classMask[0]) then Some(true)
    else MatchesMaskRule(classMask[1..], masks[1..])
  }

  /** Some index both sequences have carries a shared bit. */
  predicate SharedIndex(classMask: seq<bv32>, masks: seq<bv32>)
  {
    exists i :: 0 <= i < |classMask| && i < |masks| && SharesFlag(masks[i], classMask[i])
  }

  /** `MatchesMask` answers true exactly when some index both have shares a
      bit; it fails exactly when the given masks are shorter and share no
      bit with the class mask on the indices they have. */
  lemma {:induction false} MatchesMaskRuleSpec(classMask: seq<bv32>, masks: seq<bv32>)
    ensures MatchesMaskRule(classMask, masks) == Some(true) <==> SharedIndex(classMask, masks)
    ensures MatchesMaskRule(classMask, masks).None? <==> !SharedIndex(classMask, masks) && |masks| < |classMask|
    decreases |classMask|
  {
    if classMask != [] && masks != [] && !SharesFlag(masks[0], classMask[0]) {
      MatchesMaskRuleSpec(classMask[1..], masks[1..]);
      if SharedIndex(classMask, masks) {
        var i :| 0 <= i < |classMask| && i < |masks| && SharesFlag(masks[i], classMask[i]);
        assert i > 0;
        assert SharesFlag(masks[1..][i - 1], classMask[1..][i - 1]);
      }
      if SharedIndex(classMask[1..], masks[1..]) {
        var i :| 0 <= i < |classMask[1..]| && i < |masks[1..]| && SharesFlag(masks[1..][i], classMask[1..][i]);
        assert SharesFlag(masks[i + 1], classMask[i + 1]);
      }
    } else if classMask != [] && masks != [] {
      assert SharesFlag(masks[0], classMask[0]);
    }
  }

  function LowerChar(c: char): char
  {
    if 'A' <= c <= 'Z' then (c - 'A' + 'a') as char else c
  }

  /** ASCII lower case. */
  function Lower(s: string): (r: string)
    ensures |r| == |s| && forall i :: 0 <= i < |s| ==> r[i] == LowerChar(s[i])
  {
    seq(|s|, i requires 0 <= i < |s| => LowerChar(s[i]))
  }

  /** `pattern` occurs in `s` at index `i`. */
  predicate OccursAt(pattern: string, s: string, i: int)
  {
    0 <= i && i + |pattern| <= |s| && s[i..i + |pattern|] == pattern
  }

  /** `pattern` occurs in `s` (IndexOf > -1). */
  predicate Occurs(pattern: string, s: string)
  {
    exists i :: 0 <= i <= |s| && OccursAt(pattern, s, i)
  }

  /** `IsDeprecatedSpellName`: the name contains "test" or "unused", or
      starts with "zzold", ignoring case. */
  predicate IsDeprecatedSpellName(name: string): (r: bool)
    ensures r ==> |name| >= 4
  {
    var n := Lower(name);
    Occurs("test", n) || (|n| >= 5 && n[..5] == "zzold") || Occurs("unused", n)
  }

  /** A deprecated name stays deprecated whatever is appended to it. */
  lemma DeprecatedNameExtends(name: string, suffix: string)
    requires IsDeprecatedSpellName(name)
    ensures IsDeprecatedSpellName(name + suffix)
  {
    var n, n' := Lower(name), Lower(name + suffix);
    assert n'[..|n|] == n;
    if Occurs("test", n) {
      var i :| 0 <= i <= |n| && OccursAt("test", n, i);
      assert n'[i..i + 4] == n[i..i + 4];
      assert OccursAt("test", n', i);
    } else if Occurs("unused", n) {
      var i :| 0 <= i <= |n| && OccursAt("unused", n, i);
      assert n'[i..i + 6] == n[i..i + 6];
      assert OccursAt("unused", n', i);
    } else {
      assert n'[..5] == n[..5];
    }
  }

  /** "Test Spell" contains "test" once lower-cased. */
  lemma DeprecatedTestName()
    ensures IsDeprecatedSpellName("Test Spell")
  {
    assert OccursAt("test", Lower("Test Spell"), 0);
  }

  /** "zzOLD Fireball" starts with "zzold" once lower-cased. */
  lemma DeprecatedOldName()
    ensures IsDeprecatedSpellName("zzOLD Fireball")
  {
  }

  /** "Heroic Strike" has none of the three markers. */
  lemma LiveSpellName()
    ensures !IsDeprecatedSpellName("Heroic Strike")
  {
    var n := Lower("Heroic Strike");
    assert n == "heroic strike";
    assert n[..5][0] == n[0] == 'h';
    forall i ensures !OccursAt("test", n, i) && !OccursAt("unused", n, i) {
      if 0 <= i <= |n| - 4 {
        assert n[i..i + 4][0] == n[i] && n[i..i + 4][2] == n[i + 2];
      }
      if 0 <= i <= |n| - 6 {
        assert n[i..i + 6][0] == n[i] && n[i..i + 6][1] == n[i + 1];
      }
    }
  }

  /** `GetHashCode`: the id as a 32-bit int. */
  function HashCode(id: uint32): (h: int)
    ensures -0x8000_0000 <= h < 0x8000_0000
    ensures (h - id as int) % 0x1_0000_0000 == 0
    ensures id < 0x8000_0000 ==> h == id as int
  {
    AsInt32(id)
  }

  /** `Equals` compares ids, so equal spells hash alike; and since the
      hash is the id itself, spells with equal hash codes are equal. */
  lemma HashCodeMatchesEquals(a: uint32, b: uint32)
    ensures a == b <==> HashCode(a) == HashCode(b)
  {
  }

  /** What an action exposes to a proc check: its spell, whether it is an
      attack, and the weapon of the attack. */
  datatype ActionWeapon = NoWeapon | NonItemWeapon | ItemWeapon(itemClass: int, subClassMask: bv32)
  datatype UnitAction = UnitAction(spell: Option<uint32>, isAttack: bool, weapon: ActionWeapon)

  /** `ItemClass.None`. */
  const ItemClassNone := -1

  /** `CanProcBeTriggeredBy`: the caster-side spell set decides an active
      proc and the target-side set a passive one; without that set, a
      required item class demands an attack with an item weapon of that
      class whose sub-class matches the required mask (an empty mask
      matches any); otherwise the proc may happen. */
  function CanProcRule(active: bool, casterProcSpells: Option<set<uint32>>, targetProcSpells: Option<set<uint32>>,
                       requiredItemClass: int, requiredItemSubClassMask: bv32, action: UnitAction): (r: bool)
    ensures (if active then casterProcSpells else targetProcSpells).Some? ==>
      (r <==> action.spell.Some? && action.spell.value in (if active then casterProcSpells else targetProcSpells).value)
    ensures (if active then casterProcSpells else targetProcSpells).None? && requiredItemClass != ItemClassNone && r ==>
      action.isAttack && action.weapon.ItemWeapon? && action.weapon.itemClass == requiredItemClass
    ensures (if active then casterProcSpells else targetProcSpells).None? && requiredItemClass == ItemClassNone ==> r
  {
    if active && casterProcSpells.Some? then
      action.spell.Some? && action.spell.value in casterProcSpells.value
    else if !active && targetProcSpells.Some? then
      action.spell.Some? && action.spell.value in targetProcSpells.value
    else if requiredItemClass != ItemClassNone then
      action.isAttack && action.weapon.ItemWeapon? &&
      action.weapon.itemClass == requiredItemClass &&
      (requiredItemSubClassMask == 0 || HasAnyFlag(action.weapon.subClassMask, requiredItemSubClassMask))
    else true
  }

  /** Once the relevant spell set exists, exactly the actions of a spell in
      it can trigger the proc, whatever the item requirements. */
  lemma ProcSpellSetDecides(active: bool, casterProcSpells: Option<set<uint32>>, targetProcSpells: Option<set<uint32>>,
                            requiredItemClass: int, requiredItemSubClassMask: bv32, action: UnitAction)
    requires (if active then casterProcSpells else targetProcSpells).Some?
    ensures CanProcRule(active, casterProcSpells, targetProcSpells, requiredItemClass, requiredItemSubClassMask, action) <==>
      action.spell.Some? && action.spell.value in (if active then casterProcSpells else targetProcSpells).value
  {
  }

  /** Without a spell set, an item requirement rejects every action that is
      not an attack with an item weapon of the required class. */
  lemma ProcItemRequirement(active: bool, casterProcSpells: Option<set<uint32>>, targetProcSpells: Option<set<uint32>>,
                            requiredItemClass: int, requiredItemSubClassMask: bv32, action: UnitAction)
    requires (if active then casterProcSpells else targetProcSpells).None?
    requires requiredItemClass != ItemClassNone
    ensures CanProcRule(active, casterProcSpells, targetProcSpells, requiredItemClass, requiredItemSubClassMask, action) ==>
      action.isAttack && action.weapon.ItemWeapon? && action.weapon.itemClass == requiredItemClass
    ensures action.isAttack && action.weapon.ItemWeapon? && action.weapon.itemClass == requiredItemClass &&
            requiredItemSubClassMask == 0 ==>
      CanProcRule(active, casterProcSpells, targetProcSpells, requiredItemClass, requiredItemSubClassMask, action)
  {
  }

  // ---------------------------------------------------------------------
  // HasTargets and CasterIsTarget

  /** `HasTargets` as written: true when NO effect has targets. */
  predicate HasTargetsAsWritten(effects: seq<SpellEffect>)
  {
    !AnyEffect(effects, EffectHasTargets)
  }

  /** `HasTargets` as documented: whether the spell has any targets at all,
      that is, whether some effect has targets. */
  predicate HasTargetsRule(effects: seq<SpellEffect>)
  {
    AnyEffect(effects, EffectHasTargets)
  }

  /** `CasterIsTarget`, given the spell's `HasTargets`. */
  predicate CasterIsTargetRule(hasTargets: bool, effects: seq<SpellEffect>)
  {
    hasTargets && AnyEffect(effects, TargetsSelf)
  }

  /** An effect aimed at the caster has targets. */
  predicate SelfTargetsCount(effects: seq<SpellEffect>)
  {
    forall i :: 0 <= i < |effects| && TargetsSelf(effects[i]) ==> effects[i].hasTargets
  }

  /** As written, `HasTargets` is the negation of what it documents, and
      `CasterIsTarget` can then never hold for a spell whose self-aimed
      effects have targets. */
  lemma {:induction false} HasTargetsAsWrittenInverted(effects: seq<SpellEffect>)
    requires SelfTargetsCount(effects)
    ensures HasTargetsAsWritten(effects) <==> !HasTargetsRule(effects)
    ensures !CasterIsTargetRule(HasTargetsAsWritten(effects), effects)
  {
    if AnyEffect(effects, TargetsSelf) {
      var i :| 0 <= i < |effects| && TargetsSelf(effects[i]);
      assert EffectHasTargets(effects[i]);
    }
  }

  /** With the documented `HasTargets`, the caster is a target exactly when
      some effect is aimed at the caster. */
  lemma {:induction false} CasterIsTargetWhenSelfAimed(effects: seq<SpellEffect>)
    requires SelfTargetsCount(effects)
    ensures HasTargetsRule(effects) <==> exists i :: 0 <= i < |effects| && effects[i].hasTargets
    ensures CasterIsTargetRule(HasTargetsRule(effects), effects) <==> AnyEffect(effects, TargetsSelf)
  {
    if AnyEffect(effects, TargetsSelf) {
      var i :| 0 <= i < |effects| && TargetsSelf(effects[i]);
      assert EffectHasTargets(effects[i]);
    }
  }

  /** The part of `CalcPowerCost` computed before the caster's own
      modifiers: the flat cost, the per-level cost over the level
      difference, and a percentage of the base health or power. */
  function PowerCostBeforeModifiers(powerCost: int, powerCostPerLevel: int, powerCostPercentage: int,
                                    levelDiff: nat, basePool: int): (cost: int)
    ensures powerCostPercentage <= 0 ==> cost == powerCost + powerCostPerLevel * levelDiff
    ensures powerCostPercentage > 0 && basePool >= 0 ==> cost >= powerCost + powerCostPerLevel * levelDiff
  {
    var cost := powerCost + powerCostPerLevel * levelDiff;
    if powerCostPercentage > 0 then
      cost + TruncDiv(powerCostPercentage * basePool, 100)
    else cost
  }

  /** With a percentage, the cost adds that percentage of the pool,
      truncated toward zero: the hundredfold extra is within 100 of the
      percentage times the pool, on the side of zero. */
  lemma PowerCostPercentageTerm(powerCost: int, powerCostPerLevel: int, powerCostPercentage: int,
                                levelDiff: nat, basePool: int)
    requires powerCostPercentage > 0
    ensures var extra := PowerCostBeforeModifiers(powerCost, powerCostPerLevel, powerCostPercentage, levelDiff, basePool)
                         - (powerCost + powerCostPerLevel * levelDiff);
      var share := powerCostPercentage * basePool;
      && (share >= 0 ==> 0 <= 100 * extra <= share < 100 * extra + 100)
      && (share < 0 ==> 100 * extra - 100 < share <= 100 * extra <= 0)
  {
    var share := powerCostPercentage * basePool;
    var q := TruncDiv(share, 100);
    if share >= 0 {
      assert q == share / 100;
    } else {
      assert q == -((-share) / 100);
    }
  }

  /** A larger pool never makes a percentage cost cheaper. */
  lemma PowerCostMonotoneInPool(powerCost: int, powerCostPerLevel: int, powerCostPercentage: int,
                                levelDiff: nat, basePool: int, basePool': int)
    requires basePool <= basePool'
    ensures PowerCostBeforeModifiers(powerCost, powerCostPerLevel, powerCostPercentage, levelDiff, basePool)
         <= PowerCostBeforeModifiers(powerCost, powerCostPerLevel, powerCostPercentage, levelDiff, basePool')
  {
    if powerCostPercentage > 0 {
      PowerCostPercentageTerm(powerCost, powerCostPerLevel, powerCostPercentage, levelDiff, basePool);
      PowerCostPercentageTerm(powerCost, powerCostPerLevel, powerCostPercentage, levelDiff, basePool');
      assert powerCostPercentage * basePool <= powerCostPercentage * basePool' by {
        assert powerCostPercentage * (basePool' - basePool) >= 0;
      }
    }
  }

  /** The part of `GetDuration` that depends on the spell alone: the minimum
      duration, plus, for a finishing move whose caster is a unit, a fifth
      of the duration range per combo point. */
  function BaseDuration(minDuration: int, maxDuration: int, isFinishingMove: bool,
                        casterComboPoints: Option<int>): (d: int)
    ensures casterComboPoints.Some? && 0 <= casterComboPoints.value <= 5 ==> minDuration <= d
    ensures casterComboPoints.Some? && 0 <= casterComboPoints.value <= 5 && minDuration <= maxDuration ==>
      d <= maxDuration
    ensures !isFinishingMove || casterComboPoints.None? || maxDuration <= minDuration ==> d == minDuration
  {
    if maxDuration > minDuration && isFinishingMove && casterComboPoints.Some? then
      var step := TruncDiv(maxDuration - minDuration, 5);
      ComboPointBound(casterComboPoints.value, maxDuration - minDuration);
      minDuration + casterComboPoints.value * step
    else minDuration
  }

  /** A finishing move's duration grows by the same step per combo point,
      a fifth of the duration range rounded down. */
  lemma BaseDurationPerComboPoint(minDuration: int, maxDuration: int, points: int)
    requires maxDuration > minDuration
    ensures var step := BaseDuration(minDuration, maxDuration, true, Some(1)) - minDuration;
      && 0 <= 5 * step <= maxDuration - minDuration < 5 * step + 5
      && BaseDuration(minDuration, maxDuration, true, Some(points)) == minDuration + points * step
      && BaseDuration(minDuration, maxDuration, true, Some(0)) == minDuration
  {
    var range := maxDuration - minDuration;
    assert TruncDiv(range, 5) == range / 5;
  }

  lemma ComboPointBound(points: int, range: int)
    requires range > 0
    ensures 0 <= points <= 5 ==> 0 <= points * (range / 5) <= range
  {
    if 0 <= points <= 5 {
      var step := range / 5;
      assert 5 * step <= range;
      assert points * step <= 5 * step by {
        assert (5 - points) * step >= 0;
      }
    }
  }
}
