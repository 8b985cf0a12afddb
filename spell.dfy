/** A spell template: its effect list, the spells it triggers and that
    proc it, and the fields `Init2` derives once from its raw data. */
module Spells {
  import opened Common
  import opened SpellTypes

  /** The skill an ability belongs to: its id and whether its category is
      Profession. */
  datatype SkillRef = SkillRef(skillId: int, isProfession: bool)

  /** The spell's read-only data as loaded: the attribute words and the
      other columns the modelled code reads. */
  datatype SpellData = SpellData(
    attributes: bv32,
    attributesEx: bv32,
    attributesExC: bv32,
    channelInterruptFlags: int,
    isPreventionDebuff: bool,
    mechanicIsNegative: bool,
    targetFlags: bv32,
    powerCost: int,
    powerCostPercentage: int,
    cooldownTime: int,
    requiredItemClass: int,
    requiredItemSubClassMask: bv32,
    spellClassSet: int,
    spellClassMask: seq<bv32>,
    schoolMask: bv32,
    castDelay: int,
    auraInterruptFlags: bv32,
    ability: Option<SkillRef>,
    name: string,
    isTeachSpell: bool,
    baseLevel: int,
    maxLevel: int)

  /** All of `ids` are known to the spell registry. */
  predicate AllRegistered<T>(ids: seq<uint32>, registry: map<uint32, T>)
  {
    forall i :: 0 <= i < |ids| ==> ids[i] in registry
  }

  /** The spells `ids` name, in order. */
  function Resolved<T>(ids: seq<uint32>, registry: map<uint32, T>): (r: seq<T>)
    requires AllRegistered(ids, registry)
    ensures |r| == |ids| && forall i :: 0 <= i < |ids| ==> r[i] == registry[ids[i]]
  {
    seq(|ids|, i requires 0 <= i < |ids| => registry[ids[i]])
  }

  /** The concatenation of the spell lines `lineIds` names. */
  function LinesConcat(lineIds: seq<uint32>, lines: map<uint32, seq<Spell>>): seq<Spell>
    requires AllRegistered(lineIds, lines)
    decreases |lineIds|
  {
    if lineIds == [] then []
    else LinesConcat(lineIds[..|lineIds| - 1], lines) + lines[lineIds[|lineIds| - 1]]
  }

  /** The ids of `spells` (a set of spells compares them by id). */
  function IdsOf(spells: seq<Spell>): (r: set<uint32>)
    ensures forall s :: s in spells ==> s.id in r
    ensures forall x :: x in r ==> exists s :: s in spells && s.id == x
  {
    set s | s in spells :: s.id
  }

  /** `a` with `b` appended: `b` itself when `a` is null, otherwise a new
      array (the resize and copy of the trigger-spell helpers). */
  method Appended(a: array?<Spell>, b: array<Spell>) returns (r: array<Spell>)
    ensures a == null ==> r == b
    ensures a != null ==> fresh(r) && r[..] == a[..] + b[..]
  {
    if a == null {
      return b;
    }
    if a.Length + b.Length == 0 {
      r := new Spell[0];
      return;
    }
    var filler := if a.Length > 0 then a[0] else b[0];
    r := new Spell[a.Length + b.Length](_ => filler);
    var i := 0;
    while i < a.Length
      invariant 0 <= i <= a.Length
      invariant r[..i] == a[..i]
    {
      r[i] := a[i];
      i := i + 1;
    }
    while i < r.Length
      invariant a.Length <= i <= r.Length
      invariant r[..i] == a[..] + b[..i - a.Length]
    {
      r[i] := b[i - a.Length];
      i := i + 1;
    }
  }

  /** The spells `ids` name, looked up one by one; fails on the first id
      the registry does not know. */
  method ResolveSpells(ids: seq<uint32>, registry: map<uint32, Spell>) returns (ok: bool, spells: array<Spell>)
    ensures ok <==> AllRegistered(ids, registry)
    ensures fresh(spells)
    ensures ok ==> spells[..] == Resolved(ids, registry)
  {
    if |ids| == 0 {
      spells := new Spell[0];
      return true, spells;
    }
    var i := 0;
    while i < |ids|
      invariant 0 <= i <= |ids|
      invariant AllRegistered(ids[..i], registry)
    {
      if ids[i] !in registry {
        spells := new Spell[0];
        return false, spells;
      }
      i := i + 1;
    }
    assert ids[..i] == ids;
    spells := new Spell[|ids|](_ => registry[ids[0]]);
    i := 0;
    while i < |ids|
      invariant 0 <= i <= |ids|
      invariant forall j :: 0 <= j < i ==> spells[j] == registry[ids[j]]
    {
      spells[i] := registry[ids[i]];
      i := i + 1;
    }
    assert spells[..] == Resolved(ids, registry);
    ok := true;
  }

  // ---------------------------------------------------------------------
  // What Init2 derives, phase by phase. Each record holds one group of the
  // spell's fields; each rule gives their values after Init2 from the raw
  // data, the effects and, where Init2 keeps a value it does not
  // overwrite, the values before (`prior`).

  datatype ChannelInfo = ChannelInfo(
    isChanneled: bool,
    isPassive: bool,
    isHealSpell: bool,
    isDualWieldAbility: bool,
    durationMin: int,
    durationMax: int,
    channelAmplitude: int)

  /** A spell is channeled by its channel attributes or interrupt flags;
      passive when it has the passive attribute and is not channeled, or
      when it tracks creatures, resources or stealthed units; the heal and
      dual-wield flags are only ever set; a channeled spell without a
      minimum duration lasts one second, and a channeled spell takes its
      amplitude from its first periodic effect. */
  function ChannelRule(raw: SpellData, effs: seq<SpellEffect>, prior: ChannelInfo): ChannelInfo
  {
    var channeled := ChanneledByAttributes(raw.attributesEx, raw.channelInterruptFlags);
    var oneSecond := channeled && prior.durationMin == 0;
    var periodic := FirstEffectWith(effs, IsPeriodicEffect);
    ChannelInfo(
      channeled,
      (!channeled && HasFlag(raw.attributes, AttrPassive)) || AnyEffect(effs, IsTrackingAura),
      prior.isHealSpell || AnyEffect(effs, IsHealEffect),
      prior.isDualWieldAbility || AnyEffect(effs, IsDualWieldEffect),
      if oneSecond then 1000 else prior.durationMin,
      if oneSecond then 1000 else prior.durationMax,
      if channeled && periodic.Some? then periodic.value.amplitude else prior.channelAmplitude)
  }

  datatype WeaponInfo = WeaponInfo(
    isOnNextStrike: bool,
    isRangedAbility: bool,
    isStrikeSpell: bool,
    isWeaponAbility: bool,
    isFinishingMove: bool,
    totemEffect: Option<SpellEffect>,
    equipmentSlot: EquipmentSlot,
    hasIndividualCooldown: bool)

  /** The weapon-ability flags (a triggered spell is never a ranged
      ability), the finishing-move flag, the first totem effect, the
      required equipment slot and whether the spell keeps its own
      cooldown. */
  function WeaponRule(raw: SpellData, effs: seq<SpellEffect>, isTriggered: bool): WeaponInfo
  {
    var onNextStrike := HasAnyFlag(raw.attributes, AttrOnNextMelee | AttrOnNextMelee2);
    var ranged := !isTriggered && RangedByAttributes(raw.attributes, raw.attributesExC);
    var strike := AnyEffect(effs, IsStrikeEffect);
    var weapon := ranged || onNextStrike || strike;
    var slot := EquipmentSlotRule(raw.requiredItemClass, raw.requiredItemSubClassMask, ranged, raw.attributesExC);
    WeaponInfo(
      onNextStrike, ranged, strike, weapon,
      HasAnyFlag(raw.attributesEx, AttrExFinishingMove) || AnyEffect(effs, IsComboPointEffect),
      FirstEffectWith(effs, IsTotemEffect),
      slot,
      HasIndividualCooldownRule(raw.cooldownTime, weapon, onNextStrike, slot))
  }

  datatype SkillInfo = SkillInfo(
    teachesApprenticeAbility: bool,
    isProfession: bool,
    isEnhancer: bool,
    isFishing: bool,
    chainTargets: int,
    isSkinning: bool,
    isTameEffect: bool)

  /** A skill-step effect decides whether the spell teaches an apprentice
      ability; a profession is a non-ranged ability of a profession skill;
      an enhancer has a class set, no class mask bit and an effect with an
      affect mask; the chain-target count is the last positive one among
      the effects. */
  function SkillRule(raw: SpellData, effs: seq<SpellEffect>, isRanged: bool, prior: SkillInfo): SkillInfo
  {
    var skillStep := FirstEffectWith(effs, OfType(SkillStep));
    SkillInfo(
      if skillStep.Some? then skillStep.value.basePoints == 0 else prior.teachesApprenticeAbility,
      !isRanged && raw.ability.Some? && raw.ability.value.isProfession,
      raw.spellClassSet != 0 && !SomeNonZero(raw.spellClassMask) && AnyEffect(effs, HasAffectMask),
      AnyEffect(effs, IsFishingEffect),
      LastPicked(effs, ChainTargetsOf, prior.chainTargets),
      AnyEffect(effs, IsSkinningEffect),
      AnyEffect(effs, IsTameEffect))
  }

  datatype TargetInfo = TargetInfo(
    harm: HarmInfo,
    reqDeadTarget: bool,
    costsMana: bool,
    hasTargets: bool,
    casterIsTarget: bool,
    isAreaSpell: bool,
    isDamageSpell: bool,
    isHearthStoneSpell: bool,
    skillId: int)

  /** The harm classification, the corpse requirement, the mana cost flag,
      the target flags (with `HasTargets` as written: no effect has
      targets), the area, damage
      and hearthstone flags, and the skill of the last skill effect. */
  function TargetRule(raw: SpellData, effs: seq<SpellEffect>, skillId0: int): TargetInfo
  {
    var harm := HarmRule(raw.isPreventionDebuff, raw.mechanicIsNegative, effs);
    var targets := HasTargetsAsWritten(effs);
    TargetInfo(
      harm,
      HasAnyFlag(raw.targetFlags, TargetFlagCorpse | TargetFlagPvPCorpse | TargetFlagUnitCorpse),
      raw.powerCost > 0 || raw.powerCostPercentage > 0,
      targets,
      CasterIsTargetRule(targets, effs),
      AnyEffect(effs, IsAreaEffect),
      harm.hasHarmfulEffects && !harm.hasBeneficialEffects && AnyEffect(effs, IsDamageEffect),
      AnyEffect(effs, IsHearthstoneEffect),
      LastPicked(effs, SkillOf, skillId0))
  }

  datatype CombatInfo = CombatInfo(
    schools: seq<nat>,
    requiresCasterOutOfCombat: bool,
    interruptFlags: bv32,
    isThrow: bool,
    hasModifierEffects: bool,
    rangeMaxDist: int,
    requiredToolIds: Option<seq<uint32>>,
    effectHandlerCount: int)

  /** The schools of the school mask; a spell with a cast time, no harmful
      effect and an out-of-combat attribute requires its caster out of
      combat and is then interrupted by damage; the throw flag; a zero
      range becomes melee range (5); a null tool list becomes empty; every
      effect with a handler counts once. */
  function CombatRule(raw: SpellData, effs: seq<SpellEffect>, hasHarmfulEffects: bool, prior: CombatInfo): CombatInfo
  {
    CombatFrom(raw, hasHarmfulEffects, prior, AnyEffect(effs, IsModifierEffect), CountEffects(effs, HasHandlerCreator))
  }

  /** `CombatRule` given what it reads from the effects: whether one is a
      modifier aura, and how many have a handler. */
  function CombatFrom(raw: SpellData, hasHarmfulEffects: bool, prior: CombatInfo,
                      hasModifierEffects: bool, handlerCount: nat): CombatInfo
  {
    var outOfCombat := !hasHarmfulEffects && raw.castDelay > 0 &&
                       OutOfCombatByAttributes(raw.attributes, raw.attributesEx, raw.auraInterruptFlags);
    CombatInfo(
      SchoolsRule(raw.schoolMask),
      outOfCombat,
      WithTakeDamageInterrupt(prior.interruptFlags, outOfCombat),
      HasFlag(raw.attributesExC, AttrExCShootRangedWeapon) && HasFlag(raw.attributes, AttrRanged) &&
        raw.ability.Some? && raw.ability.value.skillId == SkillThrown,
      hasModifierEffects,
      if prior.rangeMaxDist == 0 then 5 else prior.rangeMaxDist,
      if prior.requiredToolIds.None? then Some([]) else prior.requiredToolIds,
      prior.effectHandlerCount + handlerCount)
  }

  /** Every field Init2 derives, by phase. */
  datatype Derived = Derived(
    channel: ChannelInfo,
    weapon: WeaponInfo,
    skill: SkillInfo,
    target: TargetInfo,
    combat: CombatInfo)

  /** The phases in Init2's order: the skill phase reads the ranged flag of
      the weapon phase, the combat phase the harmful-effects flag of the
      target phase. */
  function DerivedRule(raw: SpellData, effs: seq<SpellEffect>, isTriggered: bool, prior: Derived): Derived
  {
    var weapon := WeaponRule(raw, effs, isTriggered);
    var target := TargetRule(raw, effs, prior.target.skillId);
    Derived(
      ChannelRule(raw, effs, prior.channel),
      weapon,
      SkillRule(raw, effs, weapon.isRangedAbility, prior.skill),
      target,
      CombatRule(raw, effs, target.harm.hasHarmfulEffects, prior.combat))
  }

  /** A channeled spell always ends up with a duration, and the heal and
      dual-wield flags are never cleared. */
  lemma ChannelRuleFacts(raw: SpellData, effs: seq<SpellEffect>, prior: ChannelInfo)
    ensures var c := ChannelRule(raw, effs, prior);
      && (c.isChanneled ==> c.durationMin != 0)
      && (!c.isChanneled ==> c.durationMin == prior.durationMin && c.durationMax == prior.durationMax &&
                              c.channelAmplitude == prior.channelAmplitude)
      && (c.isChanneled ==> !c.isPassive || AnyEffect(effs, IsTrackingAura))
      && (prior.isHealSpell ==> c.isHealSpell)
      && (prior.isDualWieldAbility ==> c.isDualWieldAbility)
      && (c.isHealSpell <==> prior.isHealSpell || exists i :: 0 <= i < |effs| && effs[i].isHealEffect)
  {
  }

  /** A strike spell and an on-next-strike spell are weapon abilities, a
      triggered spell is never a ranged ability, and the totem effect is the
      first totem effect of the spell. */
  lemma WeaponRuleFacts(raw: SpellData, effs: seq<SpellEffect>, isTriggered: bool)
    ensures var w := WeaponRule(raw, effs, isTriggered);
      && (w.isStrikeSpell || w.isOnNextStrike || w.isRangedAbility ==> w.isWeaponAbility)
      && (isTriggered ==> !w.isRangedAbility)
      && (w.totemEffect.None? <==> forall i :: 0 <= i < |effs| ==> !IsTotemEffect(effs[i]))
      && (w.totemEffect.Some? ==> w.totemEffect.value in effs && IsTotemEffect(w.totemEffect.value))
  {
    var w := WeaponRule(raw, effs, isTriggered);
    if w.totemEffect.Some? {
      var i :| 0 <= i < |effs| && effs[i] == w.totemEffect.value && IsTotemEffect(w.totemEffect.value) &&
               forall j :: 0 <= j < i ==> !IsTotemEffect(effs[j]);
      assert effs[i] in effs;
    }
  }

  /** `HasTargets` holds exactly when no effect has targets, and the caster
      is a target only then; a damage spell is harmful and not beneficial;
      a prevention debuff is harmful whatever its effects. */
  lemma TargetRuleFacts(raw: SpellData, effs: seq<SpellEffect>, skillId0: int)
    ensures var t := TargetRule(raw, effs, skillId0);
      && (t.hasTargets <==> forall i :: 0 <= i < |effs| ==> !effs[i].hasTargets)
      && (t.casterIsTarget ==> t.hasTargets)
      && (t.isDamageSpell ==> t.harm.hasHarmfulEffects && !t.harm.hasBeneficialEffects &&
                               exists i :: 0 <= i < |effs| && IsDamageEffect(effs[i]))
      && (raw.isPreventionDebuff ==> t.harm.harmType == Harmful)
      && (t.costsMana <==> raw.powerCost > 0 || raw.powerCostPercentage > 0)
  {
  }

  /** A spell that requires its caster out of combat has no harmful effect
      and is interrupted by damage; the range is never 0; the handler count
      grows by at most one per effect. */
  lemma CombatRuleFacts(raw: SpellData, effs: seq<SpellEffect>, hasHarmfulEffects: bool, prior: CombatInfo)
    ensures var c := CombatRule(raw, effs, hasHarmfulEffects, prior);
      && (c.requiresCasterOutOfCombat ==> !hasHarmfulEffects && raw.castDelay > 0 &&
                                          HasFlag(c.interruptFlags, InterruptOnTakeDamage))
      && (!c.requiresCasterOutOfCombat ==> c.interruptFlags == prior.interruptFlags)
      && c.rangeMaxDist != 0
      && c.requiredToolIds.Some?
      && prior.effectHandlerCount <= c.effectHandlerCount <= prior.effectHandlerCount + |effs|
  {
  }

  /** A spell without effects derives nothing from them: it is no strike,
      totem, area, damage or hearthstone spell, keeps its skill id and chain
      targets, and counts no handler. As written, it counts as having
      targets, but the caster is not one of them. */
  lemma DerivedRuleWithoutEffects(raw: SpellData, isTriggered: bool, prior: Derived)
    ensures var d := DerivedRule(raw, [], isTriggered, prior);
      && d.channel.isHealSpell == prior.channel.isHealSpell
      && !d.weapon.isStrikeSpell && d.weapon.totemEffect.None?
      && d.target.hasTargets && !d.target.casterIsTarget && !d.target.isAreaSpell
      && !d.target.isDamageSpell && !d.target.isHearthStoneSpell
      && d.target.skillId == prior.target.skillId && d.skill.chainTargets == prior.skill.chainTargets
      && d.combat.effectHandlerCount == prior.combat.effectHandlerCount
      && (raw.isPreventionDebuff || raw.mechanicIsNegative || d.target.harm.harmType == Neutral)
  {
  }

  /** The interrupt flags with `OnTakeDamage` added when the caster must
      stay out of combat. */
  function WithTakeDamageInterrupt(flags: bv32, outOfCombat: bool): (r: bv32)
    ensures outOfCombat ==> HasFlag(r, InterruptOnTakeDamage)
    ensures !outOfCombat ==> r == flags
  {
    if outOfCombat then flags | InterruptOnTakeDamage else flags
  }

  /** `Contains(val => val != 0)` on a mask array. */
  method ContainsNonZero(masks: seq<bv32>) returns (b: bool)
    ensures b == SomeNonZero(masks)
  {
    var j := 0;
    while j < |masks|
      invariant 0 <= j <= |masks|
      invariant forall m :: 0 <= m < j ==> masks[m] == 0
    {
      if masks[j] != 0 {
        return true;
      }
      j := j + 1;
    }
    return false;
  }

  class Spell {
    const id: uint32
    const raw: SpellData
    /** Set by other spells' initialization when they trigger this one. */
    var isTriggeredSpell: bool

    var effects: array<SpellEffect>
    var targetTriggerSpells: array?<Spell>
    var casterTriggerSpells: array?<Spell>
    /** The proc sets, by spell id; None is a null set. */
    var casterProcSpells: Option<set<uint32>>
    var targetProcSpells: Option<set<uint32>>
    var procTriggerFlags: bv32
    /** Three masks, OR-ed together from the effects' affect masks. */
    const allAffectingMasks: array<bv32>

    /** The columns Init2 may overwrite and the fields it derives, grouped
        by the phase of Init2 that sets them. */
    var derived: Derived
    var inited: bool
    var isRejuvenationOrRegrowth: bool

    /** The affecting masks are three, and never the effect array. */
    predicate Valid()
      reads this`effects
    {
      allAffectingMasks.Length == 3 && effects as object != allAffectingMasks
    }

    constructor (id: uint32, raw: SpellData, initialEffects: seq<SpellEffect>,
                 durationMin: int, durationMax: int, rangeMaxDist: int, chainTargets: int,
                 interruptFlags: bv32, requiredToolIds: Option<seq<uint32>>)
      ensures Valid() && !inited
      ensures this.id == id && this.raw == raw && fresh(effects) && effects[..] == initialEffects
      ensures allAffectingMasks[..] == [0, 0, 0]
      ensures derived.channel.durationMin == durationMin && derived.channel.durationMax == durationMax
      ensures derived.combat.rangeMaxDist == rangeMaxDist && derived.skill.chainTargets == chainTargets
      ensures derived.combat.interruptFlags == interruptFlags && derived.combat.requiredToolIds == requiredToolIds
      ensures derived.combat.effectHandlerCount == 0 && derived.target.skillId == 0
      ensures targetTriggerSpells == null && casterTriggerSpells == null
      ensures casterProcSpells.None? && targetProcSpells.None? && procTriggerFlags == 0
    {
      this.id := id;
      this.raw := raw;
      effects := new SpellEffect[|initialEffects|](i requires 0 <= i < |initialEffects| => initialEffects[i]);
      allAffectingMasks := new bv32[3](_ => 0);
      derived := Derived(
        ChannelInfo(false, false, false, false, durationMin, durationMax, 0),
        WeaponInfo(false, false, false, false, false, None, SlotEnd, false),
        SkillInfo(false, false, false, false, chainTargets, false, false),
        TargetInfo(HarmInfo(Neutral, false, false), false, false, false, false, false, false, false, 0),
        CombatInfo([], false, interruptFlags, false, false, rangeMaxDist, requiredToolIds, 0));
      targetTriggerSpells := null;
      casterTriggerSpells := null;
      casterProcSpells := None;
      targetProcSpells := None;
      procTriggerFlags := 0;
      inited := false;
      new;
      assert allAffectingMasks[..] == [allAffectingMasks[0], allAffectingMasks[1], allAffectingMasks[2]];
    }

    // -------------------------------------------------------------------
    // Trigger spells

    /** Adds spells to be cast on the targets of this spell. */
    method AddTargetTriggerSpells(spells: array<Spell>)
      modifies this`targetTriggerSpells
      ensures old(targetTriggerSpells) == null ==> targetTriggerSpells == spells
      ensures old(targetTriggerSpells) != null ==>
        targetTriggerSpells != null && fresh(targetTriggerSpells) &&
        targetTriggerSpells[..] == old(targetTriggerSpells[..]) + spells[..]
    {
      targetTriggerSpells := Appended(targetTriggerSpells, spells);
    }

    /** The by-id overload: fails, changing nothing, on an unknown id. */
    method AddTargetTriggerSpellsById(ids: seq<uint32>, registry: map<uint32, Spell>) returns (ok: bool)
      modifies this`targetTriggerSpells
      ensures ok <==> AllRegistered(ids, registry)
      ensures !ok ==> targetTriggerSpells == old(targetTriggerSpells)
      ensures ok && old(targetTriggerSpells) == null ==>
        targetTriggerSpells != null && targetTriggerSpells[..] == Resolved(ids, registry)
      ensures ok && old(targetTriggerSpells) != null ==>
        targetTriggerSpells != null && fresh(targetTriggerSpells) &&
        targetTriggerSpells[..] == old(targetTriggerSpells[..]) + Resolved(ids, registry)
    {
      var spells;
      ok, spells := ResolveSpells(ids, registry);
      if ok {
        AddTargetTriggerSpells(spells);
      }
    }

    /** Adds spells to be cast on the caster of this spell. */
    method AddCasterTriggerSpells(spells: array<Spell>)
      modifies this`casterTriggerSpells
      ensures old(casterTriggerSpells) == null ==> casterTriggerSpells == spells
      ensures old(casterTriggerSpells) != null ==>
        casterTriggerSpells != null && fresh(casterTriggerSpells) &&
        casterTriggerSpells[..] == old(casterTriggerSpells[..]) + spells[..]
    {
      casterTriggerSpells := Appended(casterTriggerSpells, spells);
    }

    method AddCasterTriggerSpellsById(ids: seq<uint32>, registry: map<uint32, Spell>) returns (ok: bool)
      modifies this`casterTriggerSpells
      ensures ok <==> AllRegistered(ids, registry)
      ensures !ok ==> casterTriggerSpells == old(casterTriggerSpells)
      ensures ok && old(casterTriggerSpells) == null ==>
        casterTriggerSpells != null && casterTriggerSpells[..] == Resolved(ids, registry)
      ensures ok && old(casterTriggerSpells) != null ==>
        casterTriggerSpells != null && fresh(casterTriggerSpells) &&
        casterTriggerSpells[..] == old(casterTriggerSpells[..]) + Resolved(ids, registry)
    {
      var spells;
      ok, spells := ResolveSpells(ids, registry);
      if ok {
        AddCasterTriggerSpells(spells);
      }
    }

    // -------------------------------------------------------------------
    // Proc spells

    /** Adds spells which, when cast, can proc this spell, and marks spell
        casts as a proc trigger. */
    method AddCasterProcSpells(spells: seq<Spell>)
      modifies this`casterProcSpells, this`procTriggerFlags
      ensures casterProcSpells == Some(old(if casterProcSpells.Some? then casterProcSpells.value else {}) + IdsOf(spells))
      ensures procTriggerFlags == old(procTriggerFlags) | ProcSpellCast
    {
      if casterProcSpells.None? {
        casterProcSpells := Some({});
      }
      casterProcSpells := Some(casterProcSpells.value + IdsOf(spells));
      procTriggerFlags := procTriggerFlags | ProcSpellCast;
    }

    /** The by-id overload: fails, changing nothing, on an unknown id. */
    method AddCasterProcSpellsById(ids: seq<uint32>, registry: map<uint32, Spell>) returns (ok: bool)
      modifies this`casterProcSpells, this`procTriggerFlags
      ensures ok <==> AllRegistered(ids, registry)
      ensures !ok ==> casterProcSpells == old(casterProcSpells) && procTriggerFlags == old(procTriggerFlags)
      ensures ok ==>
        casterProcSpells == Some(old(if casterProcSpells.Some? then casterProcSpells.value else {}) + IdsOf(Resolved(ids, registry)))
      ensures ok ==> procTriggerFlags == old(procTriggerFlags) | ProcSpellCast
    {
      var spells;
      ok, spells := ResolveSpells(ids, registry);
      if ok {
        AddCasterProcSpells(spells[..]);
      }
    }

    /** The spell-line overload: every spell of every named line; an
        unknown line fails before anything changes. */
    method AddCasterProcSpellsByLine(lineIds: seq<uint32>, lines: map<uint32, seq<Spell>>) returns (ok: bool)
      modifies this`casterProcSpells, this`procTriggerFlags
      ensures ok <==> AllRegistered(lineIds, lines)
      ensures !ok ==> casterProcSpells == old(casterProcSpells) && procTriggerFlags == old(procTriggerFlags)
      ensures ok ==>
        casterProcSpells == Some(old(if casterProcSpells.Some? then casterProcSpells.value else {}) + IdsOf(LinesConcat(lineIds, lines)))
      ensures ok ==> procTriggerFlags == old(procTriggerFlags) | ProcSpellCast
    {
      var list;
      ok, list := CollectLines(lineIds, lines);
      if ok {
        AddCasterProcSpells(list);
      }
    }

    /** Adds spells which can proc this spell on their target. */
    method AddTargetProcSpells(spells: seq<Spell>)
      modifies this`targetProcSpells, this`procTriggerFlags
      ensures targetProcSpells == Some(old(if targetProcSpells.Some? then targetProcSpells.value else {}) + IdsOf(spells))
      ensures procTriggerFlags == old(procTriggerFlags) | ProcSpellCast
    {
      if targetProcSpells.None? {
        targetProcSpells := Some({});
      }
      targetProcSpells := Some(targetProcSpells.value + IdsOf(spells));
      procTriggerFlags := procTriggerFlags | ProcSpellCast;
    }

    method AddTargetProcSpellsById(ids: seq<uint32>, registry: map<uint32, Spell>) returns (ok: bool)
      modifies this`targetProcSpells, this`procTriggerFlags
      ensures ok <==> AllRegistered(ids, registry)
      ensures !ok ==> targetProcSpells == old(targetProcSpells) && procTriggerFlags == old(procTriggerFlags)
      ensures ok ==>
        targetProcSpells == Some(old(if targetProcSpells.Some? then targetProcSpells.value else {}) + IdsOf(Resolved(ids, registry)))
      ensures ok ==> procTriggerFlags == old(procTriggerFlags) | ProcSpellCast
    {
      var spells;
      ok, spells := ResolveSpells(ids, registry);
      if ok {
        AddTargetProcSpells(spells[..]);
      }
    }

    method AddTargetProcSpellsByLine(lineIds: seq<uint32>, lines: map<uint32, seq<Spell>>) returns (ok: bool)
      modifies this`targetProcSpells, this`procTriggerFlags
      ensures ok <==> AllRegistered(lineIds, lines)
      ensures !ok ==> targetProcSpells == old(targetProcSpells) && procTriggerFlags == old(procTriggerFlags)
      ensures ok ==>
        targetProcSpells == Some(old(if targetProcSpells.Some? then targetProcSpells.value else {}) + IdsOf(LinesConcat(lineIds, lines)))
      ensures ok ==> procTriggerFlags == old(procTriggerFlags) | ProcSpellCast
    {
      var list;
      ok, list := CollectLines(lineIds, lines);
      if ok {
        AddTargetProcSpells(list);
      }
    }

    /** `CanProcBeTriggeredBy`. */
    predicate CanProcBeTriggeredBy(action: UnitAction, active: bool): (r: bool)
      reads this
      ensures (if active then casterProcSpells else targetProcSpells).Some? ==>
        (r <==> action.spell.Some? && action.spell.value in (if active then casterProcSpells else targetProcSpells).value)
      ensures (if active then casterProcSpells else targetProcSpells).None? && raw.requiredItemClass != ItemClassNone && r ==>
        action.isAttack && action.weapon.ItemWeapon? && action.weapon.itemClass == raw.requiredItemClass
      ensures (if active then casterProcSpells else targetProcSpells).None? && raw.requiredItemClass == ItemClassNone ==> r
    {
      CanProcRule(active, casterProcSpells, targetProcSpells, raw.requiredItemClass, raw.requiredItemSubClassMask, action)
    }

    // -------------------------------------------------------------------
    // Effects

    method HasEffectWith(p: SpellEffect -> bool) returns (r: bool)
      ensures r == AnyEffect(effects[..], p)
    {
      r := AnyEffectIn(effects[..], p);
    }

    /** The first effect of the given type, or null. */
    method GetEffect(t: SpellEffectType) returns (r: Option<SpellEffect>)
      ensures r == FirstEffectWith(effects[..], OfType(t))
    {
      r := FirstEffectIn(effects[..], OfType(t));
    }

    method GetFirstEffectWith(p: SpellEffect -> bool) returns (r: Option<SpellEffect>)
      ensures r == FirstEffectWith(effects[..], p)
    {
      r := FirstEffectIn(effects[..], p);
    }

    /** The matching effects in order, or null when none matches. */
    method GetEffectsWith(p: SpellEffect -> bool) returns (r: Option<seq<SpellEffect>>)
      ensures r == EffectsWith(effects[..], p)
    {
      var es := effects[..];
      r := None;
      var i := 0;
      while i < |es|
        invariant 0 <= i <= |es|
        invariant r == (if Filter(es[..i], p) == [] then None else Some(Filter(es[..i], p)))
      {
        ghost var before := Filter(es[..i], p);
        assert es[..i + 1][..i] == es[..i];
        assert Filter(es[..i + 1], p) == before + (if p(es[i]) then [es[i]] else []);
        if p(es[i]) {
          assert r.None? ==> before == [];
          r := Some((if r.None? then [] else r.value) + [es[i]]);
        } else {
          assert before + [] == before;
        }
        i := i + 1;
      }
      assert es[..i] == es;
    }

    /** `ForeachEffect` with a callback that stores `pick`'s value, when
        there is one, over `init`: the last value stored. */
    method LastPickedBy(pick: SpellEffect -> Option<int>, init: int) returns (r: int)
      ensures r == LastPicked(effects[..], pick, init)
    {
      r := LastPickedIn(effects[..], pick, init);
    }

    /** `ForeachEffect` with a callback that counts the effects satisfying
        `p`. */
    method CountEffectsWith(p: SpellEffect -> bool) returns (n: nat)
      ensures n == CountEffects(effects[..], p)
    {
      n := CountEffectsIn(effects[..], p);
    }

    /** Appends a fresh effect of the given type aimed at `target`; it takes
        the index of the last effect (0 for the first). */
    method AddEffect(t: SpellEffectType, target: ImplicitTargetType) returns (effect: SpellEffect)
      requires Valid()
      modifies this`effects
      ensures Valid()
      ensures fresh(effects)
      ensures effects[..] == old(effects[..]) + [effect]
      ensures effect == NewEffect(if old(effects.Length) > 0 then old(effects[effects.Length - 1].effectIndex) else 0, t)
                          .(implicitTargetA := target)
    {
      var current := effects;
      var index := if current.Length > 0 then current[current.Length - 1].effectIndex else 0;
      effect := NewEffect(index, t).(implicitTargetA := target);
      var grown := new SpellEffect[current.Length + 1](_ => effect);
      var i := 0;
      while i < current.Length
        invariant 0 <= i <= current.Length
        invariant grown[..i] == current[..i]
        invariant grown[current.Length] == effect
      {
        grown[i] := current[i];
        i := i + 1;
      }
      assert grown[..] == current[..] + [effect];
      effects := grown;
    }

    /** Replaces the first effect of the given type with a blank effect,
        or appends a blank effect when there is none. */
    method ReplaceEffect(t: SpellEffectType) returns (effect: SpellEffect)
      requires Valid()
      modifies this`effects, effects
      ensures Valid()
      ensures var k := FirstIndexWith(old(effects[..]), OfType(t));
        if k < old(effects.Length) then
          effects == old(effects) && effect == NewEffect(0, EffectNone) &&
          effects[..] == old(effects[..])[k := effect]
        else
          fresh(effects) && effects[..] == old(effects[..]) + [effect] &&
          effect == NewEffect(if old(effects.Length) > 0 then old(effects[effects.Length - 1].effectIndex) else 0,
                              EffectNone).(implicitTargetA := TargetNone)
    {
      var i := 0;
      while i < effects.Length
        invariant 0 <= i <= effects.Length
        invariant forall j :: 0 <= j < i ==> effects[j].effectType != t
      {
        if effects[i].effectType == t {
          effect := NewEffect(0, EffectNone);
          effects[i] := effect;
          return;
        }
        i := i + 1;
      }
      effect := AddEffect(EffectNone, TargetNone);
    }

    /** Appends an effect that triggers `triggerSpell` on `target`. */
    method AddTriggerSpellEffect(triggerSpell: uint32, target: ImplicitTargetType) returns (effect: SpellEffect)
      requires Valid()
      modifies this`effects
      ensures Valid()
      ensures fresh(effects) && effects[..] == old(effects[..]) + [effect]
      ensures effect == NewEffect(if old(effects.Length) > 0 then old(effects[effects.Length - 1].effectIndex) else 0, TriggerSpell)
                          .(triggerSpellId := triggerSpell, implicitTargetA := target)
    {
      effect := AddEffect(TriggerSpell, TargetNone);
      effect := effect.(triggerSpellId := triggerSpell, implicitTargetA := target);
      effects[effects.Length - 1] := effect;
    }

    /** Appends an effect applying an aura of the given type on `target`. */
    method AddAuraEffect(aura: AuraType, target: ImplicitTargetType) returns (effect: SpellEffect)
      requires Valid()
      modifies this`effects
      ensures Valid()
      ensures fresh(effects) && effects[..] == old(effects[..]) + [effect]
      ensures effect == NewEffect(if old(effects.Length) > 0 then old(effects[effects.Length - 1].effectIndex) else 0, ApplyAura)
                          .(auraType := aura, implicitTargetA := target)
    {
      effect := AddEffect(ApplyAura, TargetNone);
      effect := effect.(auraType := aura, implicitTargetA := target);
      effects[effects.Length - 1] := effect;
    }

    /** Appends a dummy-aura effect on `target` whose aura is handled by a
        custom handler creator. */
    method AddAuraHandlerEffect(target: ImplicitTargetType) returns (effect: SpellEffect)
      requires Valid()
      modifies this`effects
      ensures Valid()
      ensures fresh(effects) && effects[..] == old(effects[..]) + [effect]
      ensures effect == NewEffect(if old(effects.Length) > 0 then old(effects[effects.Length - 1].effectIndex) else 0, ApplyAura)
                          .(auraType := AuraDummy, hasAuraHandlerCreator := true, implicitTargetA := target)
    {
      effect := AddEffect(ApplyAura, TargetNone);
      effect := effect.(auraType := AuraDummy, hasAuraHandlerCreator := true, implicitTargetA := target);
      effects[effects.Length - 1] := effect;
    }

    method ClearEffects()
      requires Valid()
      modifies this`effects
      ensures Valid()
      ensures fresh(effects) && effects.Length == 0
    {
      effects := new SpellEffect[0];
    }

    // -------------------------------------------------------------------
    // Small helpers

    method FigureSpellFieldsByNamesOrIds()
      modifies this`isRejuvenationOrRegrowth
      ensures isRejuvenationOrRegrowth ==
        (old(isRejuvenationOrRegrowth) || (!raw.isTeachSpell && (raw.name == "Rejuvenation" || raw.name == "Regrowth")))
    {
      if !raw.isTeachSpell && (raw.name == "Rejuvenation" || raw.name == "Regrowth") {
        isRejuvenationOrRegrowth := true;
      }
    }

    /** `MatchesMask`; None where the source indexes past the end of
        `masks`. */
    method MatchesMask(masks: seq<bv32>) returns (r: Option<bool>)
      ensures r == MatchesMaskRule(raw.spellClassMask, masks)
    {
      var classMask := raw.spellClassMask;
      var i := 0;
      while i < |classMask|
        invariant 0 <= i <= |classMask|
        invariant i <= |masks|
        invariant MatchesMaskRule(classMask, masks) == MatchesMaskRule(classMask[i..], masks[i..])
      {
        if i >= |masks| {
          return None;
        }
        if SharesFlag(masks[i], classMask[i]) {
          return Some(true);
        }
        assert classMask[i..][1..] == classMask[i + 1..] && masks[i..][1..] == masks[i + 1..];
        i := i + 1;
      }
      return Some(false);
    }

    function GetMaxLevelDiffFor(casterLevel: int): (d: int)
      reads this
      ensures d >= 0
      ensures d == GetMaxLevelDiff(raw.baseLevel, raw.maxLevel, casterLevel)
    {
      GetMaxLevelDiff(raw.baseLevel, raw.maxLevel, casterLevel)
    }

    /** `GetHashCode`. */
    function HashCodeOf(): (h: int)
      reads this
      ensures -0x8000_0000 <= h < 0x8000_0000
      ensures (h - id as int) % 0x1_0000_0000 == 0
    {
      HashCode(id)
    }

    // -------------------------------------------------------------------
    // Init2

    /** Derives every dependent field once; a second call changes nothing.
        No phase reads the affecting masks, and each reads only the raw
        data, the effects, the values before and what an earlier phase
        derived, so the masks are OR-ed first and the phases are computed
        before they are stored. */
    method Init2()
      requires Valid()
      modifies this`derived, this`inited, allAffectingMasks
      ensures Valid()
      ensures old(inited) ==> unchanged(this) && unchanged(allAffectingMasks)
      ensures inited && effects == old(effects) && unchanged(effects)
      ensures !old(inited) ==> derived == DerivedRule(raw, old(effects[..]), old(isTriggeredSpell), old(derived))
      ensures !old(inited) ==>
        forall k :: 0 <= k < 3 ==> allAffectingMasks[k] == OrMaskAt(old(allAffectingMasks[k]), old(effects[..]), k)
    {
      if inited {
        return;
      }
      var es := effects[..];
      OrAffectingMasks(es);
      var d := ComputeDerived(raw, es, isTriggeredSpell, derived);
      inited := true;
      derived := d;
    }

    /** ORs the affect mask of every effect in `es` into `allAffectingMasks`. */
    method OrAffectingMasks(es: seq<SpellEffect>)
      requires Valid()
      modifies allAffectingMasks
      ensures forall k :: 0 <= k < 3 ==> allAffectingMasks[k] == OrMaskAt(old(allAffectingMasks[k]), es, k)
    {
      ghost var masks0 := allAffectingMasks[..];
      var i := 0;
      while i < |es|
        invariant 0 <= i <= |es|
        invariant forall k :: 0 <= k < 3 ==> allAffectingMasks[k] == OrMaskAt(masks0[k], es[..i], k)
      {
        forall k | 0 <= k < 3
          ensures OrMaskAt(masks0[k], es[..i + 1], k) == OrMaskAt(masks0[k], es[..i], k) | es[i].affectMask[k]
        {
          OrMaskAtPrefix(masks0[k], es, i, k);
        }
        OrEffectMask(es[i]);
        i := i + 1;
      }
      assert es[..i] == es;
    }

    /** ORs one effect's three affect masks into `allAffectingMasks`. */
    method OrEffectMask(e: SpellEffect)
      requires Valid()
      modifies allAffectingMasks
      ensures forall k :: 0 <= k < 3 ==> allAffectingMasks[k] == old(allAffectingMasks[k]) | e.affectMask[k]
    {
      var k := 0;
      while k < 3
        invariant 0 <= k <= 3
        invariant forall j :: 0 <= j < k ==> allAffectingMasks[j] == old(allAffectingMasks[j]) | e.affectMask[j]
        invariant forall j :: k <= j < 3 ==> allAffectingMasks[j] == old(allAffectingMasks[j])
      {
        allAffectingMasks[k] := allAffectingMasks[k] | e.affectMask[k];
        k := k + 1;
      }
    }
  }

  // ---------------------------------------------------------------------
  // Loops over a spell's effects

  method AnyEffectIn(es: seq<SpellEffect>, p: SpellEffect -> bool) returns (r: bool)
    ensures r == AnyEffect(es, p)
  {
    var i := 0;
    while i < |es|
      invariant 0 <= i <= |es|
      invariant forall j :: 0 <= j < i ==> !p(es[j])
    {
      if p(es[i]) {
        return true;
      }
      i := i + 1;
    }
    return false;
  }

  method FirstEffectIn(es: seq<SpellEffect>, p: SpellEffect -> bool) returns (r: Option<SpellEffect>)
    ensures r == FirstEffectWith(es, p)
  {
    var i := 0;
    while i < |es|
      invariant 0 <= i <= |es|
      invariant forall j :: 0 <= j < i ==> !p(es[j])
    {
      if p(es[i]) {
        return Some(es[i]);
      }
      i := i + 1;
    }
    return None;
  }

  method LastPickedIn(es: seq<SpellEffect>, pick: SpellEffect -> Option<int>, init: int) returns (r: int)
    ensures r == LastPicked(es, pick, init)
  {
    r := init;
    var i := 0;
    while i < |es|
      invariant 0 <= i <= |es|
      invariant r == LastPicked(es[..i], pick, init)
    {
      assert es[..i + 1][..i] == es[..i];
      var picked := pick(es[i]);
      if picked.Some? {
        r := picked.value;
      }
      i := i + 1;
    }
    assert es[..i] == es;
  }

  method CountEffectsIn(es: seq<SpellEffect>, p: SpellEffect -> bool) returns (n: nat)
    ensures n == CountEffects(es, p)
  {
    n := 0;
    var i := 0;
    while i < |es|
      invariant 0 <= i <= |es|
      invariant n == CountEffects(es[..i], p)
    {
      assert es[..i + 1][..i] == es[..i];
      if p(es[i]) {
        n := n + 1;
      }
      i := i + 1;
    }
    assert es[..i] == es;
  }

  // ---------------------------------------------------------------------
  // The phases of Init2, on the raw data, the effects and the values the
  // derived fields held before

  /** All phases of Init2, in order. */
  method ComputeDerived(raw: SpellData, es: seq<SpellEffect>, isTriggered: bool, prior: Derived) returns (d: Derived)
    ensures d == DerivedRule(raw, es, isTriggered, prior)
  {
    var channel := ComputeChannelInfo(raw, es, prior.channel);
    var weapon := ComputeWeaponInfo(raw, es, isTriggered);
    var skill := ComputeSkillInfo(raw, es, weapon.isRangedAbility, prior.skill);
    var target := ComputeTargetInfo(raw, es, prior.target.skillId);
    var combat := ComputeCombatInfo(raw, es, target.harm.hasHarmfulEffects, prior.combat);
    d := Derived(channel, weapon, skill, target, combat);
  }

  /** The channeling phase, with its loop over the effects. */
  method ComputeChannelInfo(raw: SpellData, es: seq<SpellEffect>, prior: ChannelInfo) returns (c: ChannelInfo)
    ensures c == ChannelRule(raw, es, prior)
  {
    var channeled := ChanneledByAttributes(raw.attributesEx, raw.channelInterruptFlags);
    var tracking := AnyEffectIn(es, IsTrackingAura);
    var heal, dualWield := prior.isHealSpell, prior.isDualWieldAbility;
    var i := 0;
    while i < |es|
      invariant 0 <= i <= |es|
      invariant heal == (prior.isHealSpell || AnyEffect(es[..i], IsHealEffect))
      invariant dualWield == (prior.isDualWieldAbility || AnyEffect(es[..i], IsDualWieldEffect))
    {
      AnyEffectSnoc(es, IsHealEffect, i);
      AnyEffectSnoc(es, IsDualWieldEffect, i);
      if es[i].isHealEffect {
        heal := true;
      }
      if es[i].effectType == NormalizedWeaponDamagePlus {
        dualWield := true;
      }
      i := i + 1;
    }
    assert es[..i] == es;
    var minDuration, maxDuration, amplitude := prior.durationMin, prior.durationMax, prior.channelAmplitude;
    if channeled {
      if minDuration == 0 {
        minDuration, maxDuration := 1000, 1000;
      }
      var periodic := FirstEffectIn(es, IsPeriodicEffect);
      if periodic.Some? {
        amplitude := periodic.value.amplitude;
      }
    }
    c := ChannelInfo(channeled, (!channeled && HasFlag(raw.attributes, AttrPassive)) || tracking,
                     heal, dualWield, minDuration, maxDuration, amplitude);
  }

  /** The weapon phase. */
  method ComputeWeaponInfo(raw: SpellData, es: seq<SpellEffect>, isTriggered: bool) returns (w: WeaponInfo)
    ensures w == WeaponRule(raw, es, isTriggered)
  {
    var onNextStrike := HasAnyFlag(raw.attributes, AttrOnNextMelee | AttrOnNextMelee2);
    var ranged := !isTriggered && RangedByAttributes(raw.attributes, raw.attributesExC);
    var strike := AnyEffectIn(es, IsStrikeEffect);
    var weaponAbility := ranged || onNextStrike || strike;
    var comboPoints := AnyEffectIn(es, IsComboPointEffect);
    var totem := FirstEffectIn(es, IsTotemEffect);
    var slot := EquipmentSlotRule(raw.requiredItemClass, raw.requiredItemSubClassMask, ranged, raw.attributesExC);
    w := WeaponInfo(onNextStrike, ranged, strike, weaponAbility,
                    HasAnyFlag(raw.attributesEx, AttrExFinishingMove) || comboPoints, totem, slot,
                    HasIndividualCooldownRule(raw.cooldownTime, weaponAbility, onNextStrike, slot));
  }

  /** The skill phase; `isRanged` is what the weapon phase derived. */
  method ComputeSkillInfo(raw: SpellData, es: seq<SpellEffect>, isRanged: bool, prior: SkillInfo) returns (k: SkillInfo)
    ensures k == SkillRule(raw, es, isRanged, prior)
  {
    var skillStep := FirstEffectIn(es, OfType(SkillStep));
    var classMaskSet := ContainsNonZero(raw.spellClassMask);
    var affecting := AnyEffectIn(es, HasAffectMask);
    var fishing := AnyEffectIn(es, IsFishingEffect);
    var chain := LastPickedIn(es, ChainTargetsOf, prior.chainTargets);
    var skinning := AnyEffectIn(es, IsSkinningEffect);
    var tame := AnyEffectIn(es, IsTameEffect);
    var teaches := if skillStep.Some? then skillStep.value.basePoints == 0 else prior.teachesApprenticeAbility;
    k := SkillInfo(teaches, !isRanged && raw.ability.Some? && raw.ability.value.isProfession,
                   raw.spellClassSet != 0 && !classMaskSet && affecting, fishing, chain, skinning, tame);
  }

  /** The harm classification. */
  method ComputeHarmInfo(raw: SpellData, es: seq<SpellEffect>) returns (h: HarmInfo)
    ensures h == HarmRule(raw.isPreventionDebuff, raw.mechanicIsNegative, es)
  {
    if raw.isPreventionDebuff || raw.mechanicIsNegative {
      return HarmInfo(Harmful, true, false);
    }
    var harmful := AnyEffectIn(es, IsHarmfulEffect);
    var beneficial := AnyEffectIn(es, IsBeneficialEffect);
    var neutral := AnyEffectIn(es, IsNeutralEffect);
    var harmType;
    if harmful != beneficial && !neutral {
      harmType := if harmful then Harmful else Beneficial;
    } else {
      harmType := Neutral;
    }
    h := HarmInfo(harmType, harmful, beneficial);
  }

  /** The harm and target phase. */
  method ComputeTargetInfo(raw: SpellData, es: seq<SpellEffect>, skillId0: int) returns (t: TargetInfo)
    ensures t == TargetRule(raw, es, skillId0)
  {
    var harm := ComputeHarmInfo(raw, es);
    var anyTargets := AnyEffectIn(es, EffectHasTargets);
    var targets := !anyTargets;
    var selfAimed := AnyEffectIn(es, TargetsSelf);
    var area := AnyEffectIn(es, IsAreaEffect);
    var damaging := AnyEffectIn(es, IsDamageEffect);
    var hearthstone := AnyEffectIn(es, IsHearthstoneEffect);
    var skillId := LastPickedIn(es, SkillOf, skillId0);
    t := TargetInfo(harm,
                    HasAnyFlag(raw.targetFlags, TargetFlagCorpse | TargetFlagPvPCorpse | TargetFlagUnitCorpse),
                    raw.powerCost > 0 || raw.powerCostPercentage > 0,
                    targets, targets && selfAimed, area,
                    harm.hasHarmfulEffects && !harm.hasBeneficialEffects && damaging, hearthstone, skillId);
  }

  /** The combat phase; `hasHarmful` is what the target phase derived. */
  method ComputeCombatInfo(raw: SpellData, es: seq<SpellEffect>, hasHarmful: bool, prior: CombatInfo)
    returns (c: CombatInfo)
    ensures c == CombatRule(raw, es, hasHarmful, prior)
  {
    var modifiers := AnyEffectIn(es, IsModifierEffect);
    var handlers := CountEffectsIn(es, HasHandlerCreator);
    c := CombatFrom(raw, hasHarmful, prior, modifiers, handlers);
  }

  /** The spells of the named lines, concatenated; fails on an unknown
      line. */
  method CollectLines(lineIds: seq<uint32>, lines: map<uint32, seq<Spell>>) returns (ok: bool, list: seq<Spell>)
    ensures ok <==> AllRegistered(lineIds, lines)
    ensures ok ==> list == LinesConcat(lineIds, lines)
  {
    list := [];
    var i := 0;
    while i < |lineIds|
      invariant 0 <= i <= |lineIds|
      invariant AllRegistered(lineIds[..i], lines)
      invariant list == LinesConcat(lineIds[..i], lines)
    {
      if lineIds[i] !in lines {
        return false, list;
      }
      assert lineIds[..i + 1][..i] == lineIds[..i];
      list := list + lines[lineIds[i]];
      i := i + 1;
    }
    assert lineIds[..i] == lineIds;
    return true, list;
  }
}
