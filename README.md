# WCell spell templates, unit fields and spell collections in Dafny

This project models part of the WCell World of Warcraft server emulator:

- **Spell templates** (`Spell.cs`): the effect list and its queries, the
  trigger and proc spell lists, and `Init2`, which derives about forty fields
  of a spell once from its raw data and effects. It also models the small
  rules around a spell: mask matching, level difference, power cost,
  duration, proc checks, deprecated names, equality and hash code.
- **Unit fields** (`Unit.Fields.cs`): a unit's base stats and stat buffs,
  base resistances and resistance buffs, health and its health aura-state
  bits, power type and power, and class and race masks. All of these live in
  the update-field array the client mirrors.
- **Spell collections** (`SpellCollection.cs`): the spells a unit knows, by
  id. Teaching a spell also teaches every spell it teaches additionally, and
  casts the passive ones on the owner.
- **Warrior class** (`WarriorClass.cs`): the attack-power, rage and
  maximum-power formulas.
- **`HasAnyFlag`** (`Extensions.cs`): the item flag test.

Code that works by changing objects in place is modelled that way:

- `Unit` is a class over arrays;
- `SpellCollection` is a class with a map field;
- `Spell` is a class with an effect array, trigger arrays and a
  derived-fields record.

Where a Findings row records a likely bug, the operations follow the code
as written. The corrected rule is a separate member with its own lemmas.

Every method is proved against a function on values. The properties are
lemmas about those functions. The pure code (the Warrior formulas,
`HasAnyFlag`, the harm, slot, school, mask and proc rules) is modelled as
functions and lemmas.

Modules:

- `Common`: optional values, 32-bit integers, C# casts and truncating
  division;
- `ItemFlags`;
- `WarriorClass`;
- `UnitFields`;
- `SpellCollections`;
- `SpellTypes`: spell effects and the pure rules of `Spell.cs`;
- `Spells`: the `Spell` class and the phases of `Init2`.

## Model

| member | source | states |
|---|---|---|
| Common.AsInt32 | Services/WCell.RealmServer/Spells/Spell.cs:1646-1649 | The `(int)` cast of a `uint` is the signed 32-bit value congruent to it modulo 2^32. It is non-negative exactly when the value is below 2^31. |
| Common.LowByte | Services/WCell.RealmServer/Entities/Unit.Fields.cs:1074 | The `(byte)` cast keeps the value modulo 256 and leaves a value already in 0..255 as it is. |
| Common.TruncDiv | Services/WCell.RealmServer/Entities/Unit.Fields.cs:1360 | C# integer division truncates toward zero. The quotient's magnitude is \|a\|/\|b\|, its sign follows the operands' signs, and it agrees with Euclidean division for non-negative operands. |
| Common.Abs | Services/WCell.RealmServer/Spells/Spell.cs:1090 | `Math.Abs` is the value or its negation, and never negative. |
| ItemFlags.HasAnyFlagUnion | Core/WCell.Constants/Items/Extensions.cs:7-10 | Testing against a union of flags is testing against either part. |
| ItemFlags.HasAnyFlagSingle | Core/WCell.Constants/Items/Extensions.cs:7-10 | Testing a single flag is testing its bit. |
| ItemFlags.HasAnyFlagSymmetric | Core/WCell.Constants/Items/Extensions.cs:11-14 | The test does not depend on which mask is the receiver. |
| ItemFlags.HasAnyFlagZero | Core/WCell.Constants/Items/Extensions.cs:15-18 | No mask shares a flag with the empty mask. |
| ItemFlags.HasAnyFlagSelf | Core/WCell.Constants/Items/Extensions.cs:7-18 | A mask shares a flag with itself exactly when it is non-empty. |
| WarriorClass.WarriorIsWarriorWithRage | Services/WCell.RealmServer/RacesClasses/WarriorClass.cs:27-38 | The class is Warrior, and its power type is Rage, a valid power type. |
| WarriorClass.MeleeAPShape | Services/WCell.RealmServer/RacesClasses/WarriorClass.cs:47-50 | Melee attack power gains 3 per level and 2 per Strength point, has offset -20, and does not depend on Agility. |
| WarriorClass.RangedAPShape | Services/WCell.RealmServer/RacesClasses/WarriorClass.cs:52-55 | Ranged attack power gains 1 per level and 1 per Agility point, has offset -10, and does not depend on Strength. |
| WarriorClass.CalculatePowerRegen | Services/WCell.RealmServer/RacesClasses/WarriorClass.cs:70-78 | Rage regenerates 0 exactly in combat. Out of combat it decays by 50 (5 rage). |
| WarriorClass.PowerForLevelIsConstant | Services/WCell.RealmServer/RacesClasses/WarriorClass.cs:88-91 | The maximum power is 1000 at every level. |
| UnitFields.Max0 | Services/WCell.RealmServer/Entities/Unit.Fields.cs:845-848 | Flooring at 0 gives a non-negative value at least the input, and keeps a non-negative input. |
| UnitFields.AddStatModShiftsNetBuff | Services/WCell.RealmServer/Entities/Unit.Fields.cs:606-626 | Adding a stat buff shifts that stat's net buff (positive minus negative bucket) by exactly the delta. It never shrinks a bucket and changes no other field. |
| UnitFields.RemoveStatModUndoesAdd | Services/WCell.RealmServer/Entities/Unit.Fields.cs:606-662 | Removing a stat buff after adding the same delta restores the unit exactly. |
| UnitFields.Resistance | Services/WCell.RealmServer/Entities/Unit.Fields.cs:823-833 | The total resistance is never negative. It equals base plus positive minus negative buffs whenever that sum is positive. |
| UnitFields.SetBaseResistanceEffect | Services/WCell.RealmServer/Entities/Unit.Fields.cs:843-851 | Setting a base resistance stores max(0, value) in both the base array and the RESISTANCES field, and keeps the unit consistent. Every other school's base and total are unchanged. |
| UnitFields.ModBaseResistancesSpec | Services/WCell.RealmServer/Entities/Unit.Fields.cs:871-877 | The multi-school overload succeeds exactly when every listed value is a school. |
| UnitFields.AddResistanceBuffEffect | Services/WCell.RealmServer/Entities/Unit.Fields.cs:879-898 | A resistance buff grows the bucket its sign selects by \|delta\| and leaves the other bucket alone. It also moves the base to max(0, base + delta), keeps the unit consistent, and changes no other school, stat, byte or aura state. |
| UnitFields.RemoveResistanceBuffUndoesAdd | Services/WCell.RealmServer/Entities/Unit.Fields.cs:879-922 | Removing a buff after adding it restores both buckets. The whole unit is restored if and only if adding did not clamp the base at 0. |
| UnitFields.ResistanceBuffCountedTwice | Services/WCell.RealmServer/Entities/Unit.Fields.cs:886-897 | Because the buff also goes into the base, an unclamped buff of delta moves the total resistance by 2·delta. |
| UnitFields.ClampHealth | Services/WCell.RealmServer/Entities/Unit.Fields.cs:1278-1285 | The health setter's value lies in [0, MaxHealth]. A value in range is kept, and anything at or above the maximum becomes the maximum. |
| UnitFields.HealthChangeFor | Services/WCell.RealmServer/Entities/Unit.Fields.cs:1287-1296 | Nothing happens exactly when the clamped value equals the old health. Death happens exactly when it differs and is below 1. Otherwise HEALTH is written with the clamped value. |
| UnitFields.HealthPctOf | Services/WCell.RealmServer/Entities/Unit.Fields.cs:1358-1360 | The percentage is undefined exactly when MaxHealth is 0. For health within [0, MaxHealth] it lies in 0..100. |
| UnitFields.HealthAuraStateAsWrittenBands | Services/WCell.RealmServer/Entities/Unit.Fields.cs:1366-1389 | As written: below 20%, 20-34% and from 75%, the band's health bit is the only health bit and the other bits are kept. From 35% to 74% the state is left as it was. |
| UnitFields.HealthAuraStateAsWrittenCases | Services/WCell.RealmServer/Entities/Unit.Fields.cs:1371-1388 | Each branch of the update, as a bit equation. |
| UnitFields.HealthAuraStateAsWrittenKeepsAtMostOne | Services/WCell.RealmServer/Entities/Unit.Fields.cs:1366-1389 | The update never leaves two health bits set. |
| UnitFields.HealthAuraStateAsWrittenKeepsStaleBit | Services/WCell.RealmServer/Entities/Unit.Fields.cs:1366-1389 | A unit healed from 10% to 50% still has Health20Percent set. |
| UnitFields.HealthAuraStateBands | Services/WCell.RealmServer/Entities/Unit.Fields.cs:1366-1389 | With the middle band clearing the health bits, each health bit is set if and only if the percentage is in its band, whatever the previous state. Other bits are kept. |
| UnitFields.PowerTypeByteOf | Services/WCell.RealmServer/Entities/Unit.Fields.cs:1072-1075 | The stored power type is always below PowerType.Count, and a valid power type is stored as it is. |
| UnitFields.ClampMinMax | Services/WCell.RealmServer/Entities/Unit.Fields.cs:1454 | The clamped value lies in [min, max], and a value in range is kept. |
| UnitFields.MaskOfIsSingleBit | Services/WCell.RealmServer/Entities/Unit.Fields.cs:1031-1050 | For race and class ids 1 to 32 the mask is the single bit id-1. Id 0 wraps around to the top bit. |
| UnitFields.MaskOfInjective | Services/WCell.RealmServer/Entities/Unit.Fields.cs:1047-1050 | Distinct ids from 1 to 32 give distinct masks. |
| UnitFields.Mask2OfIsSingleBit | Services/WCell.RealmServer/Entities/Unit.Fields.cs:1039-1042 | For ids 0 to 31 the second mask is the single bit id. |
| UnitFields.Mask2OfIsNextMaskOf | Services/WCell.RealmServer/Entities/Unit.Fields.cs:1031-1058 | The second mask of an id is the first mask of the next id, one bit further up. |
| UnitFields.Unit.constructor | Services/WCell.RealmServer/Entities/Unit.Fields.cs:40-45 | A new unit has zeroed fields, stats and resistances and is consistent. |
| UnitFields.Unit.PowerType | Services/WCell.RealmServer/Entities/Unit.Fields.cs:1071 | The stored power type is a valid one. |
| UnitFields.Unit.Power | Services/WCell.RealmServer/Entities/Unit.Fields.cs:1447-1451 | The power getter never answers a negative value. |
| UnitFields.Unit.GetBaseResistance | Services/WCell.RealmServer/Entities/Unit.Fields.cs:838-841 | Answers the stored base resistance of the school. In the states this model's operations reach, it is non-negative and equals the client's RESISTANCES field. |
| UnitFields.Unit.RaceMask | Services/WCell.RealmServer/Entities/Unit.Fields.cs:1031-1034 | For races 1 to 32 the mask is the single bit race-1. Race 0 gives the top bit. |
| UnitFields.Unit.RaceMask2 | Services/WCell.RealmServer/Entities/Unit.Fields.cs:1039-1042 | For races 0 to 31 the mask is the single bit race. It is always the first mask of the next race id. |
| UnitFields.Unit.ClassMask | Services/WCell.RealmServer/Entities/Unit.Fields.cs:1047-1050 | For classes 1 to 32 the mask is the single bit class-1. Class 0 gives the top bit. |
| UnitFields.Unit.ClassMask2 | Services/WCell.RealmServer/Entities/Unit.Fields.cs:1055-1058 | For classes 0 to 31 the mask is the single bit class. It is always the first mask of the next class id. |
| UnitFields.Unit.GetResistance | Services/WCell.RealmServer/Entities/Unit.Fields.cs:823-833 | The total resistance is `Resistance` of the unit's state. |
| UnitFields.Unit.HealthPct | Services/WCell.RealmServer/Entities/Unit.Fields.cs:1358-1360 | The getter is `HealthPctOf` of health and maximum. |
| UnitFields.Unit.SetBaseStat | Services/WCell.RealmServer/Entities/Unit.Fields.cs:575-587 | Only that base stat changes, to the value. |
| UnitFields.Unit.ModBaseStat | Services/WCell.RealmServer/Entities/Unit.Fields.cs:589-592 | Only that base stat changes, by the delta. |
| UnitFields.Unit.AddStatMod | Services/WCell.RealmServer/Entities/Unit.Fields.cs:606-626 | The new state is the buff added to the bucket its sign selects. The unit stays consistent. |
| UnitFields.Unit.RemoveStatMod | Services/WCell.RealmServer/Entities/Unit.Fields.cs:643-662 | The new state is the buff taken out of the bucket its sign selects. |
| UnitFields.Unit.AddStatModOrBase | Services/WCell.RealmServer/Entities/Unit.Fields.cs:594-604 | A passive modifier changes the base stat. Otherwise it is a buff. |
| UnitFields.Unit.RemoveStatModOrBase | Services/WCell.RealmServer/Entities/Unit.Fields.cs:628-638 | A passive modifier takes the delta off the base stat. Otherwise the buff is removed. |
| UnitFields.Unit.SetBaseResistance | Services/WCell.RealmServer/Entities/Unit.Fields.cs:843-851 | The new state is `SetBaseResistanceSpec` of the old one. The unit stays consistent. |
| UnitFields.Unit.ModBaseResistance | Services/WCell.RealmServer/Entities/Unit.Fields.cs:856-866 | The base moves by the delta, floored at 0, in both places. |
| UnitFields.Unit.ModBaseResistances | Services/WCell.RealmServer/Entities/Unit.Fields.cs:871-877 | The schools are applied in order. Failure comes at the first non-school, after the earlier schools have changed. |
| UnitFields.Unit.AddResistanceBuff | Services/WCell.RealmServer/Entities/Unit.Fields.cs:879-898 | The new state is `AddResistanceBuffSpec` of the old one. The unit stays consistent. |
| UnitFields.Unit.RemoveResistanceBuff | Services/WCell.RealmServer/Entities/Unit.Fields.cs:903-922 | The new state is `RemoveResistanceBuffSpec` of the old one. The unit stays consistent. |
| UnitFields.Unit.UpdateHealthAuraStateAsWritten | Services/WCell.RealmServer/Entities/Unit.Fields.cs:1366-1389 | Only the aura state changes, to the as-written rule applied to the current percentage. |
| UnitFields.Unit.UpdateHealthAuraState | Services/WCell.RealmServer/Entities/Unit.Fields.cs:1366-1389 | Only the aura state changes, to the corrected rule. It is the intended half of the first Findings row; the setters use the as-written update. |
| UnitFields.Unit.SetHealth | Services/WCell.RealmServer/Entities/Unit.Fields.cs:1271-1319 | Reports `HealthChangeFor`. A written health changes only HEALTH and the health aura state, which follows the as-written rule of 1366-1389 (a middle-band health keeps the old health bits). Otherwise nothing changes. |
| UnitFields.Unit.SetHealthPct | Services/WCell.RealmServer/Entities/Unit.Fields.cs:1361 | Sets the health to value·MaxHealth/100, truncated: the same outcome and the same new state as `SetHealth` of that value. |
| UnitFields.Unit.SetPowerType | Services/WCell.RealmServer/Entities/Unit.Fields.cs:1072-1075 | Only the power-type byte changes. It becomes a valid power type, and a valid value is stored as given. |
| UnitFields.Unit.SetPower | Services/WCell.RealmServer/Entities/Unit.Fields.cs:1452-1466 | The clamped value is written to the current power type's field only when it differs from the current power. Power ends within [0, MaxPower]. |
| SpellCollections.Find | Services/WCell.RealmServer/Spells/SpellCollection.cs:91-95 | The registry yields a spell exactly for a registered id, and that id's spell. |
| SpellCollections.AddAllIsOverride | Services/WCell.RealmServer/Spells/SpellCollection.cs:100-120 | The recursive teaching cascade equals overriding the map with every (id, spell) it writes, later writes winning. |
| SpellCollections.TaughtShape | Services/WCell.RealmServer/Spells/SpellCollection.cs:100-120 | The cascade writes exactly the ids the spell teaches, itself included, each to a spell with that id. |
| SpellCollections.AddAllEffect | Services/WCell.RealmServer/Spells/SpellCollection.cs:100-120 | The known ids become the old ones plus the taught ones. Untaught ids keep their entry, and every entry keeps matching its id. The spell is stored under its own id unless something it teaches reuses that id. |
| SpellCollections.AddAllIdempotent | Services/WCell.RealmServer/Spells/SpellCollection.cs:100-120 | Teaching a spell twice is teaching it once. |
| SpellCollections.PassiveTraceTaught | Services/WCell.RealmServer/Spells/SpellCollection.cs:107-120 | Every spell cast on the owner is one the cascade teaches. A passive spell is cast before anything it teaches. |
| SpellCollections.ReplaceEffect | Services/WCell.RealmServer/Spells/SpellCollection.cs:234-246 | After a replacement, the old id is known exactly when the new spell teaches it again. Ids neither spell concerns keep their entry. |
| SpellCollections.RemoveUndoesAdd | Services/WCell.RealmServer/Spells/SpellCollection.cs:209-212 | Removing a spell that teaches nothing else undoes teaching it to a collection that did not know it. |
| SpellCollections.RegisteredPrefix | Services/WCell.RealmServer/Spells/SpellCollection.cs:125-142 | Lists the registered spells of the ids before the first unknown one. It covers all ids exactly when all are registered. |
| SpellCollections.SpellCollection.constructor | Services/WCell.RealmServer/Spells/SpellCollection.cs:43-49 | A new collection is empty. |
| SpellCollections.SpellCollection.Count | Services/WCell.RealmServer/Spells/SpellCollection.cs:63-66 | The count is the number of known ids. It is 0 exactly when the collection is empty. |
| SpellCollections.SpellCollection.HasSpells | Services/WCell.RealmServer/Spells/SpellCollection.cs:68-71 | True exactly when some id is known. |
| SpellCollections.SpellCollection.Contains | Services/WCell.RealmServer/Spells/SpellCollection.cs:168-176 | True exactly for a known id. |
| SpellCollections.SpellCollection.Get | Services/WCell.RealmServer/Spells/SpellCollection.cs:178-196 | The indexer answers the stored spell, or null for an unknown id. |
| SpellCollections.SpellCollection.AddSpell | Services/WCell.RealmServer/Spells/SpellCollection.cs:100-105 | The map becomes the cascade applied to it. The passive spells are cast in cascade order. |
| SpellCollections.SpellCollection.OnAdd | Services/WCell.RealmServer/Spells/SpellCollection.cs:107-120 | Casts the spell if it is passive, then teaches each additionally taught spell in order. |
| SpellCollections.SpellCollection.AddSpellById | Services/WCell.RealmServer/Spells/SpellCollection.cs:82-95 | Teaches the registered spell. Fails, changing nothing, on an unknown id. |
| SpellCollections.SpellCollection.AddSpells | Services/WCell.RealmServer/Spells/SpellCollection.cs:147-153 | Teaches the spells in order. |
| SpellCollections.SpellCollection.AddSpellsById | Services/WCell.RealmServer/Spells/SpellCollection.cs:125-142 | Teaches the registered spells in order. Stops at the first unknown id, keeping what was taught before it. |
| SpellCollections.SpellCollection.OnlyAdd | Services/WCell.RealmServer/Spells/SpellCollection.cs:163-166 | Stores the spell without the cascade. Fails, changing nothing, when its id is already known. |
| SpellCollections.SpellCollection.OnlyAddById | Services/WCell.RealmServer/Spells/SpellCollection.cs:158-161 | Stores the registry's spell, or null for an unregistered id. Fails when the id is already known. |
| SpellCollections.SpellCollection.Replace | Services/WCell.RealmServer/Spells/SpellCollection.cs:234-246 | Forgets the old id, cancels the old aura exactly for a passive spell, then teaches the new spell if there is one. |
| SpellCollections.SpellCollection.ReplaceById | Services/WCell.RealmServer/Spells/SpellCollection.cs:222-229 | Acts only when the old id is known. A stored null fails and changes nothing. Otherwise it acts as `Replace` with the registered new spell, or with null: the same map, cancel flag and passive self-casts. |
| SpellCollections.SpellCollection.Remove | Services/WCell.RealmServer/Spells/SpellCollection.cs:209-212 | Forgets the spell's id and cancels its aura exactly when it is passive. |
| SpellCollections.SpellCollection.RemoveById | Services/WCell.RealmServer/Spells/SpellCollection.cs:198-207 | Removes the registered spell. Fails, changing nothing, on an unregistered id. |
| SpellCollections.SpellCollection.Clear | Services/WCell.RealmServer/Spells/SpellCollection.cs:214-217 | The collection becomes empty. |
| SpellTypes.NewEffect | Services/WCell.RealmServer/Spells/Spell.cs:984 | A new effect has the given index and type, no target, no trigger spell, no aura, no handler and an empty affect mask. |
| SpellTypes.FirstIndexWith | Services/WCell.RealmServer/Spells/Spell.cs:947-954 | The index of the first matching effect: it matches and nothing before it does. It is the length exactly when nothing matches. |
| SpellTypes.FirstEffectWith | Services/WCell.RealmServer/Spells/Spell.cs:910-920 | Null exactly when no effect matches. Otherwise it is a matching effect with no matching effect before it. |
| SpellTypes.EffectsWith | Services/WCell.RealmServer/Spells/Spell.cs:922-937 | Null exactly when no effect matches. Otherwise it is a non-empty list holding exactly the matching effects, as many as match. |
| SpellTypes.Filter | Services/WCell.RealmServer/Spells/Spell.cs:926-933 | Holds exactly the matching effects, one entry per matching position (its length is the count of matches). |
| SpellTypes.FilterAppend | Services/WCell.RealmServer/Spells/Spell.cs:926-933 | Filtering a concatenation is the concatenation of the filtered parts, so matches keep their original order. |
| SpellTypes.LastPicked | Services/WCell.RealmServer/Spells/Spell.cs:746-753 | The result is the initial value or a value some effect stores. It is the initial value when no effect stores one, and the final effect's value when it stores one. |
| SpellTypes.LastPickedIsLastStored | Services/WCell.RealmServer/Spells/Spell.cs:746-753 | The value left is the one stored by the last effect that stores a value. |
| SpellTypes.CountEffects | Services/WCell.RealmServer/Spells/Spell.cs:861-867 | The count is at most the number of effects, and 0 exactly when none matches. |
| SpellTypes.CountEffectsIsCardinality | Services/WCell.RealmServer/Spells/Spell.cs:861-867 | The count is the number of indices whose effect matches. |
| SpellTypes.HarmRuleCases | Services/WCell.RealmServer/Spells/Spell.cs:763-781 | A prevention debuff or negative mechanic is Harmful. Otherwise the spell is Harmful if and only if it has harmful and neither beneficial nor neutral effects, Beneficial in the mirror case, and Neutral in every other case. |
| SpellTypes.AllHarmfulEffectsMakeHarmfulSpell | Services/WCell.RealmServer/Spells/Spell.cs:771-776 | A spell whose effects are all harmful, and that has at least one, is Harmful. |
| SpellTypes.IsBeneficialFor | Services/WCell.RealmServer/Spells/Spell.cs:1626-1629 | Beneficial exactly when not harmful (see `BeneficialXorHarmful`). Without a caster, every spell that is not Harmful is beneficial. |
| SpellTypes.IsHarmfulFor | Services/WCell.RealmServer/Spells/Spell.cs:1631-1639 | A Harmful spell always is, a Beneficial one never is, and a Neutral one only when a caster exists and may attack the target. The overload taking a caster object is the case with a caster. |
| SpellTypes.BeneficialXorHarmful | Services/WCell.RealmServer/Spells/Spell.cs:1626-1634 | For a given caster and target, a spell is exactly one of beneficial and harmful. |
| SpellTypes.EquipmentSlotCases | Services/WCell.RealmServer/Spells/Spell.cs:710-720 | A shield requirement selects the off hand. Ranged abilities and wands select the extra weapon slot. The main hand is selected only when no earlier requirement holds, and no requirement gives no slot. |
| SpellTypes.SchoolsRuleSpec | Services/WCell.RealmServer/Spells/Spell.cs:812-816 | The schools are never empty and are ascending. For a non-zero mask they are exactly its set bits. An empty mask gives Physical alone. |
| SpellTypes.OrMaskAtUnion | Services/WCell.RealmServer/Spells/Spell.cs:833-839 | The OR-ed affecting mask shares a flag with m exactly when the initial mask or some effect's mask does. |
| SpellTypes.GetMaxLevelDiff | Services/WCell.RealmServer/Spells/Spell.cs:1084-1091 | The difference is never negative. It is the spell's level range when the caster is above a valid maximum, otherwise the distance to the base level. With a valid range it never exceeds that distance. |
| SpellTypes.MatchesMaskRuleSpec | Services/WCell.RealmServer/Spells/Spell.cs:1072-1082 | Answers true exactly when an index both sequences have shares a bit. Fails exactly when the given masks are shorter and share no bit. |
| SpellTypes.IsDeprecatedSpellName | Services/WCell.RealmServer/Spells/Spell.cs:1266-1271 | A deprecated name has at least four characters (the shortest marker); `DeprecatedNameExtends` and the three example lemmas give its content. |
| SpellTypes.DeprecatedNameExtends | Services/WCell.RealmServer/Spells/Spell.cs:1266-1271 | A deprecated name stays deprecated whatever is appended. |
| SpellTypes.DeprecatedTestName | Services/WCell.RealmServer/Spells/Spell.cs:1268 | "Test Spell" is deprecated: it contains "test" ignoring case. |
| SpellTypes.DeprecatedOldName | Services/WCell.RealmServer/Spells/Spell.cs:1269 | "zzOLD Fireball" is deprecated: it starts with "zzold" ignoring case. |
| SpellTypes.LiveSpellName | Services/WCell.RealmServer/Spells/Spell.cs:1266-1271 | "Heroic Strike" is not deprecated. |
| SpellTypes.HashCode | Services/WCell.RealmServer/Spells/Spell.cs:1646-1649 | The hash code is a 32-bit signed int congruent to the id modulo 2^32, and equal to the id below 2^31 (the `(int)` cast). |
| Spells.Spell.HashCodeOf | Services/WCell.RealmServer/Spells/Spell.cs:1646-1649 | The spell's hash code is a 32-bit signed int congruent to its id modulo 2^32. |
| SpellTypes.HashCodeMatchesEquals | Services/WCell.RealmServer/Spells/Spell.cs:1641-1649 | Two spells are equal (same id) if and only if their hash codes are equal. |
| SpellTypes.CanProcRule | Services/WCell.RealmServer/Spells/Spell.cs:1162-1196 | With the relevant proc spell set, the answer is exactly whether the action's spell is in it. Without it, an item-class requirement admits only attacks with an item weapon of that class, and no requirement admits every action. |
| Spells.Spell.CanProcBeTriggeredBy | Services/WCell.RealmServer/Spells/Spell.cs:1162-1196 | The same three facts over the spell's own caster and target proc sets and required item class. |
| SpellTypes.ProcSpellSetDecides | Services/WCell.RealmServer/Spells/Spell.cs:1162-1174 | When the relevant proc spell set exists, exactly the actions of a spell in it can trigger the proc. |
| SpellTypes.ProcItemRequirement | Services/WCell.RealmServer/Spells/Spell.cs:1176-1195 | Without a set, an item-class requirement admits only attacks with an item weapon of that class. With an empty sub-class mask it admits every such attack. |
| SpellTypes.HasTargetsAsWrittenInverted | Services/WCell.RealmServer/Spells/Spell.cs:787-789 | As written, `HasTargets` is the negation of "some effect has targets", so `CasterIsTarget` never holds when self-aimed effects have targets. |
| SpellTypes.CasterIsTargetWhenSelfAimed | Services/WCell.RealmServer/Spells/Spell.cs:787-789 | With `HasTargets` as documented, the caster is a target exactly when some effect is aimed at the caster. |
| SpellTypes.PowerCostBeforeModifiers | Services/WCell.RealmServer/Spells/Spell.cs:1093-1100 | Without a percentage, the cost is the flat cost plus the per-level cost times the level difference. A percentage of a non-negative pool never lowers it. |
| SpellTypes.PowerCostPercentageTerm | Services/WCell.RealmServer/Spells/Spell.cs:1096-1099 | With a percentage, the cost adds the percentage of the pool divided by 100 and truncated toward zero: 100 times the extra is within 100 of percentage·pool, on the side of zero. |
| SpellTypes.PowerCostMonotoneInPool | Services/WCell.RealmServer/Spells/Spell.cs:1093-1100 | A larger pool never gives a lower cost. |
| SpellTypes.BaseDuration | Services/WCell.RealmServer/Spells/Spell.cs:1125-1141 | With 0 to 5 combo points, a finishing move's duration stays within [min, max]. Otherwise the duration is the minimum. |
| SpellTypes.BaseDurationPerComboPoint | Services/WCell.RealmServer/Spells/Spell.cs:1136-1140 | For a finishing move with a positive range, each combo point adds the same step, a fifth of the range rounded down. No points give the minimum. |
| Spells.Appended | Services/WCell.RealmServer/Spells/Spell.cs:400-412 | A null list becomes the given array. Otherwise the result is a new array of the old spells followed by the new ones. |
| Spells.ResolveSpells | Services/WCell.RealmServer/Spells/Spell.cs:383-393 | Succeeds exactly when every id is registered, giving the registered spells in order. |
| Spells.CollectLines | Services/WCell.RealmServer/Spells/Spell.cs:476-481 | Succeeds exactly when every line is known, giving the lines' spells concatenated in order. |
| Spells.ChannelRuleFacts | Services/WCell.RealmServer/Spells/Spell.cs:651-690 | A channeled spell ends up with a non-zero duration and is passive only if it tracks. A non-channeled spell keeps its durations and amplitude. The heal and dual-wield flags are never cleared, and the heal flag is set exactly by a heal effect. |
| Spells.WeaponRuleFacts | Services/WCell.RealmServer/Spells/Spell.cs:692-723 | Strike, on-next-strike and ranged spells are weapon abilities. A triggered spell is never ranged. The totem effect is null exactly when there is no totem effect, and otherwise is one of the spell's totem effects. |
| Spells.TargetRuleFacts | Services/WCell.RealmServer/Spells/Spell.cs:763-802 | As written, `HasTargets` holds exactly when no effect has targets. The caster is a target only when `HasTargets` holds. A damage spell is harmful, not beneficial and has a damage effect. A prevention debuff is Harmful. The spell costs mana exactly when it has a flat or percentage cost. |
| Spells.CombatRuleFacts | Services/WCell.RealmServer/Spells/Spell.cs:812-867 | Requiring the caster out of combat implies no harmful effect, a cast time and the damage interrupt. Otherwise the interrupt flags are unchanged. The range is never 0, the tool list never null, and the handler count grows by at most one per effect. |
| Spells.DerivedRuleWithoutEffects | Services/WCell.RealmServer/Spells/Spell.cs:643-869 | A spell without effects derives nothing from effects. As written it has `HasTargets` set, but the caster is not a target. Its harm type is Neutral unless it is a prevention debuff or has a negative mechanic. |
| Spells.WithTakeDamageInterrupt | Services/WCell.RealmServer/Spells/Spell.cs:823-827 | Out of combat, the interrupt flags gain OnTakeDamage. Otherwise they are unchanged. |
| Spells.ContainsNonZero | Services/WCell.RealmServer/Spells/Spell.cs:741 | True exactly when some mask is non-zero. |
| Spells.AnyEffectIn | Services/WCell.RealmServer/Spells/Spell.cs:882-893 | The loop answers whether some effect matches. |
| Spells.FirstEffectIn | Services/WCell.RealmServer/Spells/Spell.cs:910-920 | The loop answers the first matching effect, or null. |
| Spells.LastPickedIn | Services/WCell.RealmServer/Spells/Spell.cs:873-880 | A `ForeachEffect` whose callback stores values leaves the last stored value. |
| Spells.CountEffectsIn | Services/WCell.RealmServer/Spells/Spell.cs:861-867 | A `ForeachEffect` whose callback counts the matching effects counts them. |
| Spells.ComputeDerived | Services/WCell.RealmServer/Spells/Spell.cs:651-867 | Runs the phases in order, giving `DerivedRule`. |
| Spells.ComputeChannelInfo | Services/WCell.RealmServer/Spells/Spell.cs:651-690 | The channeling phase, with its heal and dual-wield loop, gives `ChannelRule`. |
| Spells.ComputeWeaponInfo | Services/WCell.RealmServer/Spells/Spell.cs:692-723 | The weapon phase gives `WeaponRule`. |
| Spells.ComputeSkillInfo | Services/WCell.RealmServer/Spells/Spell.cs:733-757 | The skill phase gives `SkillRule`. |
| Spells.ComputeHarmInfo | Services/WCell.RealmServer/Spells/Spell.cs:763-781 | The harm classification gives `HarmRule`. |
| Spells.ComputeTargetInfo | Services/WCell.RealmServer/Spells/Spell.cs:763-810 | The target phase gives `TargetRule`, with `HasTargets` negated as at line 787. |
| Spells.ComputeCombatInfo | Services/WCell.RealmServer/Spells/Spell.cs:812-867 | The combat phase gives `CombatRule`. |
| Spells.Spell.AddTargetTriggerSpells | Services/WCell.RealmServer/Spells/Spell.cs:400-412 | The target trigger list becomes the given spells, or the old list with them appended. |
| Spells.Spell.AddTargetTriggerSpellsById | Services/WCell.RealmServer/Spells/Spell.cs:381-395 | An unknown id fails and changes nothing. Otherwise the resolved spells are appended. |
| Spells.Spell.AddCasterTriggerSpells | Services/WCell.RealmServer/Spells/Spell.cs:436-448 | The caster trigger list becomes the given spells, or the old list with them appended. |
| Spells.Spell.AddCasterTriggerSpellsById | Services/WCell.RealmServer/Spells/Spell.cs:417-431 | An unknown id fails and changes nothing. Otherwise the resolved spells are appended. |
| Spells.Spell.AddCasterProcSpells | Services/WCell.RealmServer/Spells/Spell.cs:488-496 | The caster proc set (created if null) gains the spells' ids, and spell casts become a proc trigger. |
| Spells.Spell.AddCasterProcSpellsById | Services/WCell.RealmServer/Spells/Spell.cs:455-469 | Fails on an unknown id. Otherwise it adds the resolved spells. |
| Spells.Spell.AddCasterProcSpellsByLine | Services/WCell.RealmServer/Spells/Spell.cs:474-483 | Fails on an unknown line. Otherwise it adds every spell of the lines. |
| Spells.Spell.AddTargetProcSpells | Services/WCell.RealmServer/Spells/Spell.cs:535-543 | The target proc set (created if null) gains the spells' ids, and spell casts become a proc trigger. |
| Spells.Spell.AddTargetProcSpellsById | Services/WCell.RealmServer/Spells/Spell.cs:502-516 | Fails on an unknown id. Otherwise it adds the resolved spells. |
| Spells.Spell.AddTargetProcSpellsByLine | Services/WCell.RealmServer/Spells/Spell.cs:521-530 | Fails on an unknown line. Otherwise it adds every spell of the lines. |
| Spells.Spell.HasEffectWith | Services/WCell.RealmServer/Spells/Spell.cs:882-893 | Answers whether some effect matches. |
| Spells.Spell.GetEffect | Services/WCell.RealmServer/Spells/Spell.cs:898-908 | Answers the first effect of the type, or null. |
| Spells.Spell.GetFirstEffectWith | Services/WCell.RealmServer/Spells/Spell.cs:910-920 | Answers the first matching effect, or null. |
| Spells.Spell.GetEffectsWith | Services/WCell.RealmServer/Spells/Spell.cs:922-937 | Answers the matching effects in order, or null when none matches. |
| Spells.Spell.LastPickedBy | Services/WCell.RealmServer/Spells/Spell.cs:873-880 | `ForeachEffect` with a storing callback leaves the last stored value. |
| Spells.Spell.CountEffectsWith | Services/WCell.RealmServer/Spells/Spell.cs:873-880 | `ForeachEffect` with a counting callback counts the matching effects. |
| Spells.Spell.AddEffect | Services/WCell.RealmServer/Spells/Spell.cs:962-992 | The effect array becomes a new array of the old effects plus one new effect. The new effect has the last effect's index (0 for the first), the type and the target. |
| Spells.Spell.ReplaceEffect | Services/WCell.RealmServer/Spells/Spell.cs:945-956 | The first effect of the type is overwritten in place with a blank effect. If there is none, a blank effect is appended, with the index of the last effect (0 for the first). |
| Spells.Spell.AddTriggerSpellEffect | Services/WCell.RealmServer/Spells/Spell.cs:997-1011 | Appends exactly a fresh TriggerSpell effect (index of the last effect, or 0) with the spell id and target set, and keeps the earlier effects. |
| Spells.Spell.AddAuraEffect | Services/WCell.RealmServer/Spells/Spell.cs:1016-1030 | Appends exactly a fresh ApplyAura effect (index of the last effect, or 0) with the aura type and target set, and keeps the earlier effects. |
| Spells.Spell.AddAuraHandlerEffect | Services/WCell.RealmServer/Spells/Spell.cs:1035-1050 | Appends exactly a fresh ApplyAura effect (index of the last effect, or 0) with a Dummy aura, an aura handler creator and the target set, and keeps the earlier effects. |
| Spells.Spell.ClearEffects | Services/WCell.RealmServer/Spells/Spell.cs:1052-1055 | The effect array becomes a new empty array. |
| Spells.Spell.FigureSpellFieldsByNamesOrIds | Services/WCell.RealmServer/Spells/Spell.cs:1062-1069 | The flag is set for a non-teaching spell named Rejuvenation or Regrowth and otherwise kept. |
| Spells.Spell.MatchesMask | Services/WCell.RealmServer/Spells/Spell.cs:1072-1082 | The loop gives `MatchesMaskRule` of the spell's class mask. |
| Spells.Spell.GetMaxLevelDiffFor | Services/WCell.RealmServer/Spells/Spell.cs:1084-1091 | The spell's level difference for a caster level, never negative. |
| Spells.Spell.Init2 | Services/WCell.RealmServer/Spells/Spell.cs:643-869 | Runs once. A second call changes nothing. The first call sets every derived field to `DerivedRule` of the raw data, the effects and the values before, with `HasTargets` as written. It ORs every effect's affect masks into the three affecting masks, keeps the spell consistent and changes no other field. |
| Spells.Spell.OrAffectingMasks | Services/WCell.RealmServer/Spells/Spell.cs:833-839 | Each affecting mask becomes the OR of its old value with that index of every effect's mask. |
| Spells.Spell.OrEffectMask | Services/WCell.RealmServer/Spells/Spell.cs:835-838 | ORs one effect's three masks into the three affecting masks. |

## Left out

- `SpellEffect.Init2`, `InitAura`, and the effects' own classifications are out of scope. `SpellEffect.cs` is not part of this model, so each effect carries its heal, strike, periodic, area, target and harm classification as given data.
- The `ToString()` call for spell 18425 in `Init2` has no effect on state and is left out. `ToString`, `Dump`, `ShouldShowToClient` and the enumerators are display code and are left out too.
- `Spells.ComputeCombatInfo`: a non-null tool list is kept as it is. The registration in `SpellHandler.SpellsRequiringTools` and the pruning of zero tool ids and totem categories (`ArrayUtil.PruneVals`) are not part of this model.
- `Initialize` (Spell.cs:583) and the custom proc handlers (`AddCasterProcHandler`, `AddTargetProcHandler`) are left out. They register handler objects that this model does not describe.
- `SpellTypes.PowerCostBeforeModifiers`: the caster's own `GetPowerCost` modifiers are calls into code that is not part of this model.
- `SpellTypes.BaseDuration`: the target's mechanic duration modifier (a floating-point multiplier) and the character's spell modifiers are left out.
- `WarriorClass.CalculateMagicCritChance` returns the floating-point 0 and is left out.
- The `SpellHandler` registry and `SpellLines` are passed to the operations as maps. An id or line the source would fail on is an error result in the model.
- `UnitFields.Unit.SetHealth`: the death (`Die`), resurrection, rooting and network updates are reported as the `Died`/`Written` outcome and not modelled further. The timestamp of the last health update is a clock and is left out.
- `UnitFields.Unit`: `Valid()` assumes that only the operations modelled here write the unit. The public `AuraState` setter (Unit.Fields.cs:995-1005) can set any mask, including two health bits. The `UnitBytes0` setter (1010-1014) can store a power type of 7 or more. The `Armor` to `ArcaneResist` setters (773-813) write RESISTANCES without the base, and the exposed `BaseResistances` array (815-818) changes the base without the field. The model does not describe these writers, so states they produce (two health bits, an invalid power type, a base that differs from RESISTANCES) are outside it, and no contract here speaks about them.
- `UnitFields.Unit.Power`: the getter's time-based regeneration term uses a clock and floating point and is left out.
- `UnitFields.Unit.AddStatMod`, `UnitFields.Unit.RemoveStatMod` and `UnitFields.Unit.SetBaseStat`: the recomputation of the derived stat (`UpdateStat`) is not part of this model.
- Integers are unbounded: 32-bit overflow of health, power, resistances and stat buckets is not modelled. The shift counts of the class and race masks are masked to 5 bits explicitly.
- The case-insensitive comparison of `IsDeprecatedSpellName` folds ASCII letters only.
- The enumeration values the source takes from other files (attribute bits, aura-state bits, update-field indices, `PowerType.Count` = 7) are chosen by the model. Each attribute is a distinct single bit, and the proofs depend only on that.
- The fields `Init2` derives are grouped into one `derived` record, one part per phase. `Init2` ORs the affecting masks before computing the phases rather than between them. No phase reads the masks, so the result is the same.
- `SpellCollections.SpellCollection.AddSpellById`: `SpellHandler.ById[id]` for an unknown id yields null and the source then fails. The model reports failure and changes nothing.
- `SpellCollections.SpellRef`: a spell's additionally taught spells are values nested inside it, so every teaching cascade is finite and acyclic. The source's `OnAdd` (SpellCollection.cs:107-120) follows `AdditionallyTaughtSpells` without a bound and would not terminate on a cycle. That case is not modelled.
- `SpellTypes.SpellEffect`: effects are values, not shared objects. `Spell.GetEffect`, `GetFirstEffectWith`, `AddEffect`, `ReplaceEffect`, `AddTriggerSpellEffect`, `AddAuraEffect` and `AddAuraHandlerEffect` return a copy of the stored effect. In the source the caller gets a reference and later edits to it change the spell; in the model such an edit must be written back into the effects array. Aliasing between an effect and the spell is not modelled.
- `SpellCollections.SpellCollection.Replace`: the old spell's aura cancellation and the new spells' self-casts are reported as values (`cancelled`, `triggered`). The owner's aura and cast state is not modelled.

## Findings

| source | as written | input that shows it | evidently intended | confidence | as-written member | corrected member |
|---|---|---|---|---|---|---|
| Services/WCell.RealmServer/Entities/Unit.Fields.cs:1366-1389 | Between 35% and 74% health the aura state is left as it was, so a health bit set in a lower or higher band survives | a unit at 10% health (Health20Percent set) healed to 50% still has Health20Percent | each health bit set exactly while the percentage is in its band; the middle band clears all three | medium, not executed | UnitFields.HealthAuraStateAsWrittenKeepsStaleBit | UnitFields.HealthAuraStateBands |
| Services/WCell.RealmServer/Spells/Spell.cs:787 | `HasTargets = !HasEffectWith(effect => effect.HasTargets)`, true when no effect has targets | a spell with one self-aimed effect that has targets: HasTargets is false, so `CasterIsTarget` is false | `HasTargets` true when some effect has targets, so that `CasterIsTarget` holds for self-aimed spells | high, not executed | SpellTypes.HasTargetsAsWrittenInverted | SpellTypes.CasterIsTargetWhenSelfAimed |
