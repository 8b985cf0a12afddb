/** A unit's stat, resistance, health and power bookkeeping: the update-field
    array the client mirrors, plus the unit's own base-stat and
    base-resistance arrays.

    Every state change is stated twice: as a function on `UnitView` (a value
    snapshot of the unit) and as a method on `Unit` whose postcondition says
    that the new snapshot is that function of the old one. The lemmas about
    the functions are the properties; the methods are the in-place updates. */
module UnitFields {
  import opened Common

  const StatCount := 5
  /** `DamageSchoolCount`: physical plus the six magic schools. */
  const SchoolCount := 7

  /** `StatType`: Strength, Agility, Stamina, Intellect, Spirit. */
  type StatType = s: nat | s < 5
  /** `DamageSchool`: Physical, Holy, Fire, Nature, Frost, Shadow, Arcane. */
  type DamageSchool = s: nat | s < 7

  // Indices into the update-field array (the model's own layout: each
  // block is as long as the enumeration it is indexed by).
  const HEALTH := 0
  const POWER1 := 1
  const MAXHEALTH := POWER1 + PowerTypeCount
  const MAXPOWER1 := MAXHEALTH + 1
  const STAT0 := MAXPOWER1 + PowerTypeCount
  const POSSTAT0 := STAT0 + StatCount
  const NEGSTAT0 := POSSTAT0 + StatCount
  const RESISTANCES := NEGSTAT0 + StatCount
  const RESISTANCEBUFFMODSPOSITIVE := RESISTANCES + SchoolCount
  const RESISTANCEBUFFMODSNEGATIVE := RESISTANCEBUFFMODSPOSITIVE + SchoolCount
  const FieldCount := RESISTANCEBUFFMODSNEGATIVE + SchoolCount

  // Bytes of the BYTES_0 field.
  const RaceByte := 0
  const ClassByte := 1
  const GenderByte := 2
  const PowerTypeByte := 3

  // The health bits of `AuraStateMask`: 1 << (AuraState - 1) for the
  // client's Health20Percent = 2, Health35Percent = 13, HealthAbove75Pct = 23.
  const Health20Percent: bv32 := 0x0000_0002
  const Health35Percent: bv32 := 0x0000_1000
  const HealthAbove75Pct: bv32 := 0x0040_0000
  const HealthBits: bv32 := Health20Percent | Health35Percent | HealthAbove75Pct

  /** A value snapshot of a unit's state. */
  datatype UnitView = UnitView(
    fields: seq<int>,
    baseStats: seq<int>,
    baseResistances: seq<int>,
    bytes0: seq<uint8>,
    auraState: bv32)

  predicate Shaped(u: UnitView)
  {
    && |u.fields| == FieldCount
    && |u.baseStats| == StatCount
    && |u.baseResistances| == SchoolCount
    && |u.bytes0| == 4
  }

  /** At most one of the three health aura-state bits is set. */
  predicate AtMostOneHealthBit(state: bv32)
  {
    var h := state & HealthBits;
    h == 0 || h == Health20Percent || h == Health35Percent || h == HealthAbove75Pct
  }

  /** What every operation of this model keeps true: base resistances are
      never negative and the client's RESISTANCES fields mirror them; the
      stored power type is a valid one; the health aura-state bits exclude
      each other. */
  predicate Consistent(u: UnitView)
  {
    && Shaped(u)
    && (forall s :: 0 <= s < SchoolCount ==> u.baseResistances[s] >= 0)
    && (forall s :: 0 <= s < SchoolCount ==> u.fields[RESISTANCES + s] == u.baseResistances[s])
    && u.bytes0[PowerTypeByte] < PowerTypeCount
    && AtMostOneHealthBit(u.auraState)
  }

  function Max0(x: int): (r: int)
    ensures r >= 0 && r >= x && (x >= 0 ==> r == x)
  {
    if x < 0 then 0 else x
  }

  // ---------------------------------------------------------------------
  // Stats

  function SetBaseStatSpec(u: UnitView, stat: StatType, value: int): UnitView
    requires Shaped(u)
  {
    u.(baseStats := u.baseStats[stat := value])
  }

  function ModBaseStatSpec(u: UnitView, stat: StatType, delta: int): UnitView
    requires Shaped(u)
  {
    SetBaseStatSpec(u, stat, u.baseStats[stat] + delta)
  }

  /** A stat buff goes into the positive bucket POSSTAT or, by its magnitude,
      into the negative bucket NEGSTAT; a zero delta changes nothing. */
  function AddStatModSpec(u: UnitView, stat: StatType, delta: int): UnitView
    requires Shaped(u)
  {
    if delta == 0 then u
    else if delta > 0 then
      u.(fields := u.fields[POSSTAT0 + stat := u.fields[POSSTAT0 + stat] + delta])
    else
      u.(fields := u.fields[NEGSTAT0 + stat := u.fields[NEGSTAT0 + stat] - delta])
  }

  /** Takes a stat buff back out of the bucket its sign selects. */
  function RemoveStatModSpec(u: UnitView, stat: StatType, delta: int): UnitView
    requires Shaped(u)
  {
    if delta == 0 then u
    else if delta > 0 then
      u.(fields := u.fields[POSSTAT0 + stat := u.fields[POSSTAT0 + stat] - delta])
    else
      u.(fields := u.fields[NEGSTAT0 + stat := u.fields[NEGSTAT0 + stat] + delta])
  }

  /** Net buff of a stat: positive bucket minus negative bucket. */
  function NetStatBuff(u: UnitView, stat: StatType): int
    requires Shaped(u)
  {
    u.fields[POSSTAT0 + stat] - u.fields[NEGSTAT0 + stat]
  }

  /** Adding a stat buff shifts the net buff of that stat by exactly `delta`,
      never shrinks either bucket, and touches nothing else. */
  lemma AddStatModShiftsNetBuff(u: UnitView, stat: StatType, delta: int)
    requires Shaped(u)
    ensures var u' := AddStatModSpec(u, stat, delta);
      && Shaped(u')
      && NetStatBuff(u', stat) == NetStatBuff(u, stat) + delta
      && u'.fields[POSSTAT0 + stat] >= u.fields[POSSTAT0 + stat]
      && u'.fields[NEGSTAT0 + stat] >= u.fields[NEGSTAT0 + stat]
      && (forall i :: 0 <= i < FieldCount && i != POSSTAT0 + stat && i != NEGSTAT0 + stat ==>
            u'.fields[i] == u.fields[i])
      && u'.(fields := u.fields) == u
  {
  }

  /** Removing a stat buff undoes adding it, bucket for bucket. */
  lemma RemoveStatModUndoesAdd(u: UnitView, stat: StatType, delta: int)
    requires Shaped(u)
    ensures RemoveStatModSpec(AddStatModSpec(u, stat, delta), stat, delta) == u
  {
    var u' := AddStatModSpec(u, stat, delta);
    assert RemoveStatModSpec(u', stat, delta).fields == u.fields;
  }

  // ---------------------------------------------------------------------
  // Resistances

  /** Total resistance of a school: base plus positive buffs minus negative
      buffs, floored at 0. */
  function Resistance(u: UnitView, school: DamageSchool): (r: int)
    requires Shaped(u)
    ensures r >= 0
    ensures r >= u.baseResistances[school] + u.fields[RESISTANCEBUFFMODSPOSITIVE + school]
                  - u.fields[RESISTANCEBUFFMODSNEGATIVE + school]
    ensures r > 0 ==> r == u.baseResistances[school] + u.fields[RESISTANCEBUFFMODSPOSITIVE + school]
                            - u.fields[RESISTANCEBUFFMODSNEGATIVE + school]
  {
    Max0(u.baseResistances[school] + u.fields[RESISTANCEBUFFMODSPOSITIVE + school]
         - u.fields[RESISTANCEBUFFMODSNEGATIVE + school])
  }

  /** Stores a base resistance, floored at 0, in both the base array and the
      client's RESISTANCES field of that school. */
  function SetBaseResistanceSpec(u: UnitView, school: DamageSchool, value: int): UnitView
    requires Shaped(u)
  {
    var v := Max0(value);
    u.(baseResistances := u.baseResistances[school := v],
       fields := u.fields[RESISTANCES + school := v])
  }

  function ModBaseResistanceSpec(u: UnitView, school: DamageSchool, delta: int): UnitView
    requires Shaped(u)
  {
    SetBaseResistanceSpec(u, school, u.baseResistances[school] + delta)
  }

  /** Setting a base resistance stores max(0, value) for that school, keeps
      the unit consistent and leaves every other school as it was. */
  lemma SetBaseResistanceEffect(u: UnitView, school: DamageSchool, value: int)
    requires Consistent(u)
    ensures var u' := SetBaseResistanceSpec(u, school, value);
      && Consistent(u')
      && u'.baseResistances[school] == Max0(value)
      && u'.fields[RESISTANCES + school] == Max0(value)
      && (forall s :: 0 <= s < SchoolCount && s != school ==>
            u'.baseResistances[s] == u.baseResistances[s] &&
            u'.fields[RESISTANCES + s] == u.fields[RESISTANCES + s] &&
            Resistance(u', s) == Resistance(u, s))
  {
    var u' := SetBaseResistanceSpec(u, school, value);
    forall s | 0 <= s < SchoolCount
      ensures u'.baseResistances[s] >= 0 && u'.fields[RESISTANCES + s] == u'.baseResistances[s]
    {
    }
  }

  /** The multi-school overload: applies the delta school by school and stops
      at the first value that is not a school (the source throws there, after
      the earlier schools have been changed). */
  function ModBaseResistancesSpec(u: UnitView, schools: seq<int>, delta: int): (r: (UnitView, bool))
    requires Shaped(u)
    ensures Shaped(r.0)
    ensures r.1 <==> forall i :: 0 <= i < |schools| ==> 0 <= schools[i] < SchoolCount
    decreases |schools|
  {
    if schools == [] then (u, true)
    else if !(0 <= schools[0] < SchoolCount) then (u, false)
    else ModBaseResistancesSpec(ModBaseResistanceSpec(u, schools[0], delta), schools[1..], delta)
  }

  /** A resistance buff goes into the bucket its sign selects and is also
      applied to the base resistance; a zero delta changes nothing. */
  function AddResistanceBuffSpec(u: UnitView, school: DamageSchool, delta: int): UnitView
    requires Shaped(u)
  {
    if delta == 0 then u
    else if delta > 0 then
      var i := RESISTANCEBUFFMODSPOSITIVE + school;
      ModBaseResistanceSpec(u.(fields := u.fields[i := u.fields[i] + delta]), school, delta)
    else
      var i := RESISTANCEBUFFMODSNEGATIVE + school;
      ModBaseResistanceSpec(u.(fields := u.fields[i := u.fields[i] - delta]), school, delta)
  }

  /** Takes a resistance buff back out of its bucket and out of the base. */
  function RemoveResistanceBuffSpec(u: UnitView, school: DamageSchool, delta: int): UnitView
    requires Shaped(u)
  {
    if delta == 0 then u
    else if delta > 0 then
      var i := RESISTANCEBUFFMODSPOSITIVE + school;
      ModBaseResistanceSpec(u.(fields := u.fields[i := u.fields[i] - delta]), school, 0 - delta)
    else
      var i := RESISTANCEBUFFMODSNEGATIVE + school;
      ModBaseResistanceSpec(u.(fields := u.fields[i := u.fields[i] + delta]), school, 0 - delta)
  }

  /** Adding a resistance buff: the bucket its sign selects grows by |delta|,
      the other bucket and every other school stay as they were, and the base
      becomes max(0, base + delta). */
  lemma AddResistanceBuffEffect(u: UnitView, school: DamageSchool, delta: int)
    requires Consistent(u)
    ensures var u' := AddResistanceBuffSpec(u, school, delta);
      var pos, neg := RESISTANCEBUFFMODSPOSITIVE + school, RESISTANCEBUFFMODSNEGATIVE + school;
      && Consistent(u')
      && u'.fields[pos] == u.fields[pos] + (if delta > 0 then delta else 0)
      && u'.fields[neg] == u.fields[neg] + (if delta < 0 then -delta else 0)
      && u'.baseResistances[school] == (if delta == 0 then u.baseResistances[school]
                                         else Max0(u.baseResistances[school] + delta))
      && (forall s :: 0 <= s < SchoolCount && s != school ==>
            u'.baseResistances[s] == u.baseResistances[s] && Resistance(u', s) == Resistance(u, s))
      && u'.baseStats == u.baseStats && u'.bytes0 == u.bytes0 && u'.auraState == u.auraState
  {
    var pos, neg := RESISTANCEBUFFMODSPOSITIVE + school, RESISTANCEBUFFMODSNEGATIVE + school;
    if delta > 0 {
      AddResistanceBuffStep(u, school, pos, delta, delta);
      assert u.fields[pos := u.fields[pos] + delta][neg] == u.fields[neg];
    } else if delta < 0 {
      AddResistanceBuffStep(u, school, neg, -delta, delta);
      assert u.fields[neg := u.fields[neg] - delta][pos] == u.fields[pos];
    }
  }

  /** One bucket `i` of `school` grows by `amount` and the base by `delta`. */
  lemma AddResistanceBuffStep(u: UnitView, school: DamageSchool, i: int, amount: int, delta: int)
    requires Consistent(u)
    requires i == RESISTANCEBUFFMODSPOSITIVE + school || i == RESISTANCEBUFFMODSNEGATIVE + school
    ensures var u' := ModBaseResistanceSpec(u.(fields := u.fields[i := u.fields[i] + amount]), school, delta);
      && Consistent(u')
      && u'.fields[i] == u.fields[i] + amount
      && (forall j :: 0 <= j < FieldCount && j != i && j != RESISTANCES + school ==> u'.fields[j] == u.fields[j])
      && u'.baseResistances[school] == Max0(u.baseResistances[school] + delta)
      && (forall s :: 0 <= s < SchoolCount && s != school ==>
            u'.baseResistances[s] == u.baseResistances[s] && Resistance(u', s) == Resistance(u, s))
      && u'.baseStats == u.baseStats && u'.bytes0 == u.bytes0 && u'.auraState == u.auraState
  {
    var v := u.(fields := u.fields[i := u.fields[i] + amount]);
    WriteOutsideResistancesKeepsConsistent(u, i, u.fields[i] + amount);
    SetBaseResistanceEffect(v, school, u.baseResistances[school] + delta);
  }

  /** Writing an update field other than RESISTANCES keeps the unit consistent. */
  lemma WriteOutsideResistancesKeepsConsistent(u: UnitView, i: int, x: int)
    requires Consistent(u)
    requires 0 <= i < FieldCount && !(RESISTANCES <= i < RESISTANCES + SchoolCount)
    ensures Consistent(u.(fields := u.fields[i := x]))
  {
    var v := u.(fields := u.fields[i := x]);
    forall s | 0 <= s < SchoolCount ensures v.fields[RESISTANCES + s] == v.baseResistances[s] { }
  }

  /** Removing a resistance buff after adding it restores both buckets
      exactly; the whole unit is restored exactly when adding did not clamp
      the base at 0. */
  lemma RemoveResistanceBuffUndoesAdd(u: UnitView, school: DamageSchool, delta: int)
    requires Consistent(u)
    ensures var u' := RemoveResistanceBuffSpec(AddResistanceBuffSpec(u, school, delta), school, delta);
      && u'.fields[RESISTANCEBUFFMODSPOSITIVE + school] == u.fields[RESISTANCEBUFFMODSPOSITIVE + school]
      && u'.fields[RESISTANCEBUFFMODSNEGATIVE + school] == u.fields[RESISTANCEBUFFMODSNEGATIVE + school]
      && (u' == u <==> u.baseResistances[school] + delta >= 0)
  {
    var w := AddResistanceBuffSpec(u, school, delta);
    AddResistanceBuffEffect(u, school, delta);
    var u' := RemoveResistanceBuffSpec(w, school, delta);
    if delta != 0 {
      var i := if delta > 0 then RESISTANCEBUFFMODSPOSITIVE + school else RESISTANCEBUFFMODSNEGATIVE + school;
      var v := w.(fields := w.fields[i := w.fields[i] - Abs(delta)]);
      assert u' == SetBaseResistanceSpec(v, school, w.baseResistances[school] - delta);
      if u.baseResistances[school] + delta >= 0 {
        assert u'.fields == u.fields;
        assert u'.baseResistances == u.baseResistances;
      } else {
        assert u'.baseResistances[school] == -delta != u.baseResistances[school];
      }
    }
  }

  /** As written, a resistance buff is counted twice in the total: once in
      its bucket and once in the base it was also added to. */
  lemma ResistanceBuffCountedTwice(u: UnitView, school: DamageSchool, delta: int)
    requires Consistent(u)
    requires u.baseResistances[school] + delta >= 0
    ensures var raw := u.baseResistances[school] + u.fields[RESISTANCEBUFFMODSPOSITIVE + school]
                       - u.fields[RESISTANCEBUFFMODSNEGATIVE + school];
      Resistance(AddResistanceBuffSpec(u, school, delta), school) == Max0(raw + 2 * delta)
  {
    AddResistanceBuffEffect(u, school, delta);
  }

  // ---------------------------------------------------------------------
  // Health

  /** The value the Health setter works with: clamped to [0, maxHealth]
      (the upper bound is tested first). */
  function ClampHealth(value: int, maxHealth: int): (h: int)
    ensures maxHealth >= 0 ==> 0 <= h <= maxHealth
    ensures 0 <= value <= maxHealth ==> h == value
    ensures value >= maxHealth ==> h == maxHealth
  {
    if value >= maxHealth then maxHealth
    else if value < 0 then 0
    else value
  }

  /** What a call of the Health setter did. */
  datatype HealthChange =
    | NoChange        // the clamped value equals the current health
    | Died            // the clamped value is below 1: `Die` is called, HEALTH is not written here
    | Written(h: int) // HEALTH := h and the health aura state is updated

  function HealthChangeFor(oldHealth: int, value: int, maxHealth: int): (c: HealthChange)
    ensures c.Written? ==> c.h == ClampHealth(value, maxHealth) >= 1 && c.h != oldHealth
    ensures c.Died? <==> ClampHealth(value, maxHealth) != oldHealth && ClampHealth(value, maxHealth) < 1
    ensures c.NoChange? <==> ClampHealth(value, maxHealth) == oldHealth
  {
    var v := ClampHealth(value, maxHealth);
    if v == oldHealth then NoChange
    else if v < 1 then Died
    else Written(v)
  }

  /** Health percentage (the HealthPct getter), None when MaxHealth is 0
      (the source divides by zero). */
  function HealthPctOf(health: int, maxHealth: int): (p: Option<int>)
    ensures p.None? <==> maxHealth == 0
    ensures 0 <= health <= maxHealth && maxHealth != 0 ==> p.Some? && 0 <= p.value <= 100
  {
    if maxHealth == 0 then None
    else
      PercentBound(health, maxHealth);
      Some(TruncDiv(100 * health, maxHealth))
  }

  lemma MulMonotonic(a: int, b: int, c: int)
    requires 0 <= c && a <= b
    ensures a * c <= b * c
  {
  }

  lemma DivAtMost(n: int, d: int, k: int)
    requires d > 0 && 0 <= n <= k * d
    ensures n / d <= k
  {
    var q := n / d;
    if q > k {
      assert (k + 1) * d == k * d + d;
      MulMonotonic(k + 1, q, d);
    }
  }

  lemma PercentBound(part: int, whole: int)
    requires whole != 0
    ensures 0 <= part <= whole ==> 0 <= TruncDiv(100 * part, whole) <= 100
  {
    if 0 <= part <= whole {
      DivAtMost(100 * part, whole, 100);
    }
  }

  /** The health aura state as written: below 20% only Health20Percent, below
      35% only Health35Percent, from 75% only HealthAbove75Pct, and in
      between the state is left as it was. */
  function HealthAuraStateAsWritten(state: bv32, pct: int): bv32
  {
    if pct < 20 then (state & !(HealthAbove75Pct | Health35Percent)) | Health20Percent
    else if pct < 35 then (state & !(HealthAbove75Pct | Health20Percent)) | Health35Percent
    else if pct >= 75 then (state & !(Health35Percent | Health20Percent)) | HealthAbove75Pct
    else state
  }

  /** The health aura state with the middle band clearing all three health
      bits, so that each bit always reflects the current percentage. */
  function HealthAuraState(state: bv32, pct: int): bv32
  {
    if 35 <= pct < 75 then state & !HealthBits
    else HealthAuraStateAsWritten(state, pct)
  }

  /** `after` agrees with `before` outside the health bits and has exactly
      `bit` among them. */
  predicate OnlyHealthBit(before: bv32, after: bv32, bit: bv32)
  {
    after & !HealthBits == before & !HealthBits && after & HealthBits == bit
  }

  lemma Health20Update(state: bv32)
    ensures OnlyHealthBit(state, (state & !(HealthAbove75Pct | Health35Percent)) | Health20Percent, Health20Percent)
  {
  }

  lemma Health35Update(state: bv32)
    ensures OnlyHealthBit(state, (state & !(HealthAbove75Pct | Health20Percent)) | Health35Percent, Health35Percent)
  {
  }

  lemma HealthAbove75Update(state: bv32)
    ensures OnlyHealthBit(state, (state & !(Health35Percent | Health20Percent)) | HealthAbove75Pct, HealthAbove75Pct)
  {
  }

  lemma HealthClearUpdate(state: bv32)
    ensures OnlyHealthBit(state, state & !HealthBits, 0)
  {
  }

  /** What having exactly one (or no) health bit means for each bit. */
  lemma OnlyHealthBitFacts(before: bv32, after: bv32, bit: bv32)
    requires bit == 0 || bit == Health20Percent || bit == Health35Percent || bit == HealthAbove75Pct
    requires OnlyHealthBit(before, after, bit)
    ensures AtMostOneHealthBit(after)
    ensures after & Health20Percent != 0 <==> bit == Health20Percent
    ensures after & Health35Percent != 0 <==> bit == Health35Percent
    ensures after & HealthAbove75Pct != 0 <==> bit == HealthAbove75Pct
  {
  }

  /** The as-written rule: in each of the bands below 20%, 20-34% and from
      75% it keeps the other bits and leaves exactly the band's health bit;
      in the 35-74% band it changes nothing. */
  lemma HealthAuraStateAsWrittenBands(state: bv32, pct: int)
    ensures var s' := HealthAuraStateAsWritten(state, pct);
      && (pct < 20 ==> OnlyHealthBit(state, s', Health20Percent))
      && (20 <= pct < 35 ==> OnlyHealthBit(state, s', Health35Percent))
      && (pct >= 75 ==> OnlyHealthBit(state, s', HealthAbove75Pct))
      && (35 <= pct < 75 ==> s' == state)
  {
    if pct < 20 {
      Health20Update(state);
    } else if pct < 35 {
      Health35Update(state);
    } else if pct >= 75 {
      HealthAbove75Update(state);
    }
  }

  /** The branches of the as-written rule, one equation each. */
  lemma HealthAuraStateAsWrittenCases(state: bv32, pct: int)
    ensures pct < 20 ==>
      HealthAuraStateAsWritten(state, pct) == (state & !(HealthAbove75Pct | Health35Percent)) | Health20Percent
    ensures 20 <= pct < 35 ==>
      HealthAuraStateAsWritten(state, pct) == (state & !(HealthAbove75Pct | Health20Percent)) | Health35Percent
    ensures pct >= 75 ==>
      HealthAuraStateAsWritten(state, pct) == (state & !(Health35Percent | Health20Percent)) | HealthAbove75Pct
    ensures 35 <= pct < 75 ==> HealthAuraStateAsWritten(state, pct) == state
  {
  }

  /** The as-written rule never sets two health bits at once. */
  lemma HealthAuraStateAsWrittenKeepsAtMostOne(state: bv32, pct: int)
    requires AtMostOneHealthBit(state)
    ensures AtMostOneHealthBit(HealthAuraStateAsWritten(state, pct))
  {
    var s' := HealthAuraStateAsWritten(state, pct);
    HealthAuraStateAsWrittenBands(state, pct);
    if pct < 20 {
      OnlyHealthBitFacts(state, s', Health20Percent);
    } else if pct < 35 {
      OnlyHealthBitFacts(state, s', Health35Percent);
    } else if pct >= 75 {
      OnlyHealthBitFacts(state, s', HealthAbove75Pct);
    }
  }

  /** As written, a bit survives into a band it does not describe: a unit
      that was below 20% and is healed to 50% still has Health20Percent. */
  lemma HealthAuraStateAsWrittenKeepsStaleBit()
    ensures HealthAuraStateAsWritten(HealthAuraStateAsWritten(0, 10), 50) & Health20Percent != 0
  {
  }

  /** With the corrected rule each health bit is set exactly when the
      percentage is in its band, whatever the previous state, and the bits
      outside the health bits are preserved. */
  lemma HealthAuraStateBands(state: bv32, pct: int)
    ensures var s' := HealthAuraState(state, pct);
      && s' & !HealthBits == state & !HealthBits
      && (s' & Health20Percent != 0 <==> pct < 20)
      && (s' & Health35Percent != 0 <==> 20 <= pct < 35)
      && (s' & HealthAbove75Pct != 0 <==> pct >= 75)
      && AtMostOneHealthBit(s')
  {
    if pct < 20 {
      HealthAuraStateBelow20(state, pct);
    } else if pct < 35 {
      HealthAuraStateBelow35(state, pct);
    } else if pct >= 75 {
      HealthAuraStateAbove75(state, pct);
    } else {
      HealthAuraStateMiddle(state, pct);
    }
  }

  // The four bands of `HealthAuraStateBands`, one proof each.

  lemma HealthAuraStateBelow20(state: bv32, pct: int)
    requires pct < 20
    ensures var s' := HealthAuraState(state, pct);
      && s' & !HealthBits == state & !HealthBits
      && (s' & Health20Percent != 0 <==> pct < 20)
      && (s' & Health35Percent != 0 <==> 20 <= pct < 35)
      && (s' & HealthAbove75Pct != 0 <==> pct >= 75)
      && AtMostOneHealthBit(s')
  {
    HealthAuraStateAsWrittenBands(state, pct);
    OnlyHealthBitFacts(state, HealthAuraState(state, pct), Health20Percent);
  }

  lemma HealthAuraStateBelow35(state: bv32, pct: int)
    requires 20 <= pct < 35
    ensures var s' := HealthAuraState(state, pct);
      && s' & !HealthBits == state & !HealthBits
      && (s' & Health20Percent != 0 <==> pct < 20)
      && (s' & Health35Percent != 0 <==> 20 <= pct < 35)
      && (s' & HealthAbove75Pct != 0 <==> pct >= 75)
      && AtMostOneHealthBit(s')
  {
    HealthAuraStateAsWrittenBands(state, pct);
    OnlyHealthBitFacts(state, HealthAuraState(state, pct), Health35Percent);
  }

  lemma HealthAuraStateAbove75(state: bv32, pct: int)
    requires pct >= 75
    ensures var s' := HealthAuraState(state, pct);
      && s' & !HealthBits == state & !HealthBits
      && (s' & Health20Percent != 0 <==> pct < 20)
      && (s' & Health35Percent != 0 <==> 20 <= pct < 35)
      && (s' & HealthAbove75Pct != 0 <==> pct >= 75)
      && AtMostOneHealthBit(s')
  {
    HealthAuraStateAsWrittenBands(state, pct);
    OnlyHealthBitFacts(state, HealthAuraState(state, pct), HealthAbove75Pct);
  }

  lemma HealthAuraStateMiddle(state: bv32, pct: int)
    requires 35 <= pct < 75
    ensures var s' := HealthAuraState(state, pct);
      && s' & !HealthBits == state & !HealthBits
      && (s' & Health20Percent != 0 <==> pct < 20)
      && (s' & Health35Percent != 0 <==> 20 <= pct < 35)
      && (s' & HealthAbove75Pct != 0 <==> pct >= 75)
      && AtMostOneHealthBit(s')
  {
    HealthClearUpdate(state);
    OnlyHealthBitFacts(state, HealthAuraState(state, pct), 0);
  }

  // ---------------------------------------------------------------------
  // Power

  /** The stored power-type byte: `(byte)((byte)value % (byte)PowerType.Count)`. */
  function PowerTypeByteOf(value: int): (b: uint8)
    ensures b < PowerTypeCount
    ensures 0 <= value < PowerTypeCount ==> b == value
  {
    LowByte(LowByte(value) % PowerTypeCount)
  }

  /** `MathUtil.ClampMinMax`. `MathUtil` is not part of this model; the
      lower bound is tested first here, which decides the result only when
      `max < min` (a negative maximum power). */
  function ClampMinMax(value: int, min: int, max: int): (r: int)
    ensures min <= max ==> min <= r <= max
    ensures min <= value <= max ==> r == value
  {
    if value < min then min else if value > max then max else value
  }

  // ---------------------------------------------------------------------
  // Class and race masks

  /** `1 << (n - 1)` on a 32-bit int: C# masks the shift count to 5 bits. */
  function MaskOf(n: int): bv32
  {
    1 << ((n - 1) % 32)
  }

  /** `1 << n` on a 32-bit int. */
  function Mask2Of(n: int): bv32
  {
    1 << (n % 32)
  }

  /** For ids 1 to 32 the mask has exactly the bit id-1; id 0 wraps around
      to the top bit. */
  lemma MaskOfIsSingleBit(n: int)
    requires 1 <= n <= 32
    ensures MaskOf(n) == 1 << (n - 1) && HasBit(MaskOf(n), n - 1)
    ensures MaskOf(n) & (MaskOf(n) - 1) == 0
    ensures MaskOf(0) == 0x8000_0000
  {
    assert (n - 1) % 32 == n - 1;
    assert (0 - 1) % 32 == 31;
  }

  /** For ids 0 to 31 the second mask has exactly the bit id. */
  lemma Mask2OfIsSingleBit(n: int)
    requires 0 <= n < 32
    ensures Mask2Of(n) == 1 << n && HasBit(Mask2Of(n), n)
    ensures Mask2Of(n) & (Mask2Of(n) - 1) == 0
  {
    assert n % 32 == n;
  }

  /** The second mask of an id is the first mask of the next id: one bit
      further up. */
  lemma Mask2OfIsNextMaskOf(n: int)
    ensures Mask2Of(n) == MaskOf(n + 1)
  {
    assert (n + 1 - 1) % 32 == n % 32;
  }

  /** Distinct ids from 1 to 32 give distinct masks. */
  lemma MaskOfInjective(n: int, m: int)
    requires 1 <= n <= 32 && 1 <= m <= 32
    ensures MaskOf(n) == MaskOf(m) <==> n == m
  {
    MaskOfShift(n);
    MaskOfShift(m);
    ShiftOneInjective((n - 1) as bv5, (m - 1) as bv5);
    Bv5RoundTrip(n - 1);
    Bv5RoundTrip(m - 1);
  }

  /** For ids 1 to 32 the shift count is the id less one, as a 5-bit value. */
  lemma MaskOfShift(n: int)
    requires 1 <= n <= 32
    ensures MaskOf(n) == 1 as bv32 << ((n - 1) as bv5)
  {
    assert (n - 1) % 32 == n - 1;
  }

  lemma ShiftOneInjective(i: bv5, j: bv5)
    ensures (1 as bv32 << i) == (1 as bv32 << j) <==> i == j
  {
  }

  lemma Bv5RoundTrip(i: int)
    requires 0 <= i < 32
    ensures (i as bv5) as int == i
  {
  }

  // ---------------------------------------------------------------------
  // The unit

  class Unit {
    /** The update fields (32-bit values the client mirrors). */
    const fields: array<int>
    /** `m_baseStats` */
    const baseStats: array<int>
    /** `m_baseResistances` */
    const baseResistances: array<int>
    /** The four bytes of the BYTES_0 field: race, class, gender, power type. */
    const bytes0: array<uint8>
    /** The AURASTATE field. */
    var auraState: bv32

    ghost function View(): UnitView
      reads this, fields, baseStats, baseResistances, bytes0
    {
      UnitView(fields[..], baseStats[..], baseResistances[..], bytes0[..], auraState)
    }

    ghost predicate Valid()
      reads this, fields, baseStats, baseResistances, bytes0
    {
      && fields != baseStats && fields != baseResistances && baseStats != baseResistances
      && Consistent(View())
    }

    constructor ()
      ensures Valid()
      ensures fresh(fields) && fresh(baseStats) && fresh(baseResistances) && fresh(bytes0)
      ensures View() == UnitView(seq(FieldCount, _ => 0), seq(StatCount, _ => 0),
                                 seq(SchoolCount, _ => 0), [0, 0, 0, 0], 0)
    {
      fields := new int[FieldCount](_ => 0);
      baseStats := new int[StatCount](_ => 0);
      baseResistances := new int[SchoolCount](_ => 0);
      bytes0 := new uint8[4](_ => 0);
      auraState := 0;
    }

    // --- reads

    function Health(): int
      reads this, fields, baseStats, baseResistances, bytes0
      requires Valid()
    {
      fields[HEALTH]
    }

    function MaxHealth(): int
      reads this, fields, baseStats, baseResistances, bytes0
      requires Valid()
    {
      fields[MAXHEALTH]
    }

    function PowerType(): (p: nat)
      reads this, fields, baseStats, baseResistances, bytes0
      requires Valid()
      ensures p < PowerTypeCount
    {
      bytes0[PowerTypeByte]
    }

    /** The stored power of the current power type, floored at 0 (without
        the time-based regeneration the getter adds). */
    function Power(): (p: int)
      reads this, fields, baseStats, baseResistances, bytes0
      requires Valid()
      ensures p >= 0
    {
      Max0(fields[POWER1 + PowerType()])
    }

    function MaxPower(): int
      reads this, fields, baseStats, baseResistances, bytes0
      requires Valid()
    {
      fields[MAXPOWER1 + PowerType()]
    }

    function GetStatValue(stat: StatType): int
      reads this, fields, baseStats, baseResistances, bytes0
      requires Valid()
    {
      fields[STAT0 + stat]
    }

    function GetBaseStatValue(stat: StatType): int
      reads this, fields, baseStats, baseResistances, bytes0
      requires Valid()
    {
      baseStats[stat]
    }

    function GetBaseResistance(school: DamageSchool): (r: int)
      reads this, fields, baseStats, baseResistances, bytes0
      requires Valid()
      ensures r >= 0 && r == fields[RESISTANCES + school]
    {
      baseResistances[school]
    }

    /** Total resistance of a school, never negative. */
    function GetResistance(school: DamageSchool): (r: int)
      reads this, fields, baseStats, baseResistances, bytes0
      requires Valid()
      ensures r == Resistance(View(), school) && r >= 0
    {
      Max0(baseResistances[school] + fields[RESISTANCEBUFFMODSPOSITIVE + school]
           - fields[RESISTANCEBUFFMODSNEGATIVE + school])
    }

    function HealthPct(): (p: Option<int>)
      reads this, fields, baseStats, baseResistances, bytes0
      requires Valid()
      ensures p == HealthPctOf(Health(), MaxHealth())
    {
      if fields[MAXHEALTH] == 0 then None
      else Some(TruncDiv(100 * fields[HEALTH], fields[MAXHEALTH]))
    }

    /** The class mask: the single bit class id - 1 for ids 1 to 32. */
    function ClassMask(): (r: bv32)
      reads this, fields, baseStats, baseResistances, bytes0
      requires Valid()
      ensures 1 <= bytes0[ClassByte] <= 32 ==> HasBit(r, bytes0[ClassByte] - 1) && r & (r - 1) == 0
      ensures bytes0[ClassByte] == 0 ==> r == 0x8000_0000
    {
      var n := bytes0[ClassByte];
      MaskOfIsSingleBit(if 1 <= n <= 32 then n else 1);
      MaskOf(n)
    }

    /** The second class mask: the single bit class id for ids 0 to 31,
        which is the first mask of the next id. */
    function ClassMask2(): (r: bv32)
      reads this, fields, baseStats, baseResistances, bytes0
      requires Valid()
      ensures bytes0[ClassByte] < 32 ==> HasBit(r, bytes0[ClassByte]) && r & (r - 1) == 0
      ensures r == MaskOf(bytes0[ClassByte] as int + 1)
    {
      var n := bytes0[ClassByte];
      Mask2OfIsSingleBit(if n < 32 then n else 0);
      Mask2OfIsNextMaskOf(n);
      Mask2Of(n)
    }

    /** The race mask: the single bit race id - 1 for ids 1 to 32. */
    function RaceMask(): (r: bv32)
      reads this, fields, baseStats, baseResistances, bytes0
      requires Valid()
      ensures 1 <= bytes0[RaceByte] <= 32 ==> HasBit(r, bytes0[RaceByte] - 1) && r & (r - 1) == 0
      ensures bytes0[RaceByte] == 0 ==> r == 0x8000_0000
    {
      var n := bytes0[RaceByte];
      MaskOfIsSingleBit(if 1 <= n <= 32 then n else 1);
      MaskOf(n)
    }

    /** The second race mask: the single bit race id for ids 0 to 31,
        which is the first mask of the next id. */
    function RaceMask2(): (r: bv32)
      reads this, fields, baseStats, baseResistances, bytes0
      requires Valid()
      ensures bytes0[RaceByte] < 32 ==> HasBit(r, bytes0[RaceByte]) && r & (r - 1) == 0
      ensures r == MaskOf(bytes0[RaceByte] as int + 1)
    {
      var n := bytes0[RaceByte];
      Mask2OfIsSingleBit(if n < 32 then n else 0);
      Mask2OfIsNextMaskOf(n);
      Mask2Of(n)
    }

    // --- stats

    method SetBaseStat(stat: StatType, value: int)
      requires Valid()
      modifies baseStats
      ensures Valid() && View() == SetBaseStatSpec(old(View()), stat, value)
    {
      baseStats[stat] := value;
    }

    method ModBaseStat(stat: StatType, delta: int)
      requires Valid()
      modifies baseStats
      ensures Valid() && View() == ModBaseStatSpec(old(View()), stat, delta)
    {
      SetBaseStat(stat, baseStats[stat] + delta);
    }

    method AddStatMod(stat: StatType, delta: int)
      requires Valid()
      modifies fields
      ensures Valid() && View() == AddStatModSpec(old(View()), stat, delta)
    {
      if delta == 0 {
        return;
      }
      if delta > 0 {
        fields[POSSTAT0 + stat] := fields[POSSTAT0 + stat] + delta;
      } else {
        fields[NEGSTAT0 + stat] := fields[NEGSTAT0 + stat] - delta;
      }
    }

    method RemoveStatMod(stat: StatType, delta: int)
      requires Valid()
      modifies fields
      ensures Valid() && View() == RemoveStatModSpec(old(View()), stat, delta)
    {
      if delta == 0 {
        return;
      }
      if delta > 0 {
        fields[POSSTAT0 + stat] := fields[POSSTAT0 + stat] - delta;
      } else {
        fields[NEGSTAT0 + stat] := fields[NEGSTAT0 + stat] + delta;
      }
    }

    /** The overload with `passive`: a passive modifier changes the base stat. */
    method AddStatModOrBase(stat: StatType, delta: int, passive: bool)
      requires Valid()
      modifies fields, baseStats
      ensures Valid()
      ensures View() == if passive then ModBaseStatSpec(old(View()), stat, delta)
                        else AddStatModSpec(old(View()), stat, delta)
    {
      if passive {
        ModBaseStat(stat, delta);
      } else {
        AddStatMod(stat, delta);
      }
    }

    method RemoveStatModOrBase(stat: StatType, delta: int, passive: bool)
      requires Valid()
      modifies fields, baseStats
      ensures Valid()
      ensures View() == if passive then ModBaseStatSpec(old(View()), stat, -delta)
                        else RemoveStatModSpec(old(View()), stat, delta)
    {
      if passive {
        ModBaseStat(stat, -delta);
      } else {
        RemoveStatMod(stat, delta);
      }
    }

    // --- resistances

    method SetBaseResistance(school: DamageSchool, value: int)
      requires Valid()
      modifies fields, baseResistances
      ensures Valid() && View() == SetBaseResistanceSpec(old(View()), school, value)
    {
      SetBaseResistanceEffect(View(), school, value);
      var v := value;
      if v < 0 {
        v := 0;
      }
      baseResistances[school] := v;
      fields[RESISTANCES + school] := v;
    }

    method ModBaseResistance(school: DamageSchool, delta: int)
      requires Valid()
      modifies fields, baseResistances
      ensures Valid() && View() == ModBaseResistanceSpec(old(View()), school, delta)
    {
      SetBaseResistance(school, baseResistances[school] + delta);
    }

    /** Applies the delta to each listed school in turn; `ok` is false when a
        listed value is not a school, after the schools before it were changed. */
    method ModBaseResistances(schools: seq<int>, delta: int) returns (ok: bool)
      requires Valid()
      modifies fields, baseResistances
      ensures Valid()
      ensures (View(), ok) == ModBaseResistancesSpec(old(View()), schools, delta)
    {
      var i := 0;
      while i < |schools|
        invariant 0 <= i <= |schools|
        invariant Valid()
        invariant forall j :: 0 <= j < i ==> 0 <= schools[j] < SchoolCount
        invariant ModBaseResistancesSpec(old(View()), schools, delta)
               == ModBaseResistancesSpec(View(), schools[i..], delta)
      {
        if !(0 <= schools[i] < SchoolCount) {
          return false;
        }
        assert schools[i..][1..] == schools[i + 1..];
        ModBaseResistance(schools[i], delta);
        i := i + 1;
      }
      return true;
    }

    method AddResistanceBuff(school: DamageSchool, delta: int)
      requires Valid()
      modifies fields, baseResistances
      ensures Valid() && View() == AddResistanceBuffSpec(old(View()), school, delta)
    {
      if delta == 0 {
        return;
      }
      ghost var u := View();
      var i := if delta > 0 then RESISTANCEBUFFMODSPOSITIVE + school else RESISTANCEBUFFMODSNEGATIVE + school;
      var value := if delta > 0 then fields[i] + delta else fields[i] - delta;
      WriteOutsideResistancesKeepsConsistent(u, i, value);
      fields[i] := value;
      assert View() == u.(fields := u.fields[i := value]);
      ModBaseResistance(school, delta);
    }

    method RemoveResistanceBuff(school: DamageSchool, delta: int)
      requires Valid()
      modifies fields, baseResistances
      ensures Valid() && View() == RemoveResistanceBuffSpec(old(View()), school, delta)
    {
      if delta == 0 {
        return;
      }
      ghost var u := View();
      var i := if delta > 0 then RESISTANCEBUFFMODSPOSITIVE + school else RESISTANCEBUFFMODSNEGATIVE + school;
      var value := if delta > 0 then fields[i] - delta else fields[i] + delta;
      WriteOutsideResistancesKeepsConsistent(u, i, value);
      fields[i] := value;
      assert View() == u.(fields := u.fields[i := value]);
      ModBaseResistance(school, 0 - delta);
    }

    // --- health

    /** The as-written update of the health aura state from the current
        health percentage. */
    method UpdateHealthAuraStateAsWritten()
      requires Valid() && MaxHealth() != 0
      modifies this
      ensures Valid()
      ensures View() == old(View()).(auraState :=
                HealthAuraStateAsWritten(old(auraState), TruncDiv(Health() * 100, MaxHealth())))
    {
      var pct := TruncDiv(fields[HEALTH] * 100, fields[MAXHEALTH]);
      var state := auraState;
      HealthAuraStateAsWrittenCases(state, pct);
      HealthAuraStateAsWrittenKeepsAtMostOne(state, pct);
      if pct < 20 {
        state := (state & !(HealthAbove75Pct | Health35Percent)) | Health20Percent;
      } else if pct < 35 {
        state := (state & !(HealthAbove75Pct | Health20Percent)) | Health35Percent;
      } else if pct >= 75 {
        state := (state & !(Health35Percent | Health20Percent)) | HealthAbove75Pct;
      }
      assert state == HealthAuraStateAsWritten(old(auraState), pct);
      auraState := state;
    }

    /** The health aura-state update with the middle band clearing the health
        bits (see `HealthAuraStateBands`). */
    method UpdateHealthAuraState()
      requires Valid() && MaxHealth() != 0
      modifies this
      ensures Valid()
      ensures View() == old(View()).(auraState :=
                HealthAuraState(old(auraState), TruncDiv(Health() * 100, MaxHealth())))
    {
      var pct := TruncDiv(fields[HEALTH] * 100, fields[MAXHEALTH]);
      HealthAuraStateBands(auraState, pct);
      if 35 <= pct < 75 {
        auraState := auraState & !HealthBits;
      } else {
        UpdateHealthAuraStateAsWritten();
      }
    }

    /** The Health setter: clamps to [0, MaxHealth]; if that differs from the
        current health, either reports a death (value below 1) or writes
        HEALTH and updates the health aura state with the as-written rule. */
    method SetHealth(value: int) returns (change: HealthChange)
      requires Valid()
      modifies this, fields
      ensures Valid()
      ensures change == HealthChangeFor(old(Health()), value, old(MaxHealth()))
      ensures !change.Written? ==> View() == old(View())
      ensures change.Written? ==>
        View() == old(View()).(fields := old(fields[..])[HEALTH := change.h],
                               auraState := HealthAuraStateAsWritten(old(auraState),
                                                                     TruncDiv(change.h * 100, old(MaxHealth()))))
    {
      var oldHealth := fields[HEALTH];
      var maxHealth := fields[MAXHEALTH];
      var v := value;
      if v >= maxHealth {
        v := maxHealth;
      } else if v < 0 {
        v := 0;
      }
      if v == oldHealth {
        return NoChange;
      }
      if v < 1 {
        return Died;
      }
      WriteOutsideResistancesKeepsConsistent(View(), HEALTH, v);
      fields[HEALTH] := v;
      UpdateHealthAuraStateAsWritten();
      change := Written(v);
    }

    /** The HealthPct setter: Health := value * MaxHealth / 100 (truncating). */
    method SetHealthPct(value: int) returns (change: HealthChange)
      requires Valid()
      modifies this, fields
      ensures Valid()
      ensures change == HealthChangeFor(old(Health()), TruncDiv(value * old(MaxHealth()), 100), old(MaxHealth()))
      ensures !change.Written? ==> View() == old(View())
      ensures change.Written? ==>
        View() == old(View()).(fields := old(fields[..])[HEALTH := change.h],
                               auraState := HealthAuraStateAsWritten(old(auraState),
                                                                     TruncDiv(change.h * 100, old(MaxHealth()))))
    {
      change := SetHealth(TruncDiv(value * fields[MAXHEALTH], 100));
    }

    // --- power

    /** The PowerType setter: stores the value modulo PowerType.Count. */
    method SetPowerType(value: int)
      requires Valid()
      modifies bytes0
      ensures Valid()
      ensures View() == old(View()).(bytes0 := old(bytes0[..])[PowerTypeByte := PowerTypeByteOf(value)])
      ensures PowerType() < PowerTypeCount
      ensures 0 <= value < PowerTypeCount ==> PowerType() == value
    {
      bytes0[PowerTypeByte] := LowByte(LowByte(value) % PowerTypeCount);
    }

    /** The Power setter: clamps to [0, MaxPower] and writes the field of the
        current power type when that differs from the current power. */
    method SetPower(value: int)
      requires Valid()
      modifies fields
      ensures Valid()
      ensures var v := ClampMinMax(value, 0, old(MaxPower()));
        View() == if v == old(Power()) then old(View())
                  else old(View()).(fields := old(fields[..])[POWER1 + old(PowerType()) := v])
      ensures old(MaxPower()) >= 0 ==> 0 <= Power() <= MaxPower()
    {
      var v := ClampMinMax(value, 0, MaxPower());
      if v != Power() {
        WriteOutsideResistancesKeepsConsistent(View(), POWER1 + PowerType(), v);
        fields[POWER1 + PowerType()] := v;
      }
    }
  }
}
