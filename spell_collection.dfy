/** The spells a unit knows, by id, and the cascade by which learning a spell
    also teaches the spells it teaches additionally.

    A spell is seen here only through what the collection uses of it: its
    id, whether it is passive, and the spells it teaches additionally. The
    global spell registry is passed in as a map from id to spell. */
module SpellCollections {
  import opened Common

  /** The part of a spell the collection works with. */
  datatype SpellRef = SpellRef(id: uint32, isPassive: bool, additionallyTaught: seq<SpellRef>)

  /** What the collection stores: a spell per id, or null (`OnlyAdd` by an
      id the registry does not know stores null). */
  type SpellMap = map<uint32, Option<SpellRef>>

  /** The global spell registry. */
  type Registry = map<uint32, SpellRef>

  function Find(registry: Registry, id: uint32): (r: Option<SpellRef>)
    ensures r.Some? <==> id in registry
    ensures r.Some? ==> r.value == registry[id]
  {
    if id in registry then Some(registry[id]) else None
  }

  // ---------------------------------------------------------------------
  // The teaching cascade as written: store the spell under its id, then
  // add each additionally taught spell in order, recursively.

  function AddAll(m: SpellMap, s: SpellRef): SpellMap
    decreases s, 1
  {
    AddEach(m[s.id := Some(s)], s.additionallyTaught, s)
  }

  function AddEach(m: SpellMap, ss: seq<SpellRef>, ghost parent: SpellRef): SpellMap
    requires forall i :: 0 <= i < |ss| ==> ss[i] < parent
    decreases parent, 0, |ss|
  {
    if ss == [] then m else AddEach(AddAll(m, ss[0]), ss[1..], parent)
  }

  /** The ids a spell teaches, itself included. */
  function Ids(s: SpellRef): set<uint32>
    decreases s, 1
  {
    {s.id} + IdsEach(s.additionallyTaught, s)
  }

  function IdsEach(ss: seq<SpellRef>, ghost parent: SpellRef): set<uint32>
    requires forall i :: 0 <= i < |ss| ==> ss[i] < parent
    decreases parent, 0, |ss|
  {
    if ss == [] then {} else Ids(ss[0]) + IdsEach(ss[1..], parent)
  }

  /** An independent reading of the cascade: the entries it writes, where a
      spell written later wins over an earlier one with the same id. */
  function Taught(s: SpellRef): SpellMap
    decreases s, 1
  {
    map[s.id := Some(s)] + TaughtEach(s.additionallyTaught, s)
  }

  function TaughtEach(ss: seq<SpellRef>, ghost parent: SpellRef): SpellMap
    requires forall i :: 0 <= i < |ss| ==> ss[i] < parent
    decreases parent, 0, |ss|
  {
    if ss == [] then map[] else Taught(ss[0]) + TaughtEach(ss[1..], parent)
  }

  /** The ids of the passive spells the cascade casts on the owner, in the
      order it casts them. */
  function PassiveTrace(s: SpellRef): seq<uint32>
    decreases s, 1
  {
    (if s.isPassive then [s.id] else []) + PassiveTraceEach(s.additionallyTaught, s)
  }

  function PassiveTraceEach(ss: seq<SpellRef>, ghost parent: SpellRef): seq<uint32>
    requires forall i :: 0 <= i < |ss| ==> ss[i] < parent
    decreases parent, 0, |ss|
  {
    if ss == [] then [] else PassiveTrace(ss[0]) + PassiveTraceEach(ss[1..], parent)
  }

  /** Every entry names a spell with the entry's own id. */
  predicate IdsMatch(m: SpellMap)
  {
    forall k :: k in m && m[k].Some? ==> m[k].value.id == k
  }

  lemma MapOverrideAssoc(a: SpellMap, b: SpellMap, c: SpellMap)
    ensures (a + b) + c == a + (b + c)
  {
  }

  /** The cascade overrides the map with `Taught(s)` and nothing else. */
  lemma {:induction false} AddAllIsOverride(m: SpellMap, s: SpellRef)
    ensures AddAll(m, s) == m + Taught(s)
    decreases s, 1
  {
    AddEachIsOverride(m[s.id := Some(s)], s.additionallyTaught, s);
    MapOverrideAssoc(m, map[s.id := Some(s)], TaughtEach(s.additionallyTaught, s));
    assert m[s.id := Some(s)] == m + map[s.id := Some(s)];
  }

  lemma {:induction false} AddEachIsOverride(m: SpellMap, ss: seq<SpellRef>, parent: SpellRef)
    requires forall i :: 0 <= i < |ss| ==> ss[i] < parent
    ensures AddEach(m, ss, parent) == m + TaughtEach(ss, parent)
    decreases parent, 0, |ss|
  {
    if ss != [] {
      AddAllIsOverride(m, ss[0]);
      AddEachIsOverride(AddAll(m, ss[0]), ss[1..], parent);
      MapOverrideAssoc(m, Taught(ss[0]), TaughtEach(ss[1..], parent));
    }
  }

  /** The cascade writes exactly the ids the spell teaches, each to a
      (non-null) spell with that id. */
  lemma {:induction false} TaughtShape(s: SpellRef)
    ensures Taught(s).Keys == Ids(s)
    ensures forall k :: k in Taught(s) ==> Taught(s)[k].Some? && Taught(s)[k].value.id == k
    decreases s, 1
  {
    TaughtEachShape(s.additionallyTaught, s);
  }

  lemma {:induction false} TaughtEachShape(ss: seq<SpellRef>, parent: SpellRef)
    requires forall i :: 0 <= i < |ss| ==> ss[i] < parent
    ensures TaughtEach(ss, parent).Keys == IdsEach(ss, parent)
    ensures forall k :: k in TaughtEach(ss, parent) ==>
      TaughtEach(ss, parent)[k].Some? && TaughtEach(ss, parent)[k].value.id == k
    decreases parent, 0, |ss|
  {
    if ss != [] {
      TaughtShape(ss[0]);
      TaughtEachShape(ss[1..], parent);
    }
  }

  /** After the cascade: the known ids are the old ones plus every id the
      spell teaches; ids it does not teach keep their entry; each taught id
      holds a spell with that id; and the spell itself is stored under its
      id unless a spell it teaches has the same id. */
  lemma AddAllEffect(m: SpellMap, s: SpellRef)
    ensures var m' := AddAll(m, s);
      && m'.Keys == m.Keys + Ids(s)
      && (forall k :: k in m && k !in Ids(s) ==> m'[k] == m[k])
      && (forall k :: k in Ids(s) ==> m'[k].Some? && m'[k].value.id == k)
      && (s.id !in IdsEach(s.additionallyTaught, s) ==> m'[s.id] == Some(s))
      && (IdsMatch(m) ==> IdsMatch(m'))
  {
    AddAllIsOverride(m, s);
    TaughtShape(s);
    if s.id !in IdsEach(s.additionallyTaught, s) {
      TaughtEachShape(s.additionallyTaught, s);
    }
  }

  /** Teaching the same spell twice is teaching it once. */
  lemma AddAllIdempotent(m: SpellMap, s: SpellRef)
    ensures AddAll(AddAll(m, s), s) == AddAll(m, s)
  {
    AddAllIsOverride(m, s);
    AddAllIsOverride(AddAll(m, s), s);
    MapOverrideAssoc(m, Taught(s), Taught(s));
  }

  /** Every spell the cascade casts is one it teaches, and a passive spell
      is cast before anything it teaches. */
  lemma {:induction false} PassiveTraceTaught(s: SpellRef)
    ensures forall x :: x in PassiveTrace(s) ==> x in Ids(s)
    ensures s.isPassive ==> |PassiveTrace(s)| > 0 && PassiveTrace(s)[0] == s.id
    ensures !s.isPassive && s.additionallyTaught == [] ==> PassiveTrace(s) == []
    decreases s, 1
  {
    PassiveTraceEachTaught(s.additionallyTaught, s);
  }

  lemma {:induction false} PassiveTraceEachTaught(ss: seq<SpellRef>, parent: SpellRef)
    requires forall i :: 0 <= i < |ss| ==> ss[i] < parent
    ensures forall x :: x in PassiveTraceEach(ss, parent) ==> x in IdsEach(ss, parent)
    decreases parent, 0, |ss|
  {
    if ss != [] {
      PassiveTraceTaught(ss[0]);
      PassiveTraceEachTaught(ss[1..], parent);
    }
  }

  /** `Replace(oldSpell, newSpell)`: forget the old spell's id, then teach
      the new spell, if there is one. */
  function ReplaceSpec(m: SpellMap, oldSpell: SpellRef, newSpell: Option<SpellRef>): SpellMap
  {
    var m' := m - {oldSpell.id};
    if newSpell.Some? then AddAll(m', newSpell.value) else m'
  }

  /** After a replacement the old id is known exactly when the new spell
      teaches it again; the ids neither spell concerns keep their entries. */
  lemma ReplaceEffect(m: SpellMap, oldSpell: SpellRef, newSpell: Option<SpellRef>)
    ensures var m' := ReplaceSpec(m, oldSpell, newSpell);
      var taught := if newSpell.Some? then Ids(newSpell.value) else {};
      && m'.Keys == (m.Keys - {oldSpell.id}) + taught
      && (oldSpell.id in m' <==> oldSpell.id in taught)
      && (forall k :: k in m && k != oldSpell.id && k !in taught ==> m'[k] == m[k])
  {
    if newSpell.Some? {
      AddAllEffect(m - {oldSpell.id}, newSpell.value);
    }
  }

  /** Removing a spell that teaches nothing else undoes teaching it to a
      collection that did not know its id. */
  lemma RemoveUndoesAdd(m: SpellMap, s: SpellRef)
    requires s.additionallyTaught == [] && s.id !in m
    ensures ReplaceSpec(AddAll(m, s), s, None) == m
  {
    AddAllEffect(m, s);
    assert Ids(s) == {s.id};
  }

  /** A map with a positive size has a key. */
  lemma NonEmptyMapHasKey<K, V>(m: map<K, V>)
    ensures |m| > 0 <==> exists k :: k in m
  {
    if |m| > 0 {
      assert m.Keys != {};
      var k :| k in m.Keys;
    }
  }

  class SpellCollection {
    /** `m_byId` */
    var byId: SpellMap

    constructor ()
      ensures byId == map[]
    {
      byId := map[];
    }

    /** The number of known ids. */
    function Count(): (n: nat)
      reads this
      ensures n == |byId.Keys|
      ensures n == 0 <==> byId == map[]
    {
      |byId|
    }

    function HasSpells(): (b: bool)
      reads this
      ensures b <==> |byId| > 0
      ensures b <==> exists k :: k in byId
    {
      NonEmptyMapHasKey(byId);
      |byId| > 0
    }

    function Contains(id: uint32): (b: bool)
      reads this
      ensures b <==> id in byId
    {
      id in byId
    }

    /** The indexer: the stored spell, or null when the id is unknown. */
    function Get(id: uint32): (r: Option<SpellRef>)
      reads this
      ensures id !in byId ==> r == None
      ensures id in byId ==> r == byId[id]
    {
      if id in byId then byId[id] else None
    }

    /** Teaches a spell and, through `OnAdd`, everything it teaches;
        `triggered` lists the passive spells cast on the owner. */
    method AddSpell(s: SpellRef) returns (triggered: seq<uint32>)
      modifies this
      ensures byId == AddAll(old(byId), s)
      ensures triggered == PassiveTrace(s)
      decreases s, 1
    {
      byId := byId[s.id := Some(s)];
      triggered := OnAdd(s);
    }

    method OnAdd(s: SpellRef) returns (triggered: seq<uint32>)
      modifies this
      ensures byId == AddEach(old(byId), s.additionallyTaught, s)
      ensures triggered == PassiveTrace(s)
      decreases s, 0
    {
      triggered := if s.isPassive then [s.id] else [];
      var taught := s.additionallyTaught;
      var i := 0;
      while i < |taught|
        invariant 0 <= i <= |taught|
        invariant AddEach(old(byId), taught, s) == AddEach(byId, taught[i..], s)
        invariant PassiveTrace(s) == triggered + PassiveTraceEach(taught[i..], s)
      {
        assert taught[i..][1..] == taught[i + 1..];
        var more := AddSpell(taught[i]);
        triggered := triggered + more;
        i := i + 1;
      }
    }

    /** `AddSpell(uint)` and `AddSpell(SpellId)`: teaches the registered
        spell; fails, changing nothing, when the id is not registered. */
    method AddSpellById(registry: Registry, id: uint32) returns (ok: bool, triggered: seq<uint32>)
      modifies this
      ensures ok <==> id in registry
      ensures ok ==> byId == AddAll(old(byId), registry[id]) && triggered == PassiveTrace(registry[id])
      ensures !ok ==> byId == old(byId) && triggered == []
    {
      var spell := Find(registry, id);
      if spell.None? {
        return false, [];
      }
      triggered := AddSpell(spell.value);
      ok := true;
    }

    /** `AddSpell(IEnumerable<Spell>)`: teaches the spells in order. */
    method AddSpells(spells: seq<SpellRef>) returns (triggered: seq<uint32>)
      modifies this
      ensures byId == AddList(old(byId), spells)
      ensures triggered == PassiveTraceList(spells)
    {
      triggered := [];
      var i := 0;
      while i < |spells|
        invariant 0 <= i <= |spells|
        invariant AddList(old(byId), spells) == AddList(byId, spells[i..])
        invariant PassiveTraceList(spells) == triggered + PassiveTraceList(spells[i..])
      {
        assert spells[i..][1..] == spells[i + 1..];
        var more := AddSpell(spells[i]);
        triggered := triggered + more;
        i := i + 1;
      }
    }

    /** `AddSpell(IEnumerable<SpellId>)` and `AddSpell(params SpellId[])`:
        teaches the registered spells in order and stops, with `ok` false,
        at the first id the registry does not know; the spells before it
        stay taught. */
    method AddSpellsById(registry: Registry, ids: seq<uint32>) returns (ok: bool, triggered: seq<uint32>)
      modifies this
      ensures ok <==> forall i :: 0 <= i < |ids| ==> ids[i] in registry
      ensures byId == AddList(old(byId), RegisteredPrefix(registry, ids))
      ensures triggered == PassiveTraceList(RegisteredPrefix(registry, ids))
    {
      triggered := [];
      var i := 0;
      while i < |ids|
        invariant 0 <= i <= |ids|
        invariant forall j :: 0 <= j < i ==> ids[j] in registry
        invariant AddList(old(byId), RegisteredPrefix(registry, ids))
               == AddList(byId, RegisteredPrefix(registry, ids[i..]))
        invariant PassiveTraceList(RegisteredPrefix(registry, ids))
               == triggered + PassiveTraceList(RegisteredPrefix(registry, ids[i..]))
      {
        assert ids[i..][1..] == ids[i + 1..];
        var added, more := AddSpellById(registry, ids[i]);
        if !added {
          assert RegisteredPrefix(registry, ids[i..]) == [];
          return false, triggered;
        }
        ghost var rest := RegisteredPrefix(registry, ids[i..]);
        assert rest[0] == registry[ids[i]] && rest[1..] == RegisteredPrefix(registry, ids[i + 1..]);
        triggered := triggered + more;
        i := i + 1;
      }
      ok := true;
    }

    /** `OnlyAdd(Spell)`: stores the spell without the cascade; fails,
        changing nothing, when the id is already known. */
    method OnlyAdd(s: SpellRef) returns (ok: bool)
      modifies this
      ensures ok <==> s.id !in old(byId)
      ensures byId == if ok then old(byId)[s.id := Some(s)] else old(byId)
    {
      if s.id in byId {
        return false;
      }
      byId := byId[s.id := Some(s)];
      ok := true;
    }

    /** `OnlyAdd(SpellId)`: stores the registered spell, or null when the
        registry does not know the id; fails when the id is already known. */
    method OnlyAddById(registry: Registry, id: uint32) returns (ok: bool)
      modifies this
      ensures ok <==> id !in old(byId)
      ensures byId == if ok then old(byId)[id := Find(registry, id)] else old(byId)
    {
      if id in byId {
        return false;
      }
      byId := byId[id := Find(registry, id)];
      ok := true;
    }

    /** `Replace(Spell, Spell)`: forgets the old spell's id, cancels its aura
        if it is passive (`cancelled`), then teaches the new spell if given. */
    method Replace(oldSpell: SpellRef, newSpell: Option<SpellRef>)
      returns (cancelled: bool, triggered: seq<uint32>)
      modifies this
      ensures byId == ReplaceSpec(old(byId), oldSpell, newSpell)
      ensures cancelled == oldSpell.isPassive
      ensures triggered == if newSpell.Some? then PassiveTrace(newSpell.value) else []
    {
      byId := byId - {oldSpell.id};
      cancelled := oldSpell.isPassive;
      triggered := [];
      if newSpell.Some? {
        triggered := AddSpell(newSpell.value);
      }
    }

    /** `Replace(SpellId, SpellId)`: only when the old id is known. A stored
        null under the old id fails (the source dereferences it), changing
        nothing. */
    method ReplaceById(registry: Registry, oldId: uint32, newId: uint32)
      returns (ok: bool, cancelled: bool, triggered: seq<uint32>)
      modifies this
      ensures ok <==> oldId !in old(byId) || old(byId)[oldId].Some?
      ensures oldId !in old(byId) || !ok ==> byId == old(byId) && !cancelled && triggered == []
      ensures oldId in old(byId) && ok ==>
        var oldSpell := old(byId)[oldId].value;
        && byId == ReplaceSpec(old(byId), oldSpell, Find(registry, newId))
        && cancelled == oldSpell.isPassive
        && triggered == (if Find(registry, newId).Some? then PassiveTrace(Find(registry, newId).value) else [])
    {
      var newSpell := Find(registry, newId);
      if oldId !in byId {
        return true, false, [];
      }
      var oldSpell := byId[oldId];
      if oldSpell.None? {
        return false, false, [];
      }
      cancelled, triggered := Replace(oldSpell.value, newSpell);
      ok := true;
    }

    /** `Remove(Spell)`. */
    method Remove(s: SpellRef) returns (cancelled: bool)
      modifies this
      ensures byId == old(byId) - {s.id}
      ensures cancelled == s.isPassive
    {
      var triggered;
      cancelled, triggered := Replace(s, None);
    }

    /** `Remove(SpellId)` and `Remove(uint)` (which answers true whenever it
        returns): removes the registered spell's id; fails, changing nothing,
        when the registry does not know the id. */
    method RemoveById(registry: Registry, id: uint32) returns (ok: bool, cancelled: bool)
      modifies this
      ensures ok <==> id in registry
      ensures ok ==> byId == old(byId) - {registry[id].id} && cancelled == registry[id].isPassive
      ensures !ok ==> byId == old(byId) && !cancelled
    {
      var spell := Find(registry, id);
      if spell.None? {
        return false, false;
      }
      cancelled := Remove(spell.value);
      ok := true;
    }

    method Clear()
      modifies this
      ensures byId == map[]
    {
      byId := map[];
    }
  }

  /** Teaching a list of spells in order. */
  function AddList(m: SpellMap, spells: seq<SpellRef>): SpellMap
    decreases |spells|
  {
    if spells == [] then m else AddList(AddAll(m, spells[0]), spells[1..])
  }

  function PassiveTraceList(spells: seq<SpellRef>): seq<uint32>
  {
    if spells == [] then [] else PassiveTrace(spells[0]) + PassiveTraceList(spells[1..])
  }

  /** The registered spells of the longest prefix of ids the registry knows. */
  function RegisteredPrefix(registry: Registry, ids: seq<uint32>): (r: seq<SpellRef>)
    ensures |r| <= |ids|
    ensures forall i :: 0 <= i < |r| ==> ids[i] in registry && r[i] == registry[ids[i]]
    ensures |r| == |ids| <==> forall i :: 0 <= i < |ids| ==> ids[i] in registry
  {
    if ids == [] || ids[0] !in registry then []
    else [registry[ids[0]]] + RegisteredPrefix(registry, ids[1..])
  }
}
