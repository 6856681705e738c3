/**
 * The web tool's identity classifier (second loop of
 * `generate_entries_from_xml`): a sub value and its main's layout give a
 * module, an object type and a global object number.
 */
module Identity {
  import opened Convention
  import opened Layout

  datatype Identity = Identity(moduleInMain: int, moduleGlobal: int, objectType: ObjectType, objectNo: int)

  /** `(sub - 1) // 80 + 1`: a sub on a module boundary belongs to the module it completes. */
  function ModuleInMain(sub: int): int { (sub - 1) / 80 + 1 }

  /** `(sub - 1) % 80 + 1`: the 1-based position inside the module. */
  function LocalInModule(sub: int): int { (sub - 1) % 80 + 1 }

  /**
   * Positions 1..64 of a module are lights, numbered after the main's light
   * offset; positions 65..80 are groups, numbered after its group offset.
   */
  function Classify(layout: MainLayout, sub: int): Identity
  {
    var moduleInMain := ModuleInMain(sub);
    var local := LocalInModule(sub);
    if local <= 64 then
      Identity(moduleInMain, layout.moduleOffset + moduleInMain, Light,
               layout.lightOffset + (moduleInMain - 1) * 64 + local)
    else
      Identity(moduleInMain, layout.moduleOffset + moduleInMain, Group,
               layout.groupOffset + (moduleInMain - 1) * 16 + (local - 64))
  }

  /** The position inside a module is 1..80 and, with the module, recovers the sub. */
  lemma ModulePosition(sub: int)
    requires sub >= 1
    ensures ModuleInMain(sub) >= 1
    ensures 1 <= LocalInModule(sub) <= 80
    ensures sub == (ModuleInMain(sub) - 1) * 80 + LocalInModule(sub)
  {
  }

  /** Which sub a (type, number) pair came from, given the main's layout. */
  function SubOf(layout: MainLayout, t: ObjectType, objectNo: int): int
  {
    match t
    case Light =>
      var k := objectNo - layout.lightOffset - 1;
      (k / 64) * 80 + k % 64 + 1
    case Group =>
      var k := objectNo - layout.groupOffset - 1;
      (k / 16) * 80 + 64 + k % 16 + 1
  }

  lemma DivMod64(q: int, r: int)
    requires 0 <= r < 64
    ensures (q * 64 + r) / 64 == q && (q * 64 + r) % 64 == r
  {
  }

  lemma DivMod16(q: int, r: int)
    requires 0 <= r < 16
    ensures (q * 16 + r) / 16 == q && (q * 16 + r) % 16 == r
  {
  }

  /** Classification is invertible: the object number and type give back the sub. */
  lemma ClassifyInverse(layout: MainLayout, sub: int)
    requires sub >= 1
    ensures SubOf(layout, Classify(layout, sub).objectType, Classify(layout, sub).objectNo) == sub
  {
    ModulePosition(sub);
    var q, local := ModuleInMain(sub) - 1, LocalInModule(sub);
    if local <= 64 {
      DivMod64(q, local - 1);
    } else {
      DivMod16(q, local - 65);
    }
  }

  /**
   * For a sub up to the main's max_sub, a light's number lies in
   * [light_offset + 1, light_offset + light_slots], a group's in
   * [group_offset + 1, group_offset + group_slots], and the global module in
   * [module_offset + 1, module_offset + modules].
   */
  lemma ClassifyInRange(mp: map<int, int>, m: int, sub: int)
    requires m in mp && 1 <= sub <= mp[m]
    ensures var l := LayoutOf(mp, m); var id := Classify(l, sub);
      && (id.objectType == Light ==> l.lightOffset + 1 <= id.objectNo <= l.lightOffset + l.lightSlots)
      && (id.objectType == Group ==> l.groupOffset + 1 <= id.objectNo <= l.groupOffset + l.groupSlots)
      && l.moduleOffset + 1 <= id.moduleGlobal <= l.moduleOffset + l.modules
  {
    var l := LayoutOf(mp, m);
    ModulePosition(sub);
    SlotsCover(mp[m], sub);
  }

  /**
   * The slot counts of a main whose highest sub is maxSub cover every
   * position up to maxSub (the arithmetic behind ClassifyInRange).
   */
  lemma SlotsCover(maxSub: int, sub: int)
    requires 1 <= sub <= maxSub
    ensures var q, local := ModuleInMain(sub) - 1, LocalInModule(sub);
      && (local <= 64 ==> q * 64 + local <= LightSlots(maxSub))
      && (local > 64 ==> q * 16 + (local - 64) <= GroupSlots(maxSub))
      && q + 1 <= ModuleCount(maxSub)
  {
    ModulePosition(sub);
    var q, local := ModuleInMain(sub) - 1, LocalInModule(sub);
    var full, rem := maxSub / 80, maxSub % 80;
    assert maxSub == full * 80 + rem && 0 <= rem < 80;
    assert sub == q * 80 + local;
    assert q <= full;
    if q == full {
      assert local <= rem;
    }
    SlotArithmetic(maxSub);
  }

  /**
   * Distinct (main, sub) pairs within their mains' ranges never receive the
   * same object of the same type, when all layouts come from one batch.
   */
  lemma IdentityUnique(mp: map<int, int>, m1: int, s1: int, m2: int, s2: int)
    requires forall k :: k in mp ==> mp[k] >= 0
    requires m1 in mp && 1 <= s1 <= mp[m1]
    requires m2 in mp && 1 <= s2 <= mp[m2]
    requires Classify(LayoutOf(mp, m1), s1).objectType == Classify(LayoutOf(mp, m2), s2).objectType
    requires Classify(LayoutOf(mp, m1), s1).objectNo == Classify(LayoutOf(mp, m2), s2).objectNo
    ensures m1 == m2 && s1 == s2
  {
    ClassifyInRange(mp, m1, s1);
    ClassifyInRange(mp, m2, s2);
    if m1 < m2 {
      OffsetsOrdered(mp, m1, m2);
    } else if m2 < m1 {
      OffsetsOrdered(mp, m2, m1);
    } else {
      ClassifyInverse(LayoutOf(mp, m1), s1);
      ClassifyInverse(LayoutOf(mp, m2), s2);
    }
  }

  /** Within one main, a larger sub of the same type gets a larger object number. */
  lemma ObjectNoWithinMain(l: MainLayout, s1: int, s2: int)
    requires 1 <= s1 < s2
    requires Classify(l, s1).objectType == Classify(l, s2).objectType
    ensures Classify(l, s1).objectNo < Classify(l, s2).objectNo
  {
    ModulePosition(s1);
    ModulePosition(s2);
    var q1, q2 := ModuleInMain(s1) - 1, ModuleInMain(s2) - 1;
    var p1, p2 := LocalInModule(s1), LocalInModule(s2);
    assert q1 <= q2;
    if q1 < q2 {
      if p1 <= 64 {
        assert q1 * 64 + p1 <= (q1 + 1) * 64 <= q2 * 64;
      } else {
        assert q1 * 16 + (p1 - 64) <= (q1 + 1) * 16 <= q2 * 16;
      }
    }
  }

  /**
   * Object numbers of one type increase with (main, sub): a pair that comes
   * first in that order gets the smaller number, across mains and within one.
   */
  lemma ObjectNoMonotone(mp: map<int, int>, m1: int, s1: int, m2: int, s2: int)
    requires forall k :: k in mp ==> mp[k] >= 0
    requires m1 in mp && 1 <= s1 <= mp[m1]
    requires m2 in mp && 1 <= s2 <= mp[m2]
    requires Classify(LayoutOf(mp, m1), s1).objectType == Classify(LayoutOf(mp, m2), s2).objectType
    requires m1 < m2 || (m1 == m2 && s1 < s2)
    ensures Classify(LayoutOf(mp, m1), s1).objectNo < Classify(LayoutOf(mp, m2), s2).objectNo
  {
    if m1 < m2 {
      ClassifyInRange(mp, m1, s1);
      ClassifyInRange(mp, m2, s2);
      OffsetsOrdered(mp, m1, m2);
    } else {
      ObjectNoWithinMain(LayoutOf(mp, m1), s1, s2);
    }
  }

  /** Main 1 alone with subs {1, 64, 65, 80}: 灯1, 灯64, 组1, 组16 in one module. */
  lemma SingleModuleExample()
    ensures var l := MainLayout(1, 80, 1, 64, 16, 0, 0, 0);
      && ModuleCount(80) == 1
      && Classify(l, 1) == Identity(1, 1, Light, 1)
      && Classify(l, 64) == Identity(1, 1, Light, 64)
      && Classify(l, 65) == Identity(1, 1, Group, 1)
      && Classify(l, 80) == Identity(1, 1, Group, 16)
  {
  }
}
