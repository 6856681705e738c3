/**
 * The web tool's layout resolver (`build_layout`): per main group, how many
 * 80-slot modules its highest sub needs, how many light and group slots
 * that gives, and the running offsets that make object numbers global.
 */
module Layout {
  // MODULE_SLOT_SIZE, LIGHTS_PER_MODULE and GROUPS_PER_MODULE.  The formulas
  // below write the literals so that the solver sees linear arithmetic.
  const ModuleSlotSize: int := 80
  const LightsPerModule: int := 64
  const GroupsPerModule: int := 16

  datatype MainLayout = MainLayout(
    main: int,
    maxSub: int,
    modules: int,
    lightSlots: int,
    groupSlots: int,
    lightOffset: int,
    groupOffset: int,
    moduleOffset: int)

  function Max(a: int, b: int): int { if a < b then b else a }
  function Min(a: int, b: int): int { if a < b then a else b }

  // ---------------------------------------------------------------------
  // Per-main slot arithmetic

  /** `max(1, ceil(max_sub / 80))`, with the ceiling taken in integers. */
  function ModuleCount(maxSub: int): int
  {
    Max(1, (maxSub + 80 - 1) / 80)
  }

  /** Full modules give 64 lights each; a partial one gives up to 64 more. */
  function LightSlots(maxSub: int): int
  {
    (maxSub / 80) * 64 + Min(maxSub % 80, 64)
  }

  /** Full modules give 16 groups each; a partial one gives what lies past slot 64. */
  function GroupSlots(maxSub: int): int
  {
    (maxSub / 80) * 16 + Max(0, maxSub % 80 - 64)
  }

  /**
   * The module count is the fewest modules (at least one) whose 80 slots
   * cover max_sub; the light and group slots split max_sub exactly and
   * fit the modules' capacity.
   */
  lemma SlotArithmetic(maxSub: int)
    requires maxSub >= 0
    ensures ModuleCount(maxSub) >= 1
    ensures 80 * ModuleCount(maxSub) >= maxSub
    ensures ModuleCount(maxSub) > 1 ==> 80 * (ModuleCount(maxSub) - 1) < maxSub
    ensures LightSlots(maxSub) + GroupSlots(maxSub) == maxSub
    ensures 0 <= LightSlots(maxSub) <= 64 * ModuleCount(maxSub)
    ensures 0 <= GroupSlots(maxSub) <= 16 * ModuleCount(maxSub)
  {
    var q, r := maxSub / 80, maxSub % 80;
    assert maxSub == 80 * q + r && 0 <= r < 80;
    assert q >= 0;
    var c := (maxSub + 79) / 80;
    if r == 0 {
      assert c == q;
    } else {
      assert c == q + 1;
    }
  }

  // ---------------------------------------------------------------------
  // Sorted enumeration of the mains (`sorted(main_to_max_sub)`)

  predicate Increasing(ks: seq<int>)
  {
    forall i, j :: 0 <= i < j < |ks| ==> ks[i] < ks[j]
  }

  lemma {:induction false} MinExists(s: set<int>)
    requires s != {}
    ensures exists m :: m in s && forall k :: k in s ==> m <= k
    decreases |s|
  {
    if forall y :: y !in s {
      assert false;
    }
    var x :| x in s;
    var rest := s - {x};
    if rest == {} {
      forall k | k in s ensures x <= k {
        assert k !in rest;
      }
    } else {
      MinExists(rest);
      var m :| m in rest && forall k :: k in rest ==> m <= k;
      var least := if x < m then x else m;
      forall k | k in s ensures least <= k {
        if k != x {
          assert k in rest;
        }
      }
      assert least in s;
    }
  }

  function SetMin(s: set<int>): (m: int)
    requires s != {}
    ensures m in s && forall k :: k in s ==> m <= k
  {
    MinExists(s);
    var m :| m in s && forall k :: k in s ==> m <= k;
    m
  }

  /** The elements of a finite set of integers in ascending order. */
  function SortedKeys(s: set<int>): (ks: seq<int>)
    ensures forall k :: k in ks <==> k in s
    decreases |s|
  {
    if s == {} then []
    else
      var m := SetMin(s);
      [m] + SortedKeys(s - {m})
  }

  /** The enumeration is ascending. */
  lemma {:induction false} SortedKeysIncreasing(s: set<int>)
    ensures Increasing(SortedKeys(s))
    decreases |s|
  {
    if s != {} {
      var m := SetMin(s);
      var rest := SortedKeys(s - {m});
      SortedKeysIncreasing(s - {m});
      assert SortedKeys(s) == [m] + rest;
      forall i | 0 < i < |[m] + rest|
        ensures m < ([m] + rest)[i]
      {
        assert ([m] + rest)[i] == rest[i - 1];
        assert rest[i - 1] in rest;
      }
    }
  }

  lemma HeadIn(s: seq<int>)
    requires s != []
    ensures s[0] in s
  {
  }

  /** Two ascending sequences with the same elements are the same sequence. */
  lemma {:induction false} IncreasingUnique(a: seq<int>, b: seq<int>)
    requires Increasing(a) && Increasing(b)
    requires forall k :: k in a <==> k in b
    ensures a == b
    decreases |a|
  {
    if a != [] && b != [] {
      assert a[0] in a && b[0] in b;
      assert a[0] in b;
      assert b[0] in a;
      assert a[0] == b[0];
      forall k ensures k in a[1..] <==> k in b[1..] {
        if k in a[1..] {
          assert k in b && k != b[0];
        }
        if k in b[1..] {
          assert k in a && k != a[0];
        }
      }
      IncreasingUnique(a[1..], b[1..]);
      assert a == [a[0]] + a[1..] && b == [b[0]] + b[1..];
    } else if a != [] {
      HeadIn(a);
      assert false;
    } else if b != [] {
      HeadIn(b);
      assert false;
    }
  }

  // ---------------------------------------------------------------------
  // Offsets as sums over strictly smaller mains

  /** Sum of `f(max_sub)` over the mains listed in `ks` (a key outside the map adds nothing). */
  function Total(mp: map<int, int>, ks: seq<int>, f: int -> int): int
  {
    if ks == [] then 0
    else
      var k := ks[|ks| - 1];
      Total(mp, ks[..|ks| - 1], f) + (if k in mp then f(mp[k]) else 0)
  }

  /** The mains of `mp` strictly below `m`, in ascending order. */
  function Below(mp: map<int, int>, m: int): seq<int>
  {
    SortedKeys(set k | k in mp && k < m)
  }

  lemma BelowMembers(mp: map<int, int>, m: int)
    ensures Increasing(Below(mp, m))
    ensures forall k :: k in Below(mp, m) <==> k in mp && k < m
  {
    SortedKeysIncreasing(set k | k in mp && k < m);
  }

  /**
   * The layout of main `m`: its slot counts, and offsets equal to the
   * totals of lights, groups and modules over every strictly smaller main.
   */
  function LayoutOf(mp: map<int, int>, m: int): MainLayout
    requires m in mp
  {
    var below := Below(mp, m);
    MainLayout(m, mp[m], ModuleCount(mp[m]), LightSlots(mp[m]), GroupSlots(mp[m]),
               Total(mp, below, LightSlots), Total(mp, below, GroupSlots), Total(mp, below, ModuleCount))
  }

  /** What `build_layout` must return: one layout per main, independent of any input order. */
  function LayoutSpec(mp: map<int, int>): (layouts: map<int, MainLayout>)
    ensures layouts.Keys == mp.Keys
  {
    map m | m in mp :: LayoutOf(mp, m)
  }

  /** In the ascending enumeration, the mains before position i are exactly the smaller ones. */
  lemma PrefixIsBelow(mp: map<int, int>, i: int)
    requires 0 <= i < |SortedKeys(mp.Keys)|
    ensures Below(mp, SortedKeys(mp.Keys)[i]) == SortedKeys(mp.Keys)[..i]
  {
    var ks := SortedKeys(mp.Keys);
    SortedKeysIncreasing(mp.Keys);
    forall k ensures k in ks[..i] <==> k in mp && k < ks[i] {
      if k in mp && k < ks[i] {
        assert k in ks;
        var j :| 0 <= j < |ks| && ks[j] == k;
      }
    }
    BelowMembers(mp, ks[i]);
    IncreasingUnique(Below(mp, ks[i]), ks[..i]);
  }

  /** Extending the prefix by one main adds that main's contribution to a total. */
  lemma TotalStep(mp: map<int, int>, ks: seq<int>, i: int, f: int -> int)
    requires forall j :: 0 <= j < |ks| ==> ks[j] in mp
    requires 0 <= i < |ks|
    ensures Total(mp, ks[..i + 1], f) == Total(mp, ks[..i], f) + f(mp[ks[i]])
  {
    assert ks[..i + 1][..i] == ks[..i];
  }

  /** The layout the loop records at position i is the one LayoutOf describes. */
  lemma LayoutStep(mp: map<int, int>, i: int, lightOffset: int, groupOffset: int, moduleOffset: int)
    requires 0 <= i < |SortedKeys(mp.Keys)|
    requires lightOffset == Total(mp, SortedKeys(mp.Keys)[..i], LightSlots)
    requires groupOffset == Total(mp, SortedKeys(mp.Keys)[..i], GroupSlots)
    requires moduleOffset == Total(mp, SortedKeys(mp.Keys)[..i], ModuleCount)
    ensures var m := SortedKeys(mp.Keys)[i];
      LayoutOf(mp, m) == MainLayout(m, mp[m], ModuleCount(mp[m]), LightSlots(mp[m]), GroupSlots(mp[m]),
                                    lightOffset, groupOffset, moduleOffset)
  {
    PrefixIsBelow(mp, i);
  }

  /** The layouts of the mains listed in `ks`. */
  function LayoutsOver(mp: map<int, int>, ks: seq<int>): map<int, MainLayout>
    requires forall i :: 0 <= i < |ks| ==> ks[i] in mp
  {
    map k | k in ks :: LayoutOf(mp, k)
  }

  lemma LayoutsOverStep(mp: map<int, int>, ks: seq<int>, i: int)
    requires forall j :: 0 <= j < |ks| ==> ks[j] in mp
    requires 0 <= i < |ks|
    ensures LayoutsOver(mp, ks[..i + 1]) == LayoutsOver(mp, ks[..i])[ks[i] := LayoutOf(mp, ks[i])]
  {
    assert ks[..i + 1] == ks[..i] + [ks[i]];
  }

  /** Recording main i's layout extends the recorded map from the first i mains to the first i + 1. */
  lemma RecordStep(mp: map<int, int>, i: int, layouts: map<int, MainLayout>)
    requires 0 <= i < |SortedKeys(mp.Keys)|
    requires layouts == LayoutsOver(mp, SortedKeys(mp.Keys)[..i])
    ensures var ks := SortedKeys(mp.Keys);
      layouts[ks[i] := LayoutOf(mp, ks[i])] == LayoutsOver(mp, ks[..i + 1])
  {
    LayoutsOverStep(mp, SortedKeys(mp.Keys), i);
  }

  lemma LayoutsOverAll(mp: map<int, int>)
    ensures LayoutsOver(mp, SortedKeys(mp.Keys)[..|SortedKeys(mp.Keys)|]) == LayoutSpec(mp)
  {
    var ks := SortedKeys(mp.Keys);
    assert ks[..|ks|] == ks;
  }

  /** The state of `build_layout`: recorded layouts and the light, group and module offsets. */
  type Progress = (map<int, MainLayout>, int, int, int)

  /** One iteration of `build_layout`: record main m with the running offsets, then advance them. */
  function Advance(mp: map<int, int>, p: Progress, m: int): Progress
    requires m in mp
  {
    (p.0[m := MainLayout(m, mp[m], ModuleCount(mp[m]), LightSlots(mp[m]), GroupSlots(mp[m]), p.1, p.2, p.3)],
     p.1 + LightSlots(mp[m]), p.2 + GroupSlots(mp[m]), p.3 + ModuleCount(mp[m]))
  }

  /** The state after visiting the mains of `ks` in order, from no layouts and zero offsets. */
  function Run(mp: map<int, int>, ks: seq<int>): Progress
    requires forall j :: 0 <= j < |ks| ==> ks[j] in mp
  {
    if ks == [] then (map[], 0, 0, 0) else Advance(mp, Run(mp, ks[..|ks| - 1]), ks[|ks| - 1])
  }

  /** The state after the first i mains in ascending order, as the specification describes it. */
  function PrefixState(mp: map<int, int>, i: int): Progress
    requires 0 <= i <= |SortedKeys(mp.Keys)|
  {
    var ks := SortedKeys(mp.Keys)[..i];
    (LayoutsOver(mp, ks), Total(mp, ks, LightSlots), Total(mp, ks, GroupSlots), Total(mp, ks, ModuleCount))
  }

  lemma AdvanceLayouts(mp: map<int, int>, i: int)
    requires 0 <= i < |SortedKeys(mp.Keys)|
    ensures Advance(mp, PrefixState(mp, i), SortedKeys(mp.Keys)[i]).0 == PrefixState(mp, i + 1).0
  {
    var p := PrefixState(mp, i);
    LayoutStep(mp, i, p.1, p.2, p.3);
    RecordStep(mp, i, p.0);
  }

  lemma AdvanceTotals(mp: map<int, int>, i: int)
    requires 0 <= i < |SortedKeys(mp.Keys)|
    ensures var a, q := Advance(mp, PrefixState(mp, i), SortedKeys(mp.Keys)[i]), PrefixState(mp, i + 1);
      a.1 == q.1 && a.2 == q.2 && a.3 == q.3
  {
    var ks := SortedKeys(mp.Keys);
    TotalStep(mp, ks, i, LightSlots);
    TotalStep(mp, ks, i, GroupSlots);
    TotalStep(mp, ks, i, ModuleCount);
  }

  /** Advancing past main i takes the specified state before it to the one after it. */
  lemma AdvancePrefix(mp: map<int, int>, i: int)
    requires 0 <= i < |SortedKeys(mp.Keys)|
    ensures Advance(mp, PrefixState(mp, i), SortedKeys(mp.Keys)[i]) == PrefixState(mp, i + 1)
  {
    AdvanceLayouts(mp, i);
    AdvanceTotals(mp, i);
  }

  /** Visiting the first i mains in ascending order records their layouts and sums their counts. */
  lemma {:induction false} RunPrefix(mp: map<int, int>, i: int)
    requires 0 <= i <= |SortedKeys(mp.Keys)|
    ensures Run(mp, SortedKeys(mp.Keys)[..i]) == PrefixState(mp, i)
  {
    var ks := SortedKeys(mp.Keys);
    if i == 0 {
      assert LayoutsOver(mp, ks[..0]) == map[];
    } else {
      RunPrefix(mp, i - 1);
      assert ks[..i][..i - 1] == ks[..i - 1];
      AdvancePrefix(mp, i - 1);
    }
  }

  /** Visiting every main gives the specified layouts. */
  lemma RunAll(mp: map<int, int>)
    ensures Run(mp, SortedKeys(mp.Keys)).0 == LayoutSpec(mp)
  {
    var ks := SortedKeys(mp.Keys);
    RunPrefix(mp, |ks|);
    LayoutsOverAll(mp);
    assert ks[..|ks|] == ks;
  }

  /**
   * `build_layout`: visits the mains in ascending order, records the running
   * offsets in each layout before advancing them by that main's counts.
   */
  method BuildLayout(mainToMaxSub: map<int, int>) returns (layouts: map<int, MainLayout>)
    ensures layouts == LayoutSpec(mainToMaxSub)
  {
    var mains := SortedKeys(mainToMaxSub.Keys);
    layouts := map[];
    var lightOffset, groupOffset, moduleOffset := 0, 0, 0;
    for i := 0 to |mains|
      invariant (layouts, lightOffset, groupOffset, moduleOffset) == Run(mainToMaxSub, mains[..i])
    {
      var main := mains[i];
      var maxSub := mainToMaxSub[main];
      var modules := ModuleCount(maxSub);
      var lightSlots := LightSlots(maxSub);
      var groupSlots := GroupSlots(maxSub);
      assert mains[..i + 1][..i] == mains[..i];
      layouts := layouts[main := MainLayout(main, maxSub, modules, lightSlots, groupSlots,
                                            lightOffset, groupOffset, moduleOffset)];
      lightOffset := lightOffset + lightSlots;
      groupOffset := groupOffset + groupSlots;
      moduleOffset := moduleOffset + modules;
    }
    assert mains[..|mains|] == mains;
    RunAll(mainToMaxSub);
  }

  // ---------------------------------------------------------------------
  // Properties of the offsets

  lemma {:induction false} TotalMonotone(mp: map<int, int>, ks: seq<int>, i: int, j: int, f: int -> int)
    requires forall i :: 0 <= i < |ks| ==> ks[i] in mp
    requires forall k :: k in mp ==> f(mp[k]) >= 0
    requires 0 <= i <= j <= |ks|
    ensures Total(mp, ks[..i], f) <= Total(mp, ks[..j], f)
    decreases j - i
  {
    if i < j {
      TotalMonotone(mp, ks, i, j - 1, f);
      assert ks[..j][..j - 1] == ks[..j - 1];
    }
  }

  lemma SlotsNonNegative(maxSub: int)
    requires maxSub >= 0
    ensures LightSlots(maxSub) >= 0 && GroupSlots(maxSub) >= 0 && ModuleCount(maxSub) >= 1
  {
  }

  lemma SlotsAllNonNegative(mp: map<int, int>)
    requires forall k :: k in mp ==> mp[k] >= 0
    ensures forall k :: k in mp ==> LightSlots(mp[k]) >= 0
    ensures forall k :: k in mp ==> GroupSlots(mp[k]) >= 0
    ensures forall k :: k in mp ==> ModuleCount(mp[k]) >= 0
  {
    forall k | k in mp
      ensures LightSlots(mp[k]) >= 0 && GroupSlots(mp[k]) >= 0 && ModuleCount(mp[k]) >= 0
    {
      SlotsNonNegative(mp[k]);
    }
  }

  /** With non-negative contributions, everything up to and including position i fits below position j > i. */
  lemma TotalBefore(mp: map<int, int>, ks: seq<int>, i: int, j: int, f: int -> int)
    requires forall k :: 0 <= k < |ks| ==> ks[k] in mp
    requires forall k :: k in mp ==> f(mp[k]) >= 0
    requires 0 <= i < j <= |ks|
    ensures Total(mp, ks[..i], f) + f(mp[ks[i]]) <= Total(mp, ks[..j], f)
  {
    TotalStep(mp, ks, i, f);
    TotalMonotone(mp, ks, i + 1, j, f);
  }

  /**
   * When every main has max_sub >= 0, a smaller main's lights, groups and
   * modules all end at or before the point where a larger main's begin.
   */
  lemma OffsetsOrdered(mp: map<int, int>, m1: int, m2: int)
    requires forall k :: k in mp ==> mp[k] >= 0
    requires m1 in mp && m2 in mp && m1 < m2
    ensures LayoutOf(mp, m1).lightOffset + LayoutOf(mp, m1).lightSlots <= LayoutOf(mp, m2).lightOffset
    ensures LayoutOf(mp, m1).groupOffset + LayoutOf(mp, m1).groupSlots <= LayoutOf(mp, m2).groupOffset
    ensures LayoutOf(mp, m1).moduleOffset + LayoutOf(mp, m1).modules <= LayoutOf(mp, m2).moduleOffset
  {
    var ks := SortedKeys(mp.Keys);
    var i := OffsetsAtPosition(mp, m1);
    var j := OffsetsAtPosition(mp, m2);
    SortedKeysIncreasing(mp.Keys);
    assert i < j;
    SlotsAllNonNegative(mp);
    TotalBefore(mp, ks, i, j, LightSlots);
    TotalBefore(mp, ks, i, j, GroupSlots);
    TotalBefore(mp, ks, i, j, ModuleCount);
  }

  /** Each main sits at some position of the ascending enumeration, and its offsets are the totals before it. */
  lemma OffsetsAtPosition(mp: map<int, int>, m: int) returns (i: int)
    requires m in mp
    ensures 0 <= i < |SortedKeys(mp.Keys)| && SortedKeys(mp.Keys)[i] == m
    ensures LayoutOf(mp, m).lightOffset == Total(mp, SortedKeys(mp.Keys)[..i], LightSlots)
    ensures LayoutOf(mp, m).groupOffset == Total(mp, SortedKeys(mp.Keys)[..i], GroupSlots)
    ensures LayoutOf(mp, m).moduleOffset == Total(mp, SortedKeys(mp.Keys)[..i], ModuleCount)
  {
    var ks := SortedKeys(mp.Keys);
    assert m in ks;
    i :| 0 <= i < |ks| && ks[i] == m;
    PrefixIsBelow(mp, i);
  }

  /** The smallest main starts every count at zero. */
  lemma SmallestMainStartsAtZero(mp: map<int, int>, m: int)
    requires m in mp && forall k :: k in mp ==> m <= k
    ensures LayoutOf(mp, m).lightOffset == 0
    ensures LayoutOf(mp, m).groupOffset == 0
    ensures LayoutOf(mp, m).moduleOffset == 0
  {
    BelowMembers(mp, m);
  }

  /**
   * The two-main example: main 1 with max_sub 80 and main 2 with max_sub 10
   * each take one module, and main 2's lights are numbered from 65.
   */
  lemma TwoMainExample()
    ensures var mp := map[1 := 80, 2 := 10];
      && LayoutOf(mp, 1) == MainLayout(1, 80, 1, 64, 16, 0, 0, 0)
      && LayoutOf(mp, 2) == MainLayout(2, 10, 1, 10, 0, 64, 16, 1)
  {
    var mp := map[1 := 80, 2 := 10];
    BelowMembers(mp, 1);
    BelowMembers(mp, 2);
    IncreasingUnique(Below(mp, 1), []);
    IncreasingUnique(Below(mp, 2), [1]);
    assert [1][..0] == [];
  }
}
