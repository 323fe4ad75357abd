/**
 * UAppearanceAssembler: picks the rows of the appearance data tables that
 * make up a monster (its skeleton, its parts and its palette), and the
 * size and anchor arithmetic used to place them.
 *
 * A data table is `Option<seq<Option<T>>>`: None is a null table pointer,
 * and the rows are the pointers GetAllRows hands back, each of which the
 * source checks for null before use.
 */
module AppearanceAssemblers {
  import opened Wrappers
  import opened Vectors

  /** EHabitatType. */
  datatype Habitat = Forest | Desert | Tundra | Cave | Volcano | Swamp

  /** ESizeClass, smallest first. */
  datatype SizeClass = Tiny | Small | Medium | Large | Giant

  /** The fields of FEcologyAttributes that appearance selection reads. */
  datatype EcologyAttributes = EcologyAttributes(habitat: Habitat, sizeClass: SizeClass)

  /** FCombatTrait: its ID and the IDs of the parts that show it. */
  datatype CombatTrait = CombatTrait(traitId: string, associatedPartIds: seq<string>)

  /** FCombatAttributes. */
  datatype CombatAttributes = CombatAttributes(traits: seq<CombatTrait>)

  /** FSkeletonData without its flipbook assets. */
  datatype SkeletonData = SkeletonData(skeletonId: string, habitat: Habitat, sizeClass: SizeClass, baseScale: real)

  /** FPartData without its sprite and rotation. */
  datatype PartData = PartData(partId: string, anchorPoint: string, relativeLocation: Vec3,
                               relativeScale: Vec3, zOrder: int)

  /** FPaletteData. */
  datatype PaletteData = PaletteData(habitat: Habitat, primaryColor: LinearColor,
                                     secondaryColor: LinearColor, accentColor: LinearColor)

  type Table<T> = Option<seq<Option<T>>>

  /*
   * Rows satisfying a test: the non-null rows in table order, and the
   * first of them.
   */

  /** The row is non-null and passes the test. */
  predicate Passes<T>(row: Option<T>, test: T -> bool)
  {
    row.Some? && test(row.value)
  }

  /** The rows that pass the test, in table order. */
  function Keep<T>(rows: seq<Option<T>>, test: T -> bool): (r: seq<Option<T>>)
    ensures |r| <= |rows|
    ensures forall k :: 0 <= k < |r| ==> Passes(r[k], test)
  {
    if |rows| == 0 then []
    else Keep(rows[..|rows| - 1], test) + (if Passes(rows[|rows| - 1], test) then [rows[|rows| - 1]] else [])
  }

  /** Nothing is kept exactly when no row passes. */
  lemma {:induction false} KeepEmpty<T>(rows: seq<Option<T>>, test: T -> bool)
    ensures |Keep(rows, test)| == 0 <==> forall i :: 0 <= i < |rows| ==> !Passes(rows[i], test)
  {
    if |rows| > 0 {
      var init := rows[..|rows| - 1];
      KeepEmpty(init, test);
      assert forall i :: 0 <= i < |init| ==> init[i] == rows[i];
    }
  }

  /** The first row kept is the first row of the table that passes. */
  lemma {:induction false} KeepFirst<T>(rows: seq<Option<T>>, test: T -> bool)
    requires |Keep(rows, test)| > 0
    ensures exists i :: 0 <= i < |rows| && rows[i] == Keep(rows, test)[0]
                        && forall j :: 0 <= j < i ==> !Passes(rows[j], test)
  {
    var init := rows[..|rows| - 1];
    assert forall i :: 0 <= i < |init| ==> init[i] == rows[i];
    if |Keep(init, test)| > 0 {
      KeepFirst(init, test);
      var i :| 0 <= i < |init| && init[i] == Keep(init, test)[0] && forall j :: 0 <= j < i ==> !Passes(init[j], test);
      assert rows[i] == Keep(rows, test)[0];
    } else {
      KeepEmpty(init, test);
      assert rows[|rows| - 1] == Keep(rows, test)[0];
    }
  }

  /** The first row that passes the test, None when there is none. */
  function FirstWhere<T>(rows: seq<Option<T>>, test: T -> bool): (r: Option<T>)
    ensures r.Some? ==> test(r.value) && r in rows
  {
    if |rows| == 0 then None
    else if Passes(rows[0], test) then rows[0]
    else FirstWhere(rows[1..], test)
  }

  /** A row is found exactly when some row passes, and it is the first that does. */
  lemma {:induction false} FirstWhereIsFirst<T>(rows: seq<Option<T>>, test: T -> bool)
    ensures FirstWhere(rows, test).None? <==> forall i :: 0 <= i < |rows| ==> !Passes(rows[i], test)
    ensures FirstWhere(rows, test).Some? ==>
              exists i :: 0 <= i < |rows| && rows[i] == FirstWhere(rows, test)
                          && forall j :: 0 <= j < i ==> !Passes(rows[j], test)
  {
    if |rows| > 0 && !Passes(rows[0], test) {
      var tail := rows[1..];
      FirstWhereIsFirst(tail, test);
      assert forall i :: 0 <= i < |tail| ==> tail[i] == rows[i + 1];
      if FirstWhere(tail, test).Some? {
        var i :| 0 <= i < |tail| && tail[i] == FirstWhere(tail, test) && forall j :: 0 <= j < i ==> !Passes(tail[j], test);
        assert rows[i + 1] == FirstWhere(rows, test);
        assert forall j :: 0 <= j < i + 1 ==> !Passes(rows[j], test) by {
          forall j | 0 <= j < i + 1
            ensures !Passes(rows[j], test)
          {
            if j > 0 {
              assert rows[j] == tail[j - 1];
            }
          }
        }
      } else {
        forall i | 0 <= i < |rows|
          ensures !Passes(rows[i], test)
        {
          if i > 0 {
            assert rows[i] == tail[i - 1];
          }
        }
      }
    }
  }

  /** Searching from row i on finds what searching the whole table finds, once the rows before i all fail. */
  lemma {:induction false} FirstWhereSkip<T>(rows: seq<Option<T>>, test: T -> bool, i: nat)
    requires i < |rows| && !Passes(rows[i], test)
    ensures FirstWhere(rows[i..], test) == FirstWhere(rows[i + 1..], test)
  {
    assert rows[i..][1..] == rows[i + 1..];
  }

  /*
   * SelectSkeleton.
   */

  /** The skeleton test: the habitat matches and, when a size is given, the size class too. */
  function Fits(habitat: Habitat, size: Option<SizeClass>): SkeletonData -> bool
  {
    (s: SkeletonData) => s.habitat == habitat && (size.None? || s.sizeClass == size.value)
  }

  /** The skeleton SelectSkeleton chooses, None when it returns false. */
  function ChooseSkeleton(eco: EcologyAttributes, table: Table<SkeletonData>): Option<SkeletonData>
  {
    if table.None? then None
    else
      var rows := table.value;
      var exact := Keep(rows, Fits(eco.habitat, Some(eco.sizeClass)));
      var byHabitat := Keep(rows, Fits(eco.habitat, None));
      var matching := if |exact| > 0 then exact else if |byHabitat| > 0 then byHabitat else rows;
      if |matching| > 0 && matching[0].Some? then Some(matching[0].value) else None
  }

  /** A row matching habitat and size also matches habitat alone. */
  lemma ExactFitsHabitat(habitat: Habitat, size: SizeClass, row: Option<SkeletonData>)
    ensures Passes(row, Fits(habitat, Some(size))) ==> Passes(row, Fits(habitat, None))
  {
  }

  /**
   * SelectSkeleton fails exactly when the table is null, or no row has the
   * habitat and the first row is missing (an empty table or a null first
   * row).
   */
  lemma SkeletonFails(eco: EcologyAttributes, table: Table<SkeletonData>)
    ensures ChooseSkeleton(eco, table).None? <==>
              table.None?
              || ((forall i :: 0 <= i < |table.value| ==> !Passes(table.value[i], Fits(eco.habitat, None)))
                  && (|table.value| == 0 || table.value[0].None?))
  {
    if table.Some? {
      var rows := table.value;
      KeepEmpty(rows, Fits(eco.habitat, Some(eco.sizeClass)));
      KeepEmpty(rows, Fits(eco.habitat, None));
      forall i | 0 <= i < |rows|
        ensures Passes(rows[i], Fits(eco.habitat, Some(eco.sizeClass))) ==> Passes(rows[i], Fits(eco.habitat, None))
      {
        ExactFitsHabitat(eco.habitat, eco.sizeClass, rows[i]);
      }
    }
  }

  /** When some row matches habitat and size, the choice is the first such row. */
  lemma SkeletonPrefersExact(eco: EcologyAttributes, rows: seq<Option<SkeletonData>>, i: nat)
    requires i < |rows| && Passes(rows[i], Fits(eco.habitat, Some(eco.sizeClass)))
    ensures ChooseSkeleton(eco, Some(rows)).Some?
    ensures ChooseSkeleton(eco, Some(rows)).value.habitat == eco.habitat
    ensures ChooseSkeleton(eco, Some(rows)).value.sizeClass == eco.sizeClass
    ensures exists k :: 0 <= k < |rows| && rows[k] == ChooseSkeleton(eco, Some(rows))
                        && forall j :: 0 <= j < k ==> !Passes(rows[j], Fits(eco.habitat, Some(eco.sizeClass)))
  {
    var test := Fits(eco.habitat, Some(eco.sizeClass));
    KeepEmpty(rows, test);
    KeepFirst(rows, test);
  }

  /** When no row matches both but some row has the habitat, the choice is the first row with the habitat. */
  lemma SkeletonPrefersHabitat(eco: EcologyAttributes, rows: seq<Option<SkeletonData>>, i: nat)
    requires forall k :: 0 <= k < |rows| ==> !Passes(rows[k], Fits(eco.habitat, Some(eco.sizeClass)))
    requires i < |rows| && Passes(rows[i], Fits(eco.habitat, None))
    ensures ChooseSkeleton(eco, Some(rows)).Some?
    ensures ChooseSkeleton(eco, Some(rows)).value.habitat == eco.habitat
    ensures exists k :: 0 <= k < |rows| && rows[k] == ChooseSkeleton(eco, Some(rows))
                        && forall j :: 0 <= j < k ==> !Passes(rows[j], Fits(eco.habitat, None))
  {
    KeepEmpty(rows, Fits(eco.habitat, Some(eco.sizeClass)));
    KeepEmpty(rows, Fits(eco.habitat, None));
    KeepFirst(rows, Fits(eco.habitat, None));
  }

  /** Whenever some row has the habitat, the chosen skeleton has it. */
  lemma SkeletonKeepsHabitat(eco: EcologyAttributes, rows: seq<Option<SkeletonData>>, i: nat)
    requires i < |rows| && Passes(rows[i], Fits(eco.habitat, None))
    ensures ChooseSkeleton(eco, Some(rows)).Some?
    ensures ChooseSkeleton(eco, Some(rows)).value.habitat == eco.habitat
  {
    var exact := Fits(eco.habitat, Some(eco.sizeClass));
    if k :| 0 <= k < |rows| && Passes(rows[k], exact) {
      SkeletonPrefersExact(eco, rows, k);
    } else {
      SkeletonPrefersHabitat(eco, rows, i);
    }
  }

  /** With no row of the habitat, the choice is the first row of the table. */
  lemma SkeletonFallsBack(eco: EcologyAttributes, rows: seq<Option<SkeletonData>>)
    requires forall k :: 0 <= k < |rows| ==> !Passes(rows[k], Fits(eco.habitat, None))
    ensures ChooseSkeleton(eco, Some(rows)) == if |rows| > 0 then rows[0] else None
  {
    KeepEmpty(rows, Fits(eco.habitat, None));
    forall k | 0 <= k < |rows|
      ensures !Passes(rows[k], Fits(eco.habitat, Some(eco.sizeClass)))
    {
      ExactFitsHabitat(eco.habitat, eco.sizeClass, rows[k]);
    }
    KeepEmpty(rows, Fits(eco.habitat, Some(eco.sizeClass)));
  }

  /**
   * SelectSkeleton: the rows matching habitat and size; failing those, the
   * rows matching the habitat; failing those, all rows; the first of them
   * if it is non-null.
   */
  method SelectSkeleton(eco: EcologyAttributes, table: Table<SkeletonData>) returns (r: Option<SkeletonData>)
    ensures r == ChooseSkeleton(eco, table)
  {
    if table.None? {
      return None;
    }
    var all := table.value;
    var matching: seq<Option<SkeletonData>> := [];
    for i := 0 to |all|
      invariant matching == Keep(all[..i], Fits(eco.habitat, Some(eco.sizeClass)))
    {
      assert all[..i + 1][..i] == all[..i];
      if all[i].Some? && all[i].value.habitat == eco.habitat && all[i].value.sizeClass == eco.sizeClass {
        matching := matching + [all[i]];
      }
    }
    assert all[..|all|] == all;
    if |matching| == 0 {
      for i := 0 to |all|
        invariant matching == Keep(all[..i], Fits(eco.habitat, None))
      {
        assert all[..i + 1][..i] == all[..i];
        if all[i].Some? && all[i].value.habitat == eco.habitat {
          matching := matching + [all[i]];
        }
      }
    }
    if |matching| == 0 {
      matching := all;
    }
    if |matching| > 0 && matching[0].Some? {
      return Some(matching[0].value);
    }
    return None;
  }

  /*
   * SelectParts.
   */

  /** The part test: the row's PartID is the given ID. */
  function HasPartId(id: string): PartData -> bool
  {
    (p: PartData) => p.partId == id
  }

  /** The first row with the given PartID, as a list of zero or one parts. */
  function PartOf(rows: seq<Option<PartData>>, id: string): (r: seq<PartData>)
    ensures |r| <= 1
  {
    var found := FirstWhere(rows, HasPartId(id));
    if found.Some? then [found.value] else []
  }

  /** The parts found for a list of IDs, in ID order. */
  function PartsForIds(rows: seq<Option<PartData>>, ids: seq<string>): seq<PartData>
  {
    if |ids| == 0 then [] else PartsForIds(rows, ids[..|ids| - 1]) + PartOf(rows, ids[|ids| - 1])
  }

  /** The parts found for a list of traits, trait by trait. */
  function PartsForTraits(rows: seq<Option<PartData>>, traits: seq<CombatTrait>): seq<PartData>
  {
    if |traits| == 0 then []
    else PartsForTraits(rows, traits[..|traits| - 1]) + PartsForIds(rows, traits[|traits| - 1].associatedPartIds)
  }

  /** The parts SelectParts returns: none for a null table. */
  function SelectedParts(combat: CombatAttributes, table: Table<PartData>): seq<PartData>
  {
    if table.None? then [] else PartsForTraits(table.value, combat.traits)
  }

  /** The number of part IDs over all traits. */
  function TotalIds(traits: seq<CombatTrait>): nat
  {
    if |traits| == 0 then 0 else TotalIds(traits[..|traits| - 1]) + |traits[|traits| - 1].associatedPartIds|
  }

  /** Every ID of the list has a row in the table. */
  predicate AllKnown(rows: seq<Option<PartData>>, ids: seq<string>)
  {
    forall n :: 0 <= n < |ids| ==> FirstWhere(rows, HasPartId(ids[n])).Some?
  }

  /** At most one part per ID, exactly one per ID when every ID is known. */
  lemma {:induction false} PartsForIdsCount(rows: seq<Option<PartData>>, ids: seq<string>)
    ensures |PartsForIds(rows, ids)| <= |ids|
    ensures AllKnown(rows, ids) ==> |PartsForIds(rows, ids)| == |ids|
  {
    if |ids| > 0 {
      var init := ids[..|ids| - 1];
      PartsForIdsCount(rows, init);
      assert AllKnown(rows, ids) ==> AllKnown(rows, init) by {
        assert forall n :: 0 <= n < |init| ==> init[n] == ids[n];
      }
    }
  }

  /** At most one part per ID over all traits, exactly one per ID when every ID is known. */
  lemma {:induction false} PartsForTraitsCount(rows: seq<Option<PartData>>, traits: seq<CombatTrait>)
    ensures |PartsForTraits(rows, traits)| <= TotalIds(traits)
    ensures (forall t :: 0 <= t < |traits| ==> AllKnown(rows, traits[t].associatedPartIds))
            ==> |PartsForTraits(rows, traits)| == TotalIds(traits)
  {
    if |traits| > 0 {
      var init := traits[..|traits| - 1];
      PartsForTraitsCount(rows, init);
      PartsForIdsCount(rows, traits[|traits| - 1].associatedPartIds);
      assert forall t :: 0 <= t < |init| ==> init[t] == traits[t];
    }
  }

  /** SelectParts returns at most one part per part ID, and exactly one per ID when the table has every ID. */
  lemma SelectedPartsCount(combat: CombatAttributes, table: Table<PartData>)
    ensures |SelectedParts(combat, table)| <= TotalIds(combat.traits)
    ensures table.Some? && (forall t :: 0 <= t < |combat.traits| ==> AllKnown(table.value, combat.traits[t].associatedPartIds))
            ==> |SelectedParts(combat, table)| == TotalIds(combat.traits)
  {
    if table.Some? {
      PartsForTraitsCount(table.value, combat.traits);
    }
  }

  /** Each part found for a list of IDs is a row of the table whose PartID is one of the IDs. */
  lemma {:induction false} PartsForIdsFromTable(rows: seq<Option<PartData>>, ids: seq<string>)
    ensures forall p :: p in PartsForIds(rows, ids) ==> Some(p) in rows && p.partId in ids
  {
    if |ids| > 0 {
      var init := ids[..|ids| - 1];
      PartsForIdsFromTable(rows, init);
      assert forall id :: id in init ==> id in ids;
    }
  }

  /** Each part found for a list of traits is a row of the table whose PartID belongs to one of the traits. */
  lemma {:induction false} PartsForTraitsFromTable(rows: seq<Option<PartData>>, traits: seq<CombatTrait>)
    ensures forall p :: p in PartsForTraits(rows, traits) ==>
              Some(p) in rows && exists t :: 0 <= t < |traits| && p.partId in traits[t].associatedPartIds
  {
    if |traits| > 0 {
      var init := traits[..|traits| - 1];
      PartsForTraitsFromTable(rows, init);
      PartsForIdsFromTable(rows, traits[|traits| - 1].associatedPartIds);
      assert forall t :: 0 <= t < |init| ==> init[t] == traits[t];
    }
  }

  /** A null table selects nothing; otherwise every selected part is a table row whose PartID some trait asks for. */
  lemma SelectedPartsFromTable(combat: CombatAttributes, table: Table<PartData>)
    ensures table.None? ==> SelectedParts(combat, table) == []
    ensures forall p :: p in SelectedParts(combat, table) ==>
              table.Some? && Some(p) in table.value
              && exists t :: 0 <= t < |combat.traits| && p.partId in combat.traits[t].associatedPartIds
  {
    if table.Some? {
      PartsForTraitsFromTable(table.value, combat.traits);
    }
  }

  /** The inner search: the first non-null row with the given PartID, appended when there is one. */
  method AddFirstPart(all: seq<Option<PartData>>, id: string, selected: seq<PartData>) returns (r: seq<PartData>)
    ensures r == selected + PartOf(all, id)
  {
    r := selected;
    for i := 0 to |all|
      invariant FirstWhere(all[i..], HasPartId(id)) == FirstWhere(all, HasPartId(id))
    {
      if all[i].Some? && all[i].value.partId == id {
        assert FirstWhere(all[i..], HasPartId(id)) == all[i];
        r := r + [all[i].value];
        return;
      }
      FirstWhereSkip(all, HasPartId(id), i);
    }
  }

  /** The middle loop: the parts for each part ID of one trait, appended in ID order. */
  method AddPartsForIds(all: seq<Option<PartData>>, ids: seq<string>, selected: seq<PartData>) returns (r: seq<PartData>)
    ensures r == selected + PartsForIds(all, ids)
  {
    r := selected;
    for n := 0 to |ids|
      invariant r == selected + PartsForIds(all, ids[..n])
    {
      assert ids[..n + 1][..n] == ids[..n];
      r := AddFirstPart(all, ids[n], r);
    }
    assert ids[..|ids|] == ids;
  }

  /** SelectParts: for each trait, for each of its part IDs, the first row with that PartID. */
  method SelectParts(combat: CombatAttributes, table: Table<PartData>) returns (selected: seq<PartData>)
    ensures selected == SelectedParts(combat, table)
  {
    selected := [];
    if table.None? {
      return;
    }
    var all := table.value;
    var traits := combat.traits;
    for t := 0 to |traits|
      invariant selected == PartsForTraits(all, traits[..t])
    {
      assert traits[..t + 1][..t] == traits[..t];
      selected := AddPartsForIds(all, traits[t].associatedPartIds, selected);
    }
    assert traits[..|traits|] == traits;
  }

  /*
   * GetPaletteForHabitat.
   */

  /** The palette test: the row's habitat is the given one. */
  function ForHabitat(habitat: Habitat): PaletteData -> bool
  {
    (p: PaletteData) => p.habitat == habitat
  }

  /** The built-in palette of each habitat, opaque. */
  function DefaultPalette(habitat: Habitat): (r: PaletteData)
    ensures r.habitat == habitat
    ensures r.primaryColor.a == 1.0 && r.secondaryColor.a == 1.0 && r.accentColor.a == 1.0
  {
    match habitat
    case Forest => PaletteData(habitat, LinearColor(0.2, 0.8, 0.2, 1.0), LinearColor(0.4, 0.6, 0.3, 1.0),
                               LinearColor(0.8, 0.7, 0.3, 1.0))
    case Desert => PaletteData(habitat, LinearColor(0.9, 0.7, 0.3, 1.0), LinearColor(0.7, 0.5, 0.2, 1.0),
                               LinearColor(1.0, 0.9, 0.7, 1.0))
    case Tundra => PaletteData(habitat, LinearColor(0.7, 0.9, 1.0, 1.0), LinearColor(0.5, 0.7, 0.9, 1.0),
                               LinearColor(0.9, 0.95, 1.0, 1.0))
    case Cave => PaletteData(habitat, LinearColor(0.4, 0.4, 0.5, 1.0), LinearColor(0.3, 0.3, 0.4, 1.0),
                             LinearColor(0.6, 0.6, 0.7, 1.0))
    case Volcano => PaletteData(habitat, LinearColor(1.0, 0.3, 0.1, 1.0), LinearColor(0.8, 0.2, 0.0, 1.0),
                                LinearColor(1.0, 0.7, 0.2, 1.0))
    case Swamp => PaletteData(habitat, LinearColor(0.4, 0.6, 0.3, 1.0), LinearColor(0.3, 0.5, 0.2, 1.0),
                              LinearColor(0.6, 0.7, 0.4, 1.0))
  }

  /** The palette GetPaletteForHabitat gives, None when it returns false. */
  function PaletteFor(habitat: Habitat, table: Table<PaletteData>): Option<PaletteData>
  {
    if table.None? then None
    else
      var found := FirstWhere(table.value, ForHabitat(habitat));
      if found.Some? then found else Some(DefaultPalette(habitat))
  }

  /**
   * Any non-null table gives a palette of the requested habitat: the first
   * row of that habitat when there is one, the built-in palette otherwise.
   */
  lemma PaletteAlwaysFound(habitat: Habitat, table: Table<PaletteData>)
    ensures PaletteFor(habitat, table).Some? <==> table.Some?
    ensures table.Some? ==> PaletteFor(habitat, table).value.habitat == habitat
    ensures table.Some? && (exists i :: 0 <= i < |table.value| && Passes(table.value[i], ForHabitat(habitat))) ==>
              exists i :: 0 <= i < |table.value| && table.value[i] == PaletteFor(habitat, table)
                          && forall j :: 0 <= j < i ==> !Passes(table.value[j], ForHabitat(habitat))
    ensures table.Some? && (forall i :: 0 <= i < |table.value| ==> !Passes(table.value[i], ForHabitat(habitat))) ==>
              PaletteFor(habitat, table) == Some(DefaultPalette(habitat))
  {
    if table.Some? {
      FirstWhereIsFirst(table.value, ForHabitat(habitat));
    }
  }

  /** GetPaletteForHabitat: the first row of the habitat, else the habitat's built-in palette. */
  method GetPaletteForHabitat(habitat: Habitat, table: Table<PaletteData>) returns (r: Option<PaletteData>)
    ensures r == PaletteFor(habitat, table)
  {
    if table.None? {
      return None;
    }
    var all := table.value;
    for i := 0 to |all|
      invariant FirstWhere(all[i..], ForHabitat(habitat)) == FirstWhere(all, ForHabitat(habitat))
    {
      if all[i].Some? && all[i].value.habitat == habitat {
        assert FirstWhere(all[i..], ForHabitat(habitat)) == all[i];
        return all[i];
      }
      FirstWhereSkip(all, ForHabitat(habitat), i);
    }
    return Some(DefaultPalette(habitat));
  }

  /*
   * Scale and anchors.
   */

  /** The size class's place in the order Tiny < Small < Medium < Large < Giant. */
  function Rank(s: SizeClass): nat
  {
    match s
    case Tiny => 0
    case Small => 1
    case Medium => 2
    case Large => 3
    case Giant => 4
  }

  /** The multiplier of each size class. */
  function SizeMultiplier(s: SizeClass): (r: real)
    ensures r > 0.0
  {
    match s
    case Tiny => 0.5
    case Small => 0.75
    case Medium => 1.0
    case Large => 1.5
    case Giant => 2.5
  }

  /** CalculateMonsterScale: the base scale times the size class's multiplier. */
  function CalculateMonsterScale(s: SizeClass, baseScale: real): real
  {
    baseScale * SizeMultiplier(s)
  }

  /** The multiplier grows strictly with the size class. */
  lemma MultiplierIncreasing(a: SizeClass, b: SizeClass)
    ensures Rank(a) < Rank(b) <==> SizeMultiplier(a) < SizeMultiplier(b)
  {
  }

  /**
   * For a non-negative base scale a larger size class never gives a smaller
   * monster, Medium keeps the base scale, and the scale is the base scale's
   * sign.
   */
  lemma ScaleMonotone(a: SizeClass, b: SizeClass, baseScale: real)
    requires baseScale >= 0.0 && Rank(a) <= Rank(b)
    ensures CalculateMonsterScale(a, baseScale) <= CalculateMonsterScale(b, baseScale)
    ensures CalculateMonsterScale(Medium, baseScale) == baseScale
    ensures CalculateMonsterScale(a, baseScale) >= 0.0
  {
    MultiplierIncreasing(a, b);
    if Rank(a) < Rank(b) {
      assert (SizeMultiplier(b) - SizeMultiplier(a)) * baseScale >= 0.0;
    }
  }

  /** GetDefaultAnchorPoints: the seven named anchors of a default skeleton. */
  function GetDefaultAnchorPoints(): map<string, Vec3>
  {
    map["Head" := Vec3(0.0, 0.0, 50.0),
        "Back" := Vec3(0.0, 0.0, 30.0),
        "Tail" := Vec3(-30.0, 0.0, 10.0),
        "FrontLeft" := Vec3(20.0, -15.0, 0.0),
        "FrontRight" := Vec3(20.0, 15.0, 0.0),
        "BackLeft" := Vec3(-20.0, -15.0, 0.0),
        "BackRight" := Vec3(-20.0, 15.0, 0.0)]
  }

  /** GetAnchorPointLocation: the default anchor of that name, the zero vector for any other name. */
  function GetAnchorPointLocation(name: string, skeleton: SkeletonData): (r: Vec3)
    ensures name !in GetDefaultAnchorPoints() ==> r == Zero
  {
    var anchors := GetDefaultAnchorPoints();
    if name in anchors then anchors[name] else Zero
  }

  /**
   * The location is non-zero exactly for the seven default names, and does
   * not depend on the skeleton.
   */
  lemma AnchorKnownIffNonZero(name: string, s1: SkeletonData, s2: SkeletonData)
    ensures GetAnchorPointLocation(name, s1) != Zero
            <==> name in {"Head", "Back", "Tail", "FrontLeft", "FrontRight", "BackLeft", "BackRight"}
    ensures GetAnchorPointLocation(name, s1) == GetAnchorPointLocation(name, s2)
  {
  }
}
