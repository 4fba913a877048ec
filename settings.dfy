/**
 * The settings panel (src/routes/Settings.tsx) and the settings it edits: the
 * border colour of each plate, the exercise types, the selected bar.
 *
 * The list and record transforms are functions on values. The border-colour
 * entries are objects, because `handleBorderColorChange` writes the colour of
 * an entry in place; the settings holder is an object whose `settings` field
 * `updateSettings` reassigns.
 */
module SettingsPanel {
  import opened PlateBreakdown

  datatype Option<T> = None | Some(value: T)

  /** One `{ plate, color }` entry of `borderColors`; `color` may be `null`. */
  class PlateColor {
    const plate: real
    var color: Option<string>

    constructor (plate: real, color: Option<string>)
      ensures this.plate == plate && this.color == color
    {
      this.plate := plate;
      this.color := color;
    }
  }

  datatype ExerciseType = ExerciseType(id: int, name: string)

  /** The settings value; `barbellWeight` is absent until a bar is chosen. */
  datatype Settings = Settings(
    delay: int,
    borderColors: seq<PlateColor>,
    exerciseTypes: seq<ExerciseType>,
    barbellWeight: Option<real>)

  /** The keys `handleChange` is called with. */
  datatype Key = DelayKey | BorderColorsKey | ExerciseTypesKey | BarbellWeightKey

  /** `handleChange(key, value)`: a key together with its new value. */
  datatype Change =
    | Delay(delay: int)
    | BorderColors(borderColors: seq<PlateColor>)
    | ExerciseTypes(exerciseTypes: seq<ExerciseType>)
    | BarbellWeight(barbellWeight: Option<real>)

  function KeyOf(c: Change): Key
  {
    match c
    case Delay(_) => DelayKey
    case BorderColors(_) => BorderColorsKey
    case ExerciseTypes(_) => ExerciseTypesKey
    case BarbellWeight(_) => BarbellWeightKey
  }

  /** `settings[key]`, paired with its key. */
  function Get(s: Settings, k: Key): (c: Change)
    ensures KeyOf(c) == k
  {
    match k
    case DelayKey => Delay(s.delay)
    case BorderColorsKey => BorderColors(s.borderColors)
    case ExerciseTypesKey => ExerciseTypes(s.exerciseTypes)
    case BarbellWeightKey => BarbellWeight(s.barbellWeight)
  }

  /** Settings that agree on every key are the same settings. */
  lemma SettingsExtensional(s: Settings, t: Settings)
    requires forall k :: Get(s, k) == Get(t, k)
    ensures s == t
  {
    assert Get(s, DelayKey) == Get(t, DelayKey);
    assert Get(s, BorderColorsKey) == Get(t, BorderColorsKey);
    assert Get(s, ExerciseTypesKey) == Get(t, ExerciseTypesKey);
    assert Get(s, BarbellWeightKey) == Get(t, BarbellWeightKey);
  }

  /** `handleChange`: `{ ...settings, [key]: value }`, the named key replaced and no other. */
  function HandleChange(s: Settings, c: Change): (r: Settings)
    ensures Get(r, KeyOf(c)) == c
    ensures forall k :: k != KeyOf(c) ==> Get(r, k) == Get(s, k)
  {
    match c
    case Delay(d) => s.(delay := d)
    case BorderColors(b) => s.(borderColors := b)
    case ExerciseTypes(e) => s.(exerciseTypes := e)
    case BarbellWeight(w) => s.(barbellWeight := w)
  }

  /** Writing a key twice keeps the second value. */
  lemma HandleChangeLastWins(s: Settings, c1: Change, c2: Change)
    requires KeyOf(c1) == KeyOf(c2)
    ensures HandleChange(HandleChange(s, c1), c2) == HandleChange(s, c2)
  {
    SettingsExtensional(HandleChange(HandleChange(s, c1), c2), HandleChange(s, c2));
  }

  /** Changes to different keys can be made in either order. */
  lemma HandleChangeCommutes(s: Settings, c1: Change, c2: Change)
    requires KeyOf(c1) != KeyOf(c2)
    ensures HandleChange(HandleChange(s, c1), c2) == HandleChange(HandleChange(s, c2), c1)
  {
    SettingsExtensional(HandleChange(HandleChange(s, c1), c2), HandleChange(HandleChange(s, c2), c1));
  }

  /** Writing back the value a key already has changes nothing. */
  lemma HandleChangeCurrent(s: Settings, k: Key)
    ensures HandleChange(s, Get(s, k)) == s
  {
    SettingsExtensional(HandleChange(s, Get(s, k)), s);
  }

  /** The ids of a list of exercise types, in order. */
  function Ids(types: seq<ExerciseType>): (ids: seq<int>)
    ensures |ids| == |types|
    ensures forall k :: 0 <= k < |types| ==> ids[k] == types[k].id
  {
    if types == [] then [] else [types[0].id] + Ids(types[1..])
  }

  /** No two exercise types share an id. */
  predicate UniqueIds(types: seq<ExerciseType>)
  {
    forall a, b :: 0 <= a < b < |types| ==> types[a].id != types[b].id
  }

  /**
   * The `map` in `handleExerciseTypeChange`: every type with the given id is
   * renamed, every other is left as it is; length, order and ids are kept.
   */
  function RenameExerciseType(types: seq<ExerciseType>, id: int, newName: string): (r: seq<ExerciseType>)
    ensures |r| == |types|
    ensures forall k :: 0 <= k < |r| ==> r[k].id == types[k].id
    ensures forall k :: 0 <= k < |r| ==>
              r[k].name == (if types[k].id == id then newName else types[k].name)
    decreases |types|
  {
    if types == [] then []
    else
      [if types[0].id == id then types[0].(name := newName) else types[0]]
        + RenameExerciseType(types[1..], id, newName)
  }

  /** Renaming to the same name twice is renaming once. */
  lemma RenameIdempotent(types: seq<ExerciseType>, id: int, newName: string)
    ensures RenameExerciseType(RenameExerciseType(types, id, newName), id, newName)
            == RenameExerciseType(types, id, newName)
  {
    var once := RenameExerciseType(types, id, newName);
    var twice := RenameExerciseType(once, id, newName);
    assert forall k :: 0 <= k < |twice| ==> twice[k] == once[k];
  }

  /** Renaming an id nobody has changes nothing. */
  lemma RenameAbsent(types: seq<ExerciseType>, id: int, newName: string)
    requires id !in Ids(types)
    ensures RenameExerciseType(types, id, newName) == types
  {
    var r := RenameExerciseType(types, id, newName);
    forall k | 0 <= k < |types|
      ensures r[k] == types[k]
    {
      assert Ids(types)[k] == types[k].id;
    }
  }

  /** Renaming keeps the ids, so it keeps them unique. */
  lemma RenameKeepsIds(types: seq<ExerciseType>, id: int, newName: string)
    ensures Ids(RenameExerciseType(types, id, newName)) == Ids(types)
    ensures UniqueIds(types) ==> UniqueIds(RenameExerciseType(types, id, newName))
  {
  }

  /** `handleExerciseTypeChange`: the renamed list stored under `exerciseTypes`. */
  function HandleExerciseTypeChange(s: Settings, id: int, newName: string): (r: Settings)
    ensures r.exerciseTypes == RenameExerciseType(s.exerciseTypes, id, newName)
    ensures forall k :: k != ExerciseTypesKey ==> Get(r, k) == Get(s, k)
  {
    HandleChange(s, ExerciseTypes(RenameExerciseType(s.exerciseTypes, id, newName)))
  }

  /**
   * The `filter` in `handleDeleteExerciseType`: all types with the given id
   * go, the rest stay in their order.
   */
  function DeleteExerciseType(types: seq<ExerciseType>, id: int): (r: seq<ExerciseType>)
    ensures |r| <= |types|
    ensures forall t :: t in r <==> t in types && t.id != id
    decreases |types|
  {
    if types == [] then []
    else
      (if types[0].id != id then [types[0]] else []) + DeleteExerciseType(types[1..], id)
  }

  /** Filtering a concatenation filters each part: the order of the kept types is unchanged. */
  lemma {:induction false} DeleteAppend(a: seq<ExerciseType>, b: seq<ExerciseType>, id: int)
    ensures DeleteExerciseType(a + b, id) == DeleteExerciseType(a, id) + DeleteExerciseType(b, id)
    decreases |a|
  {
    if a == [] {
      assert a + b == b;
    } else {
      assert (a + b)[1..] == a[1..] + b;
      DeleteAppend(a[1..], b, id);
    }
  }

  /** Deleting an id nobody has changes nothing. */
  lemma {:induction false} DeleteAbsent(types: seq<ExerciseType>, id: int)
    requires id !in Ids(types)
    ensures DeleteExerciseType(types, id) == types
    decreases |types|
  {
    if types != [] {
      assert Ids(types)[0] == types[0].id;
      assert Ids(types[1..]) == Ids(types)[1..];
      DeleteAbsent(types[1..], id);
    }
  }

  /** The id is gone afterwards, so deleting it again changes nothing. */
  lemma DeleteIdempotent(types: seq<ExerciseType>, id: int)
    ensures id !in Ids(DeleteExerciseType(types, id))
    ensures DeleteExerciseType(DeleteExerciseType(types, id), id) == DeleteExerciseType(types, id)
  {
    var r := DeleteExerciseType(types, id);
    forall k | 0 <= k < |r|
      ensures Ids(r)[k] != id
    {
      assert r[k] in r;
    }
    DeleteAbsent(r, id);
  }

  /** Deleting keeps ids unique. */
  lemma {:induction false} DeleteKeepsUnique(types: seq<ExerciseType>, id: int)
    requires UniqueIds(types)
    ensures UniqueIds(DeleteExerciseType(types, id))
    decreases |types|
  {
    if types != [] {
      var tail := DeleteExerciseType(types[1..], id);
      DeleteKeepsUnique(types[1..], id);
      if types[0].id != id {
        forall k | 0 <= k < |tail|
          ensures tail[k].id != types[0].id
        {
          assert tail[k] in tail;
          var j :| 0 <= j < |types[1..]| && types[1..][j] == tail[k];
          assert types[j + 1] == tail[k];
        }
      }
    }
  }

  /** `handleDeleteExerciseType`: the filtered list stored under `exerciseTypes`. */
  function HandleDeleteExerciseType(s: Settings, id: int): (r: Settings)
    ensures r.exerciseTypes == DeleteExerciseType(s.exerciseTypes, id)
    ensures forall k :: k != ExerciseTypesKey ==> Get(r, k) == Get(s, k)
  {
    HandleChange(s, ExerciseTypes(DeleteExerciseType(s.exerciseTypes, id)))
  }

  /** The name a new exercise type gets. */
  const NewExerciseName: string := "New Exercise"

  /**
   * `addExerciseType` on the list: one entry appended, its id one more than
   * the old length, whatever ids are already taken.
   */
  function AddExerciseType(types: seq<ExerciseType>): (r: seq<ExerciseType>)
    ensures |r| == |types| + 1
    ensures forall k :: 0 <= k < |types| ==> r[k] == types[k]
    ensures r[|types|] == ExerciseType(|types| + 1, NewExerciseName)
  {
    types + [ExerciseType(|types| + 1, NewExerciseName)]
  }

  /** The list `1, 2, ..., n` of ids, which every list built only by adding has. */
  predicate DenseIds(types: seq<ExerciseType>)
  {
    forall k :: 0 <= k < |types| ==> types[k].id == k + 1
  }

  /** An id no entry carries is not among the ids. */
  lemma IdAbsent(types: seq<ExerciseType>, id: int)
    requires forall k :: 0 <= k < |types| ==> types[k].id != id
    ensures id !in Ids(types)
  {
  }

  /** Ids `1..n` are unique. */
  lemma DenseUnique(types: seq<ExerciseType>)
    requires DenseIds(types)
    ensures UniqueIds(types)
  {
  }

  /** While the ids are `1..n` the new id is fresh, and adding keeps them `1..n`. */
  lemma AddKeepsDense(types: seq<ExerciseType>)
    requires DenseIds(types)
    ensures |types| + 1 !in Ids(types)
    ensures DenseIds(AddExerciseType(types)) && UniqueIds(AddExerciseType(types))
  {
    IdAbsent(types, |types| + 1);
    AddDense(types);
    DenseUnique(AddExerciseType(types));
  }

  lemma AddDense(types: seq<ExerciseType>)
    requires DenseIds(types)
    ensures DenseIds(AddExerciseType(types))
  {
    var r := AddExerciseType(types);
    forall k | 0 <= k < |r|
      ensures r[k].id == k + 1
    {
      if k < |types| {
        assert r[k] == types[k];
      }
    }
  }

  /** Appending an entry whose id is fresh and deleting that id gives back the list. */
  lemma AppendThenDelete(types: seq<ExerciseType>, id: int, name: string)
    requires id !in Ids(types)
    ensures DeleteExerciseType(types + [ExerciseType(id, name)], id) == types
  {
    DeleteAppend(types, [ExerciseType(id, name)], id);
    DeleteAbsent(types, id);
    assert DeleteExerciseType([ExerciseType(id, name)], id) == [];
  }

  /** Adding a type with a fresh id and deleting that id gives back the list. */
  lemma AddThenDelete(types: seq<ExerciseType>)
    requires |types| + 1 !in Ids(types)
    ensures DeleteExerciseType(AddExerciseType(types), |types| + 1) == types
  {
    AppendThenDelete(types, |types| + 1, NewExerciseName);
  }

  /** The default exercise types. */
  const DefaultExerciseTypes: seq<ExerciseType> :=
    [ExerciseType(1, "Deadlift"), ExerciseType(2, "BenchPress"), ExerciseType(3, "BackSquat")]

  /** After deleting id 1 from the defaults, adding gives id 3 a second time. */
  lemma AddCollisionExample()
    ensures Ids(AddExerciseType(DeleteExerciseType(DefaultExerciseTypes, 1))) == [2, 3, 3]
    ensures !UniqueIds(AddExerciseType(DeleteExerciseType(DefaultExerciseTypes, 1)))
  {
    var d := DeleteAfterFirst(DefaultExerciseTypes, ExerciseType(2, "BenchPress"), ExerciseType(3, "BackSquat"));
    var a := AddExerciseType(d);
    assert a[0].id == 2 && a[1].id == 3 && a[2].id == 3;
  }

  /** Renaming the new entry then renames "BackSquat" as well. */
  lemma RenameCollisionExample()
    ensures RenameExerciseType(AddExerciseType(DeleteExerciseType(DefaultExerciseTypes, 1)), 3, "Press")
            == [ExerciseType(2, "BenchPress"), ExerciseType(3, "Press"), ExerciseType(3, "Press")]
  {
    var bench, squat := ExerciseType(2, "BenchPress"), ExerciseType(3, "BackSquat");
    var d := DeleteAfterFirst(DefaultExerciseTypes, bench, squat);
    var added := ExerciseType(3, NewExerciseName);
    assert AddExerciseType(d) == [bench, squat, added];
    RenameSharedId(bench, squat, added, "Press");
  }

  /** Renaming id 3 in a list with two entries of id 3 renames both. */
  lemma RenameSharedId(a: ExerciseType, b: ExerciseType, c: ExerciseType, newName: string)
    requires a.id == 2 && b.id == 3 && c.id == 3
    ensures RenameExerciseType([a, b, c], 3, newName) == [a, b.(name := newName), c.(name := newName)]
  {
    var r := RenameExerciseType([a, b, c], 3, newName);
    assert r[0] == a;
  }

  /** Deleting id 1 from the defaults leaves the other two types. */
  lemma DeleteAfterFirst(types: seq<ExerciseType>, bench: ExerciseType, squat: ExerciseType)
    returns (d: seq<ExerciseType>)
    requires types == DefaultExerciseTypes
    requires bench == ExerciseType(2, "BenchPress") && squat == ExerciseType(3, "BackSquat")
    ensures d == DeleteExerciseType(types, 1) == [bench, squat]
  {
    assert types[1..][1..] == [squat];
    assert DeleteExerciseType([squat], 1) == [squat];
    assert DeleteExerciseType(types[1..], 1) == [bench, squat];
    d := DeleteExerciseType(types, 1);
  }

  /** The largest id in the list, 0 for an empty list. */
  function MaxId(types: seq<ExerciseType>): (m: int)
    ensures m >= 0
    ensures forall k :: 0 <= k < |types| ==> types[k].id <= m
    decreases |types|
  {
    if types == [] then 0
    else
      var rest := MaxId(types[1..]);
      if types[0].id > rest then types[0].id else rest
  }

  /** One past the largest id in use: an id no entry has. */
  function FreshId(types: seq<ExerciseType>): (id: int)
    ensures id !in Ids(types)
    ensures forall k :: 0 <= k < |types| ==> types[k].id < id
  {
    MaxId(types) + 1
  }

  /** `addExerciseType` with the new id taken from `FreshId` instead of the length. */
  function AddExerciseTypeFresh(types: seq<ExerciseType>): (r: seq<ExerciseType>)
    ensures |r| == |types| + 1
    ensures forall k :: 0 <= k < |types| ==> r[k] == types[k]
    ensures r[|types|] == ExerciseType(FreshId(types), NewExerciseName)
    ensures UniqueIds(types) ==> UniqueIds(r)
  {
    types + [ExerciseType(FreshId(types), NewExerciseName)]
  }

  /** The fresh-id add is always undone by deleting its id. */
  lemma AddFreshThenDelete(types: seq<ExerciseType>)
    ensures DeleteExerciseType(AddExerciseTypeFresh(types), FreshId(types)) == types
  {
    assert AddExerciseTypeFresh(types) == types + [ExerciseType(FreshId(types), NewExerciseName)];
    AppendThenDelete(types, FreshId(types), NewExerciseName);
  }

  /** On ids `1..n` the fresh-id add is the add as written. */
  lemma AddFreshOnDense(types: seq<ExerciseType>)
    requires DenseIds(types)
    ensures AddExerciseTypeFresh(types) == AddExerciseType(types)
  {
    DenseMax(types);
  }

  /** On ids `1..n` the largest id is `n`. */
  lemma {:induction false} DenseMax(types: seq<ExerciseType>)
    requires DenseIds(types)
    ensures MaxId(types) == |types|
  {
    var m := MaxId(types);
    if types != [] {
      assert types[|types| - 1].id == |types|;
      MaxIdAttained(types);
    }
  }

  lemma {:induction false} MaxIdAttained(types: seq<ExerciseType>)
    requires types != []
    ensures MaxId(types) == 0 || exists k :: 0 <= k < |types| && types[k].id == MaxId(types)
    decreases |types|
  {
    if types[1..] != [] {
      MaxIdAttained(types[1..]);
      if MaxId(types) != types[0].id && MaxId(types) != 0 {
        var k :| 0 <= k < |types[1..]| && types[1..][k].id == MaxId(types[1..]);
        assert types[k + 1].id == MaxId(types);
      }
    }
  }

  /** `handleDeleteExerciseType`'s partner in the panel: the list with one type added. */
  function HandleAddExerciseType(s: Settings): (r: Settings)
    ensures r.exerciseTypes == AddExerciseType(s.exerciseTypes)
    ensures forall k :: k != ExerciseTypesKey ==> Get(r, k) == Get(s, k)
  {
    HandleChange(s, ExerciseTypes(AddExerciseType(s.exerciseTypes)))
  }

  /**
   * `handleBarbellWeightChange` in the panel: a deselected toggle (`null`)
   * changes nothing, a selected one sets `barbellWeight` and nothing else.
   */
  function HandleBarbellWeightChange(s: Settings, newWeight: Option<real>): (r: Settings)
    ensures newWeight == None ==> r == s
    ensures newWeight != None ==> Get(r, BarbellWeightKey) == BarbellWeight(newWeight)
    ensures forall k :: k != BarbellWeightKey ==> Get(r, k) == Get(s, k)
  {
    if newWeight == None then s else HandleChange(s, BarbellWeight(newWeight))
  }

  /** The plate and colour of each default border-colour entry, in order. */
  const DefaultBorderColors: seq<(real, Option<string>)> := [
    (45.0, Some("blue")), (35.0, None), (25.0, Some("green")),
    (10.0, Some("yellow")), (5.0, Some("red")), (2.5, None)]

  const DefaultDelay: int := 300

  /**
   * `defaultSettings`: a fresh object for each border-colour entry, one per
   * plate of the breakdown in the same order, the three exercise types, and
   * no bar.
   */
  method NewDefaultSettings() returns (s: Settings)
    ensures s.delay == DefaultDelay
    ensures |s.borderColors| == |DefaultBorderColors| == |Plates|
    ensures forall k :: 0 <= k < |s.borderColors| ==>
              fresh(s.borderColors[k]) &&
              s.borderColors[k].plate == DefaultBorderColors[k].0 == Plates[k] &&
              s.borderColors[k].color == DefaultBorderColors[k].1
    ensures forall j, k :: 0 <= j < k < |s.borderColors| ==> s.borderColors[j] != s.borderColors[k]
    ensures s.exerciseTypes == DefaultExerciseTypes && UniqueIds(s.exerciseTypes)
    ensures s.barbellWeight == None
  {
    var c0 := new PlateColor(45.0, Some("blue"));
    var c1 := new PlateColor(35.0, None);
    var c2 := new PlateColor(25.0, Some("green"));
    var c3 := new PlateColor(10.0, Some("yellow"));
    var c4 := new PlateColor(5.0, Some("red"));
    var c5 := new PlateColor(2.5, None);
    s := Settings(DefaultDelay, [c0, c1, c2, c3, c4, c5], DefaultExerciseTypes, None);
  }

  /**
   * The panel's view of the settings context: the current settings, which
   * `updateSettings` replaces, and the `defaultSettings` object it resets to.
   */
  class SettingsStore {
    var settings: Settings
    const defaults: Settings

    constructor (initial: Settings, defaults: Settings)
      ensures settings == initial && this.defaults == defaults
    {
      settings := initial;
      this.defaults := defaults;
    }

    /** `updateSettings`: the new value replaces the old (its storage is not modelled). */
    method UpdateSettings(newSettings: Settings)
      modifies this
      ensures settings == newSettings
    {
      settings := newSettings;
    }

    /** "Reset to Default": `updateSettings(defaultSettings)`, the very same object. */
    method Reset()
      modifies this
      ensures settings == defaults
    {
      UpdateSettings(defaults);
    }

    /**
     * `handleBorderColorChange` as written: the copied array holds the same
     * entry objects, and the entry at `index` has its colour written in place,
     * so the entry is shared with every settings value that holds it. The
     * settings value stored afterwards equals the one before. An index outside
     * the array fails (the TypeError of writing to `undefined`): `ok` is false
     * and nothing changes.
     */
    method HandleBorderColorChange(index: int, color: string) returns (ok: bool)
      modifies this, settings.borderColors
      ensures ok <==> 0 <= index < |old(settings.borderColors)|
      ensures settings == old(settings)
      ensures ok ==> settings.borderColors[index].color == Some(color)
      ensures forall p :: p in old(settings.borderColors) ==>
                (ok && p == old(settings.borderColors)[index]) || p.color == old(p.color)
    {
      var updatedBorderColors := settings.borderColors;
      if 0 <= index < |updatedBorderColors| {
        updatedBorderColors[index].color := Some(color);
        HandleChangeCurrent(settings, BorderColorsKey);
        UpdateSettings(HandleChange(settings, BorderColors(updatedBorderColors)));
        ok := true;
      } else {
        ok := false;
      }
    }

    /**
     * `handleBorderColorChange` with the entry copied as well: a fresh entry
     * with the same plate and the new colour takes the place of the old one,
     * and no existing entry is written.
     */
    method HandleBorderColorChangeCopying(index: int, color: string) returns (ok: bool)
      modifies this
      ensures ok <==> 0 <= index < |old(settings.borderColors)|
      ensures !ok ==> settings == old(settings)
      ensures ok ==> |settings.borderColors| == |old(settings.borderColors)|
      ensures ok ==> fresh(settings.borderColors[index]) &&
                     settings.borderColors[index].plate == old(settings.borderColors[index].plate) &&
                     settings.borderColors[index].color == Some(color)
      ensures ok ==> forall k :: 0 <= k < |settings.borderColors| && k != index ==>
                       settings.borderColors[k] == old(settings.borderColors[k])
      ensures settings == HandleChange(old(settings), BorderColors(settings.borderColors))
    {
      if 0 <= index < |settings.borderColors| {
        var entry := new PlateColor(settings.borderColors[index].plate, Some(color));
        var updatedBorderColors := settings.borderColors[index := entry];
        UpdateSettings(HandleChange(settings, BorderColors(updatedBorderColors)));
        ok := true;
      } else {
        HandleChangeCurrent(settings, BorderColorsKey);
        ok := false;
      }
    }
  }

  /**
   * Reset, recolour the 45 plate, reset again: the 45 plate stays "black",
   * because the recolouring wrote into `defaultSettings` itself.
   */
  method ResetAfterColorEdit() returns (color: Option<string>)
    ensures color == Some("black")
  {
    var initial := NewDefaultSettings();
    var defaults := NewDefaultSettings();
    var store := new SettingsStore(initial, defaults);
    store.Reset();
    var ok := store.HandleBorderColorChange(0, "black");
    store.Reset();
    color := store.settings.borderColors[0].color;
  }

  /** The same steps with the copying edit: the second reset brings back "blue". */
  method ResetAfterCopyingColorEdit() returns (color: Option<string>)
    ensures color == Some("blue")
  {
    var initial := NewDefaultSettings();
    var defaults := NewDefaultSettings();
    var store := new SettingsStore(initial, defaults);
    store.Reset();
    var ok := store.HandleBorderColorChangeCopying(0, "black");
    store.Reset();
    color := store.settings.borderColors[0].color;
  }
}
