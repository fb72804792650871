/**
  The category chips of the new-publication form: three fixed chip names,
  a selection that starts as `['General']`, and a tap on a chip that toggles
  its name in the selection.
 */
module CreatePost {
  import Selection

  const Categories: seq<string> := ["General", "Eventos", "Discusiones"]
  const InitialSelection: seq<string> := ["General"]

  /** A selection the chips can produce: no name twice, only the three chip names. */
  predicate ChipSelection(s: seq<string>) {
    Selection.NoDup(s) && forall x :: x in s ==> x in Categories
  }

  /** The selection after a series of taps on chips, from `start`. */
  function AfterTaps(start: seq<string>, taps: seq<string>): (s: seq<string>)
    decreases |taps|
  {
    if taps == [] then start
    else AfterTaps(Selection.Toggle(start, taps[0]), taps[1..])
  }

  /** Taps on the chips, from a chip selection, always leave a chip selection of at most three names. */
  lemma {:induction false} TapsKeepChipSelection(start: seq<string>, taps: seq<string>)
    requires ChipSelection(start)
    requires forall k :: 0 <= k < |taps| ==> taps[k] in Categories
    ensures ChipSelection(AfterTaps(start, taps))
    ensures |AfterTaps(start, taps)| <= |Categories|
    decreases |taps|
  {
    if taps == [] {
      Selection.NoDupWithin(start, Categories);
    } else {
      var next := Selection.Toggle(start, taps[0]);
      Selection.ToggleKeepsNoDup(start, taps[0]);
      assert forall k :: 0 <= k < |taps[1..]| ==> taps[1..][k] == taps[k + 1];
      TapsKeepChipSelection(next, taps[1..]);
    }
  }

  /** Every selection reached from the initial one is a chip selection. */
  lemma InitialTaps(taps: seq<string>)
    requires forall k :: 0 <= k < |taps| ==> taps[k] in Categories
    ensures ChipSelection(AfterTaps(InitialSelection, taps))
    ensures |AfterTaps(InitialSelection, taps)| <= 3
  {
    assert ChipSelection(InitialSelection);
    TapsKeepChipSelection(InitialSelection, taps);
  }

  /** From the initial selection, "General" deselected and selected again is `['General']` again. */
  lemma GeneralTwiceFromStart()
    ensures AfterTaps(InitialSelection, ["General", "General"]) == InitialSelection
  {
    assert Selection.RemoveAll(InitialSelection, "General") == [];
    assert ["General", "General"][1..] == ["General"];
  }

  /** The form's selection state. */
  class CategoryChips {
    var selectedCategories: seq<string>

    ghost predicate Valid()
      reads this
    {
      ChipSelection(selectedCategories)
    }

    /** Whether the chip for `category` is drawn selected. */
    predicate IsSelected(category: string)
      reads this
    {
      category in selectedCategories
    }

    constructor ()
      ensures Valid() && selectedCategories == InitialSelection
    {
      selectedCategories := InitialSelection;
    }

    /**
      `toggleCategory`, called by a chip with its own name: a selected name is
      filtered out, others keep their order; an unselected one is appended.
     */
    method ToggleCategory(category: string)
      requires Valid() && category in Categories
      modifies this
      ensures Valid()
      ensures selectedCategories == Selection.Toggle(old(selectedCategories), category)
      ensures IsSelected(category) <==> !old(IsSelected(category))
      ensures forall other :: other != category ==> (IsSelected(other) <==> old(IsSelected(other)))
      ensures |selectedCategories| <= |Categories|
    {
      Selection.ToggleKeepsNoDup(selectedCategories, category);
      selectedCategories := Selection.Toggle(selectedCategories, category);
      Selection.NoDupWithin(selectedCategories, Categories);
    }
  }
}
