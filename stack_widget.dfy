/** The `Stack` component: its five pieces of state and the handlers that
    update them. Each handler also re-runs the effect that recomputes the
    search view whenever the catalog or the query changes. */
module StackWidget {
  import opened Sequences
  import opened Catalog

  /** The widget's two states: showing the committed stacks, or editing. */
  datatype Mode = Viewing | Editing

  class Stack {
    var isEdit: bool
    var stacks: seq<Item>
    var selectedStacks: seq<Item>
    var searchKey: string
    var filteredStacks: seq<Item>

    /** What holds between handlers: the search view is up to date; outside
        edit mode the committed selection is the catalog's selected subset;
        the committed selection is always selected stacks whose ids appear
        in the catalog in the same order. */
    ghost predicate Valid()
      reads this
    {
      filteredStacks == Filtered(stacks, searchKey) &&
      (!isEdit ==> selectedStacks == SelectedStacks(stacks)) &&
      IsSubsequence(Ids(selectedStacks), Ids(stacks)) &&
      (forall i :: 0 <= i < |selectedStacks| ==> selectedStacks[i].isSelected)
    }

    function CurrentMode(): Mode
      reads this
    {
      if isEdit then Editing else Viewing
    }

    /** The initial `useState` values. */
    constructor ()
      ensures Valid()
      ensures CurrentMode() == Viewing
      ensures stacks == [] && selectedStacks == [] && searchKey == "" && filteredStacks == []
    {
      isEdit := false;
      stacks := [];
      selectedStacks := [];
      searchKey := "";
      filteredStacks := [];
    }

    /** The commit of a fetched catalog: it replaces the catalog and the
        committed selection, in either mode. */
    method Load(data: seq<Item>)
      requires Valid()
      modifies this
      ensures Valid()
      ensures stacks == data
      ensures selectedStacks == SelectedStacks(data)
      ensures isEdit == old(isEdit) && searchKey == old(searchKey)
    {
      stacks := data;
      selectedStacks := SelectedStacks(data);
      FilterIsSubsequence(data, Selected);
      SubsequenceMap(selectedStacks, stacks, ItemId);
      filteredStacks := Filtered(stacks, searchKey);
    }

    /** `handleEdit`: leaving edit mode commits the catalog's selected
        subset; entering it keeps the committed selection. */
    method HandleEdit()
      requires Valid()
      modifies this
      ensures Valid()
      ensures isEdit == !old(isEdit)
      ensures selectedStacks == if old(isEdit) then SelectedStacks(stacks) else old(selectedStacks)
      ensures stacks == old(stacks) && searchKey == old(searchKey)
    {
      if isEdit {
        var newSelectedStacks := SelectedStacks(stacks);
        FilterIsSubsequence(stacks, Selected);
        SubsequenceMap(newSelectedStacks, stacks, ItemId);
        selectedStacks := newSelectedStacks;
      }
      isEdit := !isEdit;
    }

    /** `handleStackClick`: in edit mode the stacks carrying the id flip
        their flag; otherwise nothing changes. */
    method HandleStackClick(id: int)
      requires Valid()
      modifies this
      ensures Valid()
      ensures stacks == if old(isEdit) then ToggleById(old(stacks), id) else old(stacks)
      ensures isEdit == old(isEdit) && selectedStacks == old(selectedStacks)
      ensures searchKey == old(searchKey)
    {
      if isEdit {
        ToggleKeepsIds(stacks, id);
        stacks := ToggleById(stacks, id);
        filteredStacks := Filtered(stacks, searchKey);
      }
    }

    /** `handleChooseClick`: always ends in edit mode. */
    method HandleChooseClick()
      requires Valid()
      modifies this
      ensures Valid()
      ensures CurrentMode() == Editing
      ensures stacks == old(stacks) && selectedStacks == old(selectedStacks)
      ensures searchKey == old(searchKey)
    {
      isEdit := true;
    }

    /** `handleSearchChange`: replaces the query; the search view follows. */
    method HandleSearchChange(value: string)
      requires Valid()
      modifies this
      ensures Valid()
      ensures searchKey == value
      ensures filteredStacks == Filtered(stacks, value)
      ensures isEdit == old(isEdit) && stacks == old(stacks) && selectedStacks == old(selectedStacks)
    {
      searchKey := value;
      filteredStacks := Filtered(stacks, searchKey);
    }

    /** `handleEditWithReset`, the edit/save button. The reset is decided
        by the mode before the toggle, so the query is cleared exactly when
        edit mode is left, and is then empty. */
    method HandleEditWithReset()
      requires Valid()
      modifies this
      ensures Valid()
      ensures stacks == old(stacks)
      ensures old(CurrentMode()) == Editing ==>
        CurrentMode() == Viewing && searchKey == "" && selectedStacks == SelectedStacks(stacks)
      ensures old(CurrentMode()) == Viewing ==>
        CurrentMode() == Editing && searchKey == old(searchKey) &&
        selectedStacks == old(selectedStacks)
    {
      var wasEdit := isEdit;
      HandleEdit();
      if wasEdit {
        searchKey := "";
        filteredStacks := Filtered(stacks, searchKey);
      }
    }

    /** The list rendered at line 139. In edit mode it is the current search
        view of the live catalog; otherwise it is the committed selection
        searched by the query: every rendered stack is selected in the live
        catalog, and with an empty query the list is the committed selection. */
    function Rendered(): (r: seq<Item>)
      reads this
      requires Valid()
      ensures isEdit ==> r == Filtered(stacks, searchKey)
      ensures forall i :: 0 <= i < |r| ==> r[i] in stacks && Matches(r[i], searchKey)
      ensures !isEdit ==> forall i :: 0 <= i < |r| ==> r[i].isSelected
      ensures !isEdit ==> r == Filtered(selectedStacks, searchKey)
      ensures !isEdit ==> IsSubsequence(r, selectedStacks)
      ensures !isEdit && searchKey == "" ==> r == selectedStacks
    {
      ViewingRendersSelection(stacks, searchKey);
      RenderedList(isEdit, filteredStacks)
    }

    /** The condition of line 109, negated: the "Choose" placeholder is
        shown outside edit mode when nothing is committed, which is exactly
        when no stack of the catalog is selected. */
    function ShowsPlaceholder(): (r: bool)
      reads this
      requires Valid()
      ensures r <==> !isEdit && selectedStacks == []
      ensures r <==> !isEdit && forall i :: 0 <= i < |stacks| ==> !stacks[i].isSelected
    {
      !(|selectedStacks| > 0 || isEdit)
    }
  }
}
