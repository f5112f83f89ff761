/** The stack catalog and the pure expressions the widget derives from it:
    the selected subset, the search view, toggling one stack by id, and
    the list that is rendered. */
module Catalog {
  import opened Text
  import opened Sequences

  /** One selectable skill or stack. */
  datatype Item = Item(id: int, name: string, isSelected: bool)

  function ItemId(it: Item): int {
    it.id
  }

  /** The ids of a catalog, in catalog order. */
  function Ids(c: seq<Item>): (r: seq<int>)
    ensures |r| == |c|
    ensures forall k :: 0 <= k < |c| ==> r[k] == c[k].id
  {
    Map(c, ItemId)
  }

  predicate UniqueIds(c: seq<Item>) {
    forall i, j :: 0 <= i < j < |c| ==> c[i].id != c[j].id
  }

  predicate Selected(it: Item) {
    it.isSelected
  }

  /** `stacks.filter((stack) => stack.isSelected)`: the committed selection
      computed from a catalog. */
  function SelectedStacks(c: seq<Item>): (r: seq<Item>)
    ensures IsSubsequence(r, c)
    ensures forall i :: 0 <= i < |r| ==> r[i].isSelected && r[i] in c
    ensures forall i :: 0 <= i < |c| && c[i].isSelected ==> c[i] in r
    ensures r == [] <==> forall i :: 0 <= i < |c| ==> !c[i].isSelected
  {
    FilterIsSubsequence(c, Selected);
    Filter(c, Selected)
  }

  /** The search match of line 60: the lower-cased name includes the
      lower-cased query. */
  predicate Matches(it: Item, key: string)
    ensures key == "" ==> Matches(it, key)
    ensures Matches(it, key) ==> |key| <= |it.name|
  {
    ContainsFits(Lower(it.name), Lower(key));
    Contains(Lower(it.name), Lower(key))
  }

  function MatchesKey(key: string): Item -> bool {
    (it: Item) => Matches(it, key)
  }

  /** The search view: the catalog items whose name matches the query. */
  function Filtered(c: seq<Item>, key: string): (r: seq<Item>)
    ensures IsSubsequence(r, c)
    ensures forall i :: 0 <= i < |r| ==> r[i] in c && Matches(r[i], key)
    ensures forall i :: 0 <= i < |c| && Matches(c[i], key) ==> c[i] in r
  {
    FilterIsSubsequence(c, MatchesKey(key));
    Filter(c, MatchesKey(key))
  }

  /** An empty query shows the whole catalog. */
  lemma FilteredEmptyQuery(c: seq<Item>)
    ensures Filtered(c, "") == c
  {
    FilterKeepsAll(c, MatchesKey(""));
  }

  /** Queries that differ only in ASCII letter case give the same view. */
  lemma FilteredIgnoresQueryCase(c: seq<Item>, key: string, key': string)
    requires Lower(key) == Lower(key')
    ensures Filtered(c, key) == Filtered(c, key')
  {
    FilterCongruent(c, MatchesKey(key), MatchesKey(key'));
  }

  /** Matching is decided by an occurrence of the lower-cased query inside
      the lower-cased name, as `includes` is. */
  lemma MatchesIffOccurs(it: Item, key: string)
    ensures Matches(it, key) <==> exists i :: OccursAt(Lower(it.name), Lower(key), i)
  {
    var name, query := Lower(it.name), Lower(key);
    ContainsIffOccurs(name, query);
    if Matches(it, key) {
      var i :| OccursAt(name, query, i);
      assert exists j :: OccursAt(Lower(it.name), Lower(key), j);
    }
  }

  /** The map callback of line 74 applied to one stack. */
  function Flip(it: Item, id: int): (r: Item)
    ensures r.id == it.id && r.name == it.name
    ensures r.isSelected == (if it.id == id then !it.isSelected else it.isSelected)
  {
    if it.id == id then it.(isSelected := !it.isSelected) else it
  }

  /** `stacks.map(...)` of line 74: the stacks with the given id have their
      flag inverted, and nothing else changes. */
  function ToggleById(c: seq<Item>, id: int): (r: seq<Item>)
    ensures |r| == |c|
    ensures forall k :: 0 <= k < |c| ==>
      r[k].id == c[k].id && r[k].name == c[k].name &&
      r[k].isSelected == (if c[k].id == id then !c[k].isSelected else c[k].isSelected)
  {
    if c == [] then [] else [Flip(c[0], id)] + ToggleById(c[1..], id)
  }

  /** Toggling keeps the ids, so the order and uniqueness of ids too. */
  lemma ToggleKeepsIds(c: seq<Item>, id: int)
    ensures Ids(ToggleById(c, id)) == Ids(c)
  {
  }

  /** Toggling an id that no stack carries changes nothing. */
  lemma ToggleAbsent(c: seq<Item>, id: int)
    requires forall k :: 0 <= k < |c| ==> c[k].id != id
    ensures ToggleById(c, id) == c
  {
  }

  /** Toggling the same id twice restores the catalog. */
  lemma ToggleTwice(c: seq<Item>, id: int)
    ensures ToggleById(ToggleById(c, id), id) == c
  {
  }

  /** With unique ids, toggling the stack at index k adds it to, or removes
      it from, the selection that a save would commit. */
  lemma {:induction false} ToggleChangesSelectionByOne(c: seq<Item>, k: nat)
    requires UniqueIds(c) && k < |c|
    ensures |SelectedStacks(ToggleById(c, c[k].id))| ==
            |SelectedStacks(c)| + (if c[k].isSelected then -1 else 1)
    decreases |c|
  {
    if k == 0 {
      ToggleFirst(c);
    } else {
      var rest := c[1..];
      assert c == [c[0]] + rest;
      assert rest[k - 1] == c[k];
      UniqueTail(c);
      SelectedHead(c[0], rest, c[k].id);
      ToggleChangesSelectionByOne(rest, k - 1);
    }
  }

  /** Dropping the first stack keeps ids unique, and no later stack shares its id. */
  lemma UniqueTail(c: seq<Item>)
    requires UniqueIds(c) && c != []
    ensures UniqueIds(c[1..])
    ensures forall j :: 1 <= j < |c| ==> c[j].id != c[0].id
  {
  }

  /** The case of the first stack: the rest of the catalog is untouched. */
  lemma ToggleFirst(c: seq<Item>)
    requires UniqueIds(c) && c != []
    ensures |SelectedStacks(ToggleById(c, c[0].id))| ==
            |SelectedStacks(c)| + (if c[0].isSelected then -1 else 1)
  {
    var id, rest := c[0].id, c[1..];
    assert c == [c[0]] + rest;
    UniqueTail(c);
    forall j | 0 <= j < |rest|
      ensures rest[j].id != id
    {
      assert rest[j] == c[j + 1];
    }
    ToggleAbsent(rest, id);
    SelectedHead(c[0], rest, id);
  }

  /** One unfolding of the selected subset of a toggled catalog. */
  lemma SelectedHead(x: Item, rest: seq<Item>, id: int)
    ensures |SelectedStacks(ToggleById([x] + rest, id))| ==
            (if Flip(x, id).isSelected then 1 else 0) + |SelectedStacks(ToggleById(rest, id))|
    ensures |SelectedStacks([x] + rest)| == (if x.isSelected then 1 else 0) + |SelectedStacks(rest)|
  {
  }

  /** Line 139: the rendered list is the search view in edit mode, and the
      selected part of the search view otherwise. */
  function RenderedList(isEdit: bool, filtered: seq<Item>): (r: seq<Item>)
    ensures isEdit ==> r == filtered
    ensures IsSubsequence(r, filtered)
    ensures !isEdit ==> forall i :: 0 <= i < |r| ==> r[i].isSelected && r[i] in filtered
    ensures !isEdit ==> forall i :: 0 <= i < |filtered| && filtered[i].isSelected ==> filtered[i] in r
  {
    if isEdit then
      SubsequenceOfSelf(filtered);
      filtered
    else
      SelectedStacks(filtered)
  }

  /** Outside edit mode the rendered list is the selected subset of the
      catalog restricted to the query, hence a subsequence of that subset;
      with an empty query it is the whole selected subset. */
  lemma ViewingRendersSelection(c: seq<Item>, key: string)
    ensures RenderedList(false, Filtered(c, key)) == Filtered(SelectedStacks(c), key)
    ensures IsSubsequence(RenderedList(false, Filtered(c, key)), SelectedStacks(c))
    ensures key == "" ==> RenderedList(false, Filtered(c, key)) == SelectedStacks(c)
  {
    FilterCommutes(c, MatchesKey(key), Selected);
    if key == "" {
      FilteredEmptyQuery(SelectedStacks(c));
    }
  }
}
