/** Clients of the widget that replay concrete interactions through the
    handlers' contracts alone. */
module Scenarios {
  import opened Text
  import opened Sequences
  import opened Catalog
  import opened StackWidget

  /** The hard-coded catalog that the component loads (ids 1 to 30). */
  const SampleCatalog: seq<Item> := [
    Item(1, "JavaScript", true), Item(2, "TypeScript", false), Item(3, "Python", false),
    Item(4, "Java", false), Item(5, "React", true), Item(6, "HTML / CSS", false),
    Item(7, "Node.js", true), Item(8, "Express", false), Item(9, "MongoDB", true),
    Item(10, "PostgreSQL", false), Item(11, "MySQL", false), Item(12, "GraphQL", true),
    Item(13, "Docker", false), Item(14, "Kubernetes", false), Item(15, "AWS", true),
    Item(16, "GCP", false), Item(17, "Azure", false), Item(18, "Git", true),
    Item(19, "GitHub", false), Item(20, "GitLab", false), Item(21, "Bitbucket", true),
    Item(22, "CI/CD", false), Item(23, "Jenkins", false), Item(24, "Webpack", true),
    Item(25, "Babel", false), Item(26, "ESLint", false), Item(27, "Prettier", true),
    Item(28, "Redux", false), Item(29, "MobX", false), Item(30, "Next.js", true)
  ]

  const TwoStacks: seq<Item> := [Item(1, "JS", true), Item(2, "TS", false)]
  const BothSelected: seq<Item> := [Item(1, "JS", true), Item(2, "TS", true)]

  /** Toggling id 2 of the two-stack catalog selects both. */
  lemma ToggleSecondOfTwo()
    ensures ToggleById(TwoStacks, 2) == BothSelected
  {
  }

  /** Enter edit mode, toggle id 2, save: both stacks are committed. */
  method ToggleThenSave() returns (selection: seq<Item>)
    ensures selection == BothSelected
  {
    var w := new Stack();
    w.Load(TwoStacks);
    w.HandleEditWithReset();
    w.HandleStackClick(2);
    ToggleSecondOfTwo();
    w.HandleEditWithReset();
    FilterKeepsAll(BothSelected, Selected);
    selection := w.selectedStacks;
  }
  /** Only "TS" contains "ts" once both are lower-cased. */
  lemma SearchTwoStacks()
    ensures Filtered(TwoStacks, "ts") == [TwoStacks[1]]
  {
  }

  /** Enter edit mode and search "ts": only TS is listed, with its live
      (unselected) flag. */
  method SearchWhileEditing() returns (shown: seq<Item>)
    ensures shown == [Item(2, "TS", false)]
  {
    var w := new Stack();
    w.Load(TwoStacks);
    w.HandleEditWithReset();
    SearchTwoStacks();
    w.HandleSearchChange("ts");
    shown := w.Rendered();
  }

  /** An empty catalog leaves the widget on the "Choose" placeholder, and
      pressing "Choose" opens edit mode. */
  method EmptyCatalogShowsPlaceholder() returns (before: bool, after: bool)
    ensures before && !after
  {
    var w := new Stack();
    w.Load([]);
    before := w.ShowsPlaceholder();
    w.HandleChooseClick();
    after := w.ShowsPlaceholder();
  }

  /** Clicking a stack outside edit mode changes nothing that is shown. */
  method ClickWhileViewing() returns (shown: seq<Item>)
    ensures shown == [Item(1, "JS", true)]
  {
    var w := new Stack();
    w.Load(TwoStacks);
    w.HandleStackClick(2);
    shown := w.Rendered();
  }

  /** Loading the hard-coded catalog, which has selected stacks, leaves
      the placeholder. */
  method LoadSample() returns (placeholder: bool)
    ensures !placeholder
  {
    var w := new Stack();
    w.Load(SampleCatalog);
    assert SampleCatalog[0].isSelected;
    placeholder := w.ShowsPlaceholder();
  }
}
