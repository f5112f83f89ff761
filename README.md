# Stack selector widget: a verified model

This project models the `Stack` component of a profile page: a widget
that shows the skills ("stacks") a user has committed, lets the user enter
edit mode, search the catalog case-insensitively, toggle stacks on and off
by clicking them, and commit the new selection by pressing "save". The
component keeps five pieces of state: the edit flag `isEdit`, the catalog
`stacks` (each stack is `{id, name, isSelected}`), the committed selection
`selectedStacks`, the query `searchKey`, and the derived search view
`filteredStacks`.

Layout:

- `text.dfy` (module `Text`): ASCII `toLowerCase` and `includes`.
- `sequences.dfy` (module `Sequences`): `filter` and `map` on sequences,
  and the order-preserving subsequence relation.
- `catalog.dfy` (module `Catalog`): the stack record and the pure
  expressions of the component: the selected subset, the search view,
  toggle-by-id and the rendered list.
- `stack_widget.dfy` (module `StackWidget`): class `Stack` with the five
  state fields and one method per handler. It has two modes, `Viewing`
  and `Editing`. `Valid()` states what holds between handlers:
  - the search view is up to date;
  - outside edit mode the committed selection is exactly the catalog's
    selected subset;
  - the committed selection consists of selected stacks whose ids occur
    in the catalog, in catalog order.
- `scenarios.dfy` (module `Scenarios`): clients that replay concrete
  interactions through the handlers' contracts.

Behaviour of the code that the model keeps:

- Outside edit mode the rendered list is taken from the live catalog
  (line 139): it is `filteredStacks` restricted to selected stacks, not
  `selectedStacks`. `Stack.Rendered` proves that this list equals the
  committed selection searched by the query. With an empty query it is the
  committed selection itself. `selectedStacks` only decides whether the
  placeholder is shown (line 109).
- "Choose" only sets `isEdit` (lines 79-81). It does not touch the
  catalog, the selection or the query.
- The code never enforces unique ids. The model accepts any catalog. Only
  `ToggleChangesSelectionByOne` and its helpers require unique ids.

## Model

| member | source | states |
|---|---|---|
| Text.LowerChar | src/components/shared/stack/index.jsx:60 | the result is never an ASCII capital; capitals map to their lower-case letter and every other character is kept |
| Text.Lower | src/components/shared/stack/index.jsx:60 | lower-casing keeps the length and lower-cases each character in place |
| Text.LowerIdempotent | src/components/shared/stack/index.jsx:60 | lower-casing twice is the same as lower-casing once |
| Text.ContainsIffOccurs | src/components/shared/stack/index.jsx:60 | `includes` holds exactly when the needle occurs at some index of the haystack |
| Text.Contains | src/components/shared/stack/index.jsx:60 | `includes`: the needle is a prefix of some suffix of the haystack; every string includes the empty string |
| Text.ContainsFits | src/components/shared/stack/index.jsx:60 | a string includes only needles no longer than itself |
| Sequences.Filter | src/components/shared/stack/index.jsx:50 | the result is no longer than the input; every kept element is in the input and passes the test; every input element that passes is kept |
| Sequences.FilterIsSubsequence | src/components/shared/stack/index.jsx:50 | a filter result is an order-preserving subsequence of its input |
| Sequences.FilterCount | src/components/shared/stack/index.jsx:50 | each value occurs in the result as often as in the input if it passes the test, otherwise never |
| Sequences.FilterKeepsAll | src/components/shared/stack/index.jsx:60 | when every element passes, the filter returns its input unchanged |
| Sequences.FilterCongruent | src/components/shared/stack/index.jsx:60 | two tests that agree on the input's elements filter it identically |
| Sequences.FilterCommutes | src/components/shared/stack/index.jsx:139 | filtering by two tests in either order gives the same sequence |
| Sequences.SubsequenceMap | src/components/shared/stack/index.jsx:50 | mapping both sides of a subsequence keeps it a subsequence (used for ids) |
| Catalog.SelectedStacks | src/components/shared/stack/index.jsx:65 | the selected subset is a subsequence of the catalog; a stack is in it exactly when it is in the catalog and selected; it is empty exactly when no stack is selected (copy counts: `Sequences.FilterCount`) |
| Catalog.Matches | src/components/shared/stack/index.jsx:60 | the filter callback: the lower-cased name includes the lower-cased query; an empty query matches every stack, and a match needs a query no longer than the name |
| Catalog.Filtered | src/components/shared/stack/index.jsx:59-61 | the search view is a subsequence of the catalog; a stack is in it exactly when it is in the catalog and its lower-cased name includes the lower-cased query (copy counts: `Sequences.FilterCount`) |
| Catalog.FilteredEmptyQuery | src/components/shared/stack/index.jsx:60 | an empty query shows the whole catalog |
| Catalog.FilteredIgnoresQueryCase | src/components/shared/stack/index.jsx:60 | two queries with the same lower-case form give the same search view |
| Catalog.MatchesIffOccurs | src/components/shared/stack/index.jsx:60 | a stack matches exactly when the lower-cased query occurs in its lower-cased name |
| Catalog.Flip | src/components/shared/stack/index.jsx:74 | the map callback: id and name are kept, and the flag is inverted exactly when the stack carries the id |
| Catalog.ToggleById | src/components/shared/stack/index.jsx:73-75 | toggling keeps length, order, every id and name; it inverts the flag of exactly the stacks carrying the id |
| Catalog.ToggleKeepsIds | src/components/shared/stack/index.jsx:74 | the id sequence of the catalog is unchanged by a toggle |
| Catalog.ToggleAbsent | src/components/shared/stack/index.jsx:74 | toggling an id that no stack carries returns the catalog unchanged |
| Catalog.ToggleTwice | src/components/shared/stack/index.jsx:74 | toggling the same id twice restores the catalog |
| Catalog.ToggleChangesSelectionByOne | src/components/shared/stack/index.jsx:71-77 | with unique ids, one toggle grows or shrinks the selected subset by exactly one stack, according to its previous flag |
| Catalog.RenderedList | src/components/shared/stack/index.jsx:139 | in edit mode the whole search view is rendered; otherwise a subsequence of it holding exactly its selected stacks (copy counts: `Sequences.FilterCount`) |
| Catalog.ViewingRendersSelection | src/components/shared/stack/index.jsx:139 | outside edit mode the rendered list equals the selected subset searched by the query, is a subsequence of the selected subset, and equals it for an empty query |
| StackWidget.Stack.constructor | src/components/shared/stack/index.jsx:6-10 | the widget starts in Viewing mode with every list empty and an empty query |
| StackWidget.Stack.Load | src/components/shared/stack/index.jsx:49-50 | the catalog becomes the loaded data and the committed selection its selected subset; mode and query are unchanged |
| StackWidget.Stack.HandleEdit | src/components/shared/stack/index.jsx:63-69 | the edit flag is inverted; leaving edit mode commits the catalog's selected subset, entering it keeps the committed selection; catalog and query are unchanged |
| StackWidget.Stack.HandleStackClick | src/components/shared/stack/index.jsx:71-77 | in edit mode the catalog becomes its toggle by the id; outside edit mode nothing changes; the committed selection never changes |
| StackWidget.Stack.HandleChooseClick | src/components/shared/stack/index.jsx:79-81 | the widget is in Editing mode afterwards; catalog, selection and query are unchanged |
| StackWidget.Stack.HandleSearchChange | src/components/shared/stack/index.jsx:83-85 | the query becomes the typed value and the search view is recomputed from it; catalog, selection and mode are unchanged |
| StackWidget.Stack.HandleEditWithReset | src/components/shared/stack/index.jsx:87-92 | leaving edit mode commits the selected subset and clears the query; entering edit mode keeps both the selection and the query |
| StackWidget.Stack.Rendered | src/components/shared/stack/index.jsx:139 | in edit mode the list is the current search view; every rendered stack is in the catalog and matches the query; outside edit mode the list equals the committed selection searched by the query, every rendered stack is selected in the live catalog, and the list equals the committed selection when the query is empty |
| StackWidget.Stack.ShowsPlaceholder | src/components/shared/stack/index.jsx:109 | the placeholder is shown exactly when not editing and nothing is committed, which is exactly when not editing and no catalog stack is selected |
| Scenarios.ToggleThenSave | src/components/shared/stack/index.jsx:63-92 | loading `[JS selected, TS not]`, editing, clicking TS and saving commits both stacks |
| Scenarios.SearchWhileEditing | src/components/shared/stack/index.jsx:83-85 | on the same catalog, editing and searching "ts" renders only TS, still unselected |
| Scenarios.EmptyCatalogShowsPlaceholder | src/components/shared/stack/index.jsx:109 | an empty catalog shows the placeholder, and "Choose" hides it |
| Scenarios.ClickWhileViewing | src/components/shared/stack/index.jsx:72 | clicking a stack outside edit mode leaves the rendered list as loaded |
| Scenarios.LoadSample | src/components/shared/stack/index.jsx:16-50 | loading the hard-coded 30-stack catalog does not show the placeholder |

## Left out

- `src/components/modal/BaekjoonConnectModal.jsx`: an HTTP POST with alerts and modal callbacks. It is network I/O and UI side effects with no local logic.
- Rendering: JSX, Tailwind classes and the `StackTag` colour choice (lines 94-105). `onClick` is attached only in edit mode (line 100). `HandleStackClick` makes the same test itself, so clicks are modelled as arriving in either mode.
- Routing and fetching: `useParams` (line 5) and the async effect are left out. `Load` takes the fetched catalog as a parameter and runs synchronously.
- The fetch failure path (`console.error`, line 52) is left out. The hard-coded catalog cannot fail to load, and a failure would leave the state unchanged.
- React scheduling: setters batch their updates and effects run after render. The filter effect (lines 59-61) is modelled as running at the end of every handler that changes the catalog or the query. The render in between, with a stale `filteredStacks`, is not modelled.
- StackWidget.Stack.HandleSearchChange: accepts calls in either mode. In the component the search input exists only in edit mode (lines 124-135), so a query can change only while editing.
- Text.LowerChar: only ASCII `A`-`Z` are lower-cased. JavaScript's `toLowerCase` also maps other Unicode letters.
- Ids are modelled as unbounded integers compared with `==`. JavaScript number corner cases such as `NaN` ids are not modelled.
- Scenarios.LoadSample: proves only that the sample catalog leaves the placeholder. Unfolding the search over all 30 names is too costly for the verifier.
