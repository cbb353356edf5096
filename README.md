# Boomerang list binding, modelled in Dafny

Boomerang is an MVVM binding layer for UIKit. A list view model exposes its
content as `sections`, and each section holds its item view models in
on-screen order. This project models the two parts of Boomerang that do
something checkable:

* **`ListViewModel.Lookup`** models the index-path subscript on `ListViewModel`.
  It returns the item a path addresses. If the path does not have exactly two
  components, or a component is past the end, it returns nothing. The path is
  a Foundation `IndexPath`, modelled as a `seq<int>`. Each `Section` holds an
  `items` sequence, and the list is a `seq<Section<T>>`, with `T` standing for
  the item view model type.
* **`CollectionViewUpdates`** models the binder that applies a
  `DataHolderUpdate` to a `UICollectionView`. The collection view is a class
  whose only state is a trace of events, oldest first. An event is either one
  evaluation of an update's deferred index-path closure or one view operation
  requested of the view. `Log()` gives the requested operations and
  `EvaluationCount()` gives the number of evaluations. Each closure is
  modelled as the sequence of index paths it returns. Both section variants
  pass the section set `IndexSet(indexPaths.compactMap { $0.last })`. It is
  modelled as `SectionSet`, which is built from `LastComponents`
  (the compactMap) and `IndexSet`.

Lookup never traps for the inputs it accepts. The Swift guard checks only
upper bounds, so a negative component traps when it is used as an index.
`Lookup` does not switch to `nat` components. Instead it requires
`NeverTraps`, which holds for exactly the inputs on which the Swift code
does not trap:
* a negative section traps;
* a negative item traps only when its section exists.

When the path does not have two components, nothing is required. This is
because the `count == 2` test short-circuits before `section` and `item` are
read. The model keeps that order: `SectionOf` and `ItemOf` stand for
`IndexPath.section` and `IndexPath.item`, and both require two components.
Dafny's well-formedness check shows that the guard calls them only after the
count test. If every component is non-negative, `NeverTraps` holds
(`NonNegativeNeverTraps`). Lookup is a function of the section list, so it
reads the list without changing it and gives the same result each time.

The variants of `DataHolderUpdate` come from the cases that `dataUpdates()`
switches on, plus `None`. `None` is the value `asDriver(onErrorJustReturn:)`
sends when the update stream fails. Such a value falls to the `default`
branch. The enum's own declaration is not part of this model.

Building the section set can trap too. Foundation's `IndexSet` accepts only
values in `0 ..< Int.max - 1`, and `NSIndexSet` raises a range exception on
any other value. This happens before `performBatchUpdates` is reached. The
model states that demand where it arises:
* `IndexSet` requires every element to be in range;
* `SectionSet` requires `LastsInRange` of its paths;
* the binder's operations require `Applicable`: a section update's closure
  must return paths whose last components are all in range.

For two-component paths, the "last component" used by the section variants is
the item component. For one-component paths (`IndexPath(index:)`) it is the
section itself. The model keeps `.last`, as the code does, and
`SectionSetOfSingletons` states the one-component case.

## Model

| member | source | states |
|---|---|---|
| `ListViewModel.Lookup` | Sources/Core/ListViewModel.swift:18-26 | An item is returned if and only if the path has two components and both are in range. The item returned is `sections[section].items[item]`. A path whose count is not 2 gives nothing. So does a section at or past `sections.count`, and so does an item at or past that section's item count. The components are read only after the count test. |
| `ListViewModel.NonNegativeNeverTraps` | Sources/Core/ListViewModel.swift:20-24 | A path with no negative component never makes the subscript index out of bounds. |
| `ListViewModel.LookupIsFlatPosition` | Sources/Core/ListViewModel.swift:11-24 | The item at (section, item) is the one at position offset(section) + item of all the sections' items laid end to end. The lookup follows on-screen order. |
| `ListViewModel.FlatPositionIsAddressed` | Sources/Core/ListViewModel.swift:11-24 | Every position in the concatenated items is reached by some in-range (section, item) path. |
| `CollectionViewUpdates.LastComponents` | Sources/View/UIKit/UICollectionView/UICollectionView.swift:76 | compactMap over `last` never yields more components than there are paths. |
| `CollectionViewUpdates.LastComponentsMembers` | Sources/View/UIKit/UICollectionView/UICollectionView.swift:76 | A value is among the last components if and only if some non-empty path ends with it. Empty paths contribute nothing. |
| `CollectionViewUpdates.LastComponentsAppend` | Sources/View/UIKit/UICollectionView/UICollectionView.swift:76 | compactMap over `last` of a concatenation is the concatenation of the results. |
| `CollectionViewUpdates.IndexSet` | Sources/View/UIKit/UICollectionView/UICollectionView.swift:76 | Building an `IndexSet` requires every value to be in `0 ..< Int.max - 1`. The set holds exactly the sequence's values, so duplicates collapse, and it never has more elements than the sequence. |
| `CollectionViewUpdates.SectionSet` | Sources/View/UIKit/UICollectionView/UICollectionView.swift:92 | A section is named if and only if some non-empty path ends with it. So two paths with the same last component name one section, and empty paths name none. There are never more sections than paths. Last components outside `IndexSet`'s range are excluded by the requires, as the source traps on them. |
| `CollectionViewUpdates.SectionSetAppend` | Sources/View/UIKit/UICollectionView/UICollectionView.swift:92 | The section set of concatenated path lists is the union of their section sets. |
| `CollectionViewUpdates.EmptyPathNamesNoSection` | Sources/View/UIKit/UICollectionView/UICollectionView.swift:76 | An added empty path adds no section. |
| `CollectionViewUpdates.SectionSetOnlyPathSet` | Sources/View/UIKit/UICollectionView/UICollectionView.swift:92 | Two lists holding the same paths name the same sections, whatever their order and repetitions. |
| `CollectionViewUpdates.SectionSetOfSingletons` | Sources/View/UIKit/UICollectionView/UICollectionView.swift:74-81 | For one-component paths, the sections named are exactly the paths' components. |
| `CollectionViewUpdates.Effect` | Sources/View/UIKit/UICollectionView/UICollectionView.swift:62-103 | The per-variant table of what applying an update records. It records nothing exactly for `None`, and only one evaluation exactly for `Move`. No variant records more than an evaluation and one request. |
| `CollectionViewUpdates.RequestsFor` | Sources/View/UIKit/UICollectionView/UICollectionView.swift:62-103 | The requests in a variant's effect: at most one view operation. `Move` and `None` request nothing. A full reload is requested exactly for `Reload`. |
| `CollectionViewUpdates.EvaluatedOnceFirst` | Sources/View/UIKit/UICollectionView/UICollectionView.swift:62-103 | Every variant except `None` evaluates its closure exactly once. The evaluation comes before any view operation. `None` evaluates nothing. |
| `CollectionViewUpdates.EffectExtendsTrace` | Sources/View/UIKit/UICollectionView/UICollectionView.swift:60-105 | Applying an update to any trace adds exactly that update's requests to the log. It adds one evaluation, or none for `None`. |
| `CollectionViewUpdates.ItemUpdatesPassPaths` | Sources/View/UIKit/UICollectionView/UICollectionView.swift:67-88 | `deleteItems`/`insertItems` request one batch. That batch's only operation deletes/inserts exactly the closure's paths, in order. |
| `CollectionViewUpdates.SectionUpdatesPassLastComponents` | Sources/View/UIKit/UICollectionView/UICollectionView.swift:74-97 | `deleteSections`/`insertSections` on an in-range closure result request one batch. That batch's only operation deletes/inserts a section exactly when some returned non-empty path ends with it. |
| `CollectionViewUpdates.CollectionView.Evaluate` | Sources/View/UIKit/UICollectionView/UICollectionView.swift:68 | Running the closure yields its paths and records one evaluation. |
| `CollectionViewUpdates.CollectionView.ReloadData` | Sources/View/UIKit/UICollectionView/UICollectionView.swift:65 | Records one full-reload request. |
| `CollectionViewUpdates.CollectionView.PerformBatchUpdates` | Sources/View/UIKit/UICollectionView/UICollectionView.swift:69-73 | Records one batch request holding the update block's operations. The completion flag has no effect. |
| `CollectionViewUpdates.CollectionView.ApplyDataUpdate` | Sources/View/UIKit/UICollectionView/UICollectionView.swift:60-105 | For every update that does not trap (`Applicable`), the trace grows by exactly the variant's effect. The log grows by exactly the variant's requests, and the evaluation count grows by one for every variant except `None`. The result does not depend on the batch completion flag, and nothing is reported back. |

## Left out

- `set(viewModel:)` and `configure(with:dataSource:delegate:)` (data-source and delegate assignment, Rx `Driver` wiring, dispose bags) are left out. They are wiring with no behaviour of their own. The only part kept is that a failing stream delivers `None`.
- `dragAndDrop()` is left out: it is gesture-recognizer and interactive-movement plumbing.
- UIKit's own handling of a batch is left out: animation, the weak `base` capture and its count-consistency assertions. The model records which operation is requested, not what the screen shows. For the same reason, two properties about displayed counts are not stated: "a reload makes the displayed counts equal the sections", and "insert-then-delete of the same items is a no-op".
- Side effects of a deferred closure on the list are left out. The closure is the index paths it returns; the trace records only that it ran.
- `Lookup` assumes `sections` does not change during one lookup. The Swift getter reads `sections` three times, through a protocol `{ get }` requirement that a conforming type may compute. The model takes one value.
- `onUpdate` and `selectItem(at:)` on `ListViewModel` are left out: they are requirements on conforming types, with no code in this repository.
- The table-view cell wrapper, the router and the demo app are not part of this model. They forward to UIKit (layout, focus, navigation) and have no logic of their own.
