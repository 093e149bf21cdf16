# Treemap node decoration and legend item placement

This project models two pieces of layout logic from the nivo charting library, written in Dafny:

- **The treemap enhancer's node stage.** It works on a deep clone of the caller's hierarchy, which the tiling has already covered with integer rectangles. It selects either every node or only the leaves. On each selected node, in traversal order, it writes:
  - the dotted identity `path` (node first, root last);
  - `nodeHeight`, the tree height that `height` held before it is overwritten;
  - `x`, `y`, `width` and `height`, taken from the rectangle;
  - `color` and `id`, on both the node and its datum;
  - the node's existing `value`, copied into its datum.

  A second pass adds `label` to the leaves that are big enough. The stages a chart variant receives depend on its display name.
- **The vector legend's item placement.** Item `i` sits at `(i * xStep + padding.left, i * yStep + padding.top)`. Only a row has a non-zero `xStep`, and only a column a non-zero `yStep`.

Files:

- `wrappers.dfy`: `Option`, for a property an object may lack.
- `hierarchy.dfy`: the tiled hierarchy as an arena of `Node` values. Each node names its parent by index, and parents come first. The file also holds `ancestors()`, the two selections `leaves()` / `descendants()`, and the properties of a built hierarchy that the model relies on (`WellFormed`).
- `treemap.dfy`: covers `computeNodePath`, the clone, the tiling written onto the clone, and the decoration callback, run in place on an `array<Node>`. `DecoratedNodes`, `DecoratedArena` and `PathOf` give the reference definition. The lemmas state what each decorated node holds.
- `labels.dfy`: the label pass, as a pure map.
- `variants.dfy`: the choice of stages by `displayName`.
- `legend.dfy`: the item positions of `LegendSvg`.

The decoration mutates the clone one node at a time. So when a node's path is computed, its ancestors' data are read as they are at that moment. Without `leavesOnly`, the ancestors come earlier in the traversal and already carry the written `color` and `id` and the copied `value`. With `leavesOnly`, no ancestor is selected, so none has been touched. The model keeps this, through `SeenData`. The path lemmas therefore hold in two cases:

- unconditionally with `leavesOnly` (`LeafPathIsIdentityChain`);
- without it, whenever the identity accessor reads the same identity from a datum before and after those writes (`StablePathIsIdentityChain`). For example, this holds for any accessor that reads a property other than `color` and `value` (`PropertyAccessorIsStable`).

Similarly, `id` is read from the datum after its colour has been written (line 83 runs before line 85).

The path runs from the node to the root. `ancestors()` lists the node itself first and then each parent, and the code joins that list as it is, so the leaf of root → A → leaf gets "leaf.A.root" (`ThreeLevelPath`).

## Model

| member | source | states |
|---|---|---|
| `Hierarchy.Ancestors` | packages/treemap/src/enhance.js:29-30 | `ancestors()` starts with the node itself; each next entry is the previous one's parent (a smaller index); the last entry has no parent |
| `Hierarchy.AncestorsReachRoot` | packages/treemap/src/enhance.js:29-30 | in a well-formed hierarchy the ancestor chain ends at the root and has depth + 1 entries |
| `Hierarchy.Descendants` | packages/treemap/src/enhance.js:72 | `descendants()` lists every node, each once, in arena order |
| `Hierarchy.LeavesFrom` | packages/treemap/src/enhance.js:72 | the leaves from an index on: every entry is a leaf at or after it, entries strictly increase, and every such leaf is present |
| `Hierarchy.Leaves` | packages/treemap/src/enhance.js:72 | `leaves()`: every entry is a leaf, entries strictly increase, and every leaf is present |
| `Hierarchy.Selection` | packages/treemap/src/enhance.js:72 | `leavesOnly ? leaves() : descendants()`: every entry is a selected node, entries strictly increase, and every selected node is present |
| `Treemap.JoinDots` | packages/treemap/src/enhance.js:32 | `.join('.')`: the empty list joins to ""; otherwise the first part leads, followed by a dot when more parts come |
| `Treemap.IdentitiesOf` | packages/treemap/src/enhance.js:31 | one identity per listed node, in list order: the `k`-th is `getIdentity` of the `k`-th node's current datum |
| `Treemap.NodePath` | packages/treemap/src/enhance.js:28-32 | `computeNodePath`: the path starts with the node's own identity, followed by a dot when the node has a parent |
| `Treemap.NodePathUnfolds` | packages/treemap/src/enhance.js:28-32 | a root's path is its own identity; any other node's path is its identity, a dot, then its parent's path (node first, root last) |
| `Treemap.TiledKeepsShape` | packages/treemap/src/enhance.js:70 | writing the tiling's bounds keeps parent links, leaves and well-formedness |
| `Treemap.CloneDeep` | packages/treemap/src/enhance.js:68 | the clone is a freshly allocated array equal to the caller's nodes |
| `Treemap.ApplyTiling` | packages/treemap/src/enhance.js:70 | every node of the clone gets the tiling's `x0, y0, x1, y1` and keeps everything else |
| `Treemap.DecorateAt` | packages/treemap/src/enhance.js:73-89 | the callback on the `k`-th selected node, with the nodes selected before it already decorated, yields the reference decoration of that node; only that element of the clone changes, and the clone then has the first `k + 1` selected nodes decorated |
| `Treemap.DecorateInPlace` | packages/treemap/src/enhance.js:72-91 | returns the decorated selection in traversal order, and leaves the clone with exactly the selected nodes decorated |
| `Treemap.Enhance` | packages/treemap/src/enhance.js:67-91 | clone, tile, select and decorate give the reference list, and the caller's array is left as it was |
| `Treemap.ColorOf` | packages/treemap/src/enhance.js:83 | the colour is `getColor` of the datum with the node's depth added |
| `Treemap.IdOf` | packages/treemap/src/enhance.js:85 | the identity is read from the datum after its colour has been written |
| `Treemap.DecoratedData` | packages/treemap/src/enhance.js:83-86 | the datum after the callback has exactly the former keys plus `color`, `id` and `value`, holding the colour, the identity and the node's value; every other key keeps its value |
| `Treemap.DecorateNode` | packages/treemap/src/enhance.js:73-89 | the callback on one node: it adds the decoration, whose path is the one read at that point of the traversal, replaces the datum by the decorated one and overwrites `height`; every other field is kept |
| `Treemap.DecoratedNodes` | packages/treemap/src/enhance.js:73 | the decorated list has one entry per selected node |
| `Treemap.PropertyAccessorIsStable` | packages/treemap/src/enhance.js:83-86 | an identity read from any property except `color` and `value` is the same before and after the callback's writes to the datum |
| `Treemap.LeafPathIsIdentityChain` | packages/treemap/src/enhance.js:28-32 | with `leavesOnly`, every path is the identities of the node's and its ancestors' original data, joined with dots, node first |
| `Treemap.StablePathIsIdentityChain` | packages/treemap/src/enhance.js:72-86 | without `leavesOnly` ancestors are already decorated when a descendant's path is read; with a stable identity the path is still the chain of original identities |
| `Treemap.DescendantsAllDecorated` | packages/treemap/src/enhance.js:72-73 | without `leavesOnly` the list has one decorated entry for every node of the tree, in arena order |
| `Treemap.LeavesOnlyDecoratesLeaves` | packages/treemap/src/enhance.js:72-73 | with `leavesOnly` every entry decorates a leaf, and every leaf has an entry |
| `Treemap.DecoratedLayout` | packages/treemap/src/enhance.js:77-82 | `x = x0`, `y = y0`, `width = x1 - x0`, `height = y1 - y0` (not negative for ordered bounds); `nodeHeight` is the former tree height, never negative, and zero exactly for leaves |
| `Treemap.DecoratedDatum` | packages/treemap/src/enhance.js:83-86 | node and datum carry the same colour, `getColor` of the datum with its depth; both carry the same id, read after the colour was written; the datum's `value` is the node's; other datum properties, links, depth and bounds are kept |
| `Treemap.ThreeLevelNodePath` | packages/treemap/src/enhance.js:28-32 | `computeNodePath` on that leaf, with identity `name`, joins node first: "leaf.A.root" |
| `Treemap.ThreeLevelPath` | packages/treemap/src/enhance.js:28-32 | root → A → leaf with identity `name` gives the leaf the path "leaf.A.root" in both modes |
| `TreemapLabels.Skipped` | packages/treemap/src/enhance.js:100-103 | a node without the decoration is never skipped; with no threshold set, exactly the branches (`nodeHeight > 0`) are skipped |
| `TreemapLabels.LabelPass` | packages/treemap/src/enhance.js:96-109 | disabled: the list is unchanged; enabled: same length and order, only `label` may change; a skipped node is returned as it was, any other gets `getLabel(data)` |
| `TreemapLabels.LabelPassIdempotent` | packages/treemap/src/enhance.js:99-106 | a second label pass changes nothing |
| `TreemapLabels.SmallLeafLabel` | packages/treemap/src/enhance.js:100-105 | a 4 × 4 leaf gets no label at threshold 5 and gets one at threshold 0 |
| `TreemapLabels.LabelsGoToLargeLeaves` | packages/treemap/src/enhance.js:72-109 | after decoration and the label pass, an entry is labelled exactly when labels are enabled, it is a leaf, and either no threshold is set or both rectangle sides exceed it |
| `TreemapVariants.Needs` | packages/treemap/src/enhance.js:34-111 | the stages whose props a stage reads, from the `withPropsOnChange` dependency lists |
| `TreemapVariants.CommonStagesFeedForward` | packages/treemap/src/enhance.js:34-111 | `commonEnhancers` has twelve stages, and each comes after every stage whose props it reads |
| `TreemapVariants.EnhancersFor` | packages/treemap/src/enhance.js:121-148 | only the three treemap names are composed, each as default props under `<name>DefaultProps`, then the common stages, ending with `pure`, with 3 (`TreeMap`), 2 (`TreeMapHtml`) or 1 (`TreeMapCanvas`) stages after the common ones; only `TreeMap` binds defs; only `TreeMapCanvas` lacks motion before `pure`; any other name is unchanged |
| `TreemapVariants.CanvasHasNoTrailingMotion` | packages/treemap/src/enhance.js:144-145 | the canvas variant ends with the common stages directly followed by `pure` |
| `Legend.Steps` | packages/legends/src/svg/LegendSvg.js:57-63 | a row steps `itemWidth + itemsSpacing` along x, a column `itemHeight + itemsSpacing` along y; every other step is 0 |
| `Legend.LayoutItems` | packages/legends/src/svg/LegendSvg.js:67-74 | one item per datum, in order, each with the item width and height |
| `Legend.ItemsFollowWalk` | packages/legends/src/svg/LegendSvg.js:57-72 | the item positions are the walk from `(padding.left, padding.top)` taking one `(xStep, yStep)` step per item |
| `Legend.FirstItemAtPadding` | packages/legends/src/svg/LegendSvg.js:71-72 | the first item sits at `(padding.left, padding.top)` |
| `Legend.RowLayout` | packages/legends/src/svg/LegendSvg.js:59-61 | in a row all items share `y = padding.top`, and consecutive x positions differ by `itemWidth + itemsSpacing` |
| `Legend.ColumnLayout` | packages/legends/src/svg/LegendSvg.js:62-63 | in a column all items share `x = padding.left`, and consecutive y positions differ by `itemHeight + itemsSpacing` |
| `Legend.OtherDirectionsStack` | packages/legends/src/svg/LegendSvg.js:57-58 | any other direction keeps both steps 0, so every item sits at `(padding.left, padding.top)` |
| `Legend.PositionsMonotone` | packages/legends/src/svg/LegendSvg.js:71-72 | with a non-negative step, positions never decrease with the index along the layout axis |

## Left out

- The tiling itself (`d3Treemap()` with its size, tile strategy, rounding and padding, lines 57-62) belongs to d3-hierarchy, which is not part of this model. Its floating-point partitioning is out of scope too. Its output enters as a parameter: one integer rectangle per node.
- Building the hierarchy (`withHierarchy`) is not part of this model. Depth, tree height and value enter as given fields. `WellFormed` states only part of what a built hierarchy guarantees:
  - one root, at index 0, with depth 0;
  - every other node has an earlier parent, and its depth is one more than its parent's;
  - the tree height is never negative, and it is zero exactly for leaves.
- `value` is unconstrained. The summed value of a built hierarchy (a branch's value is the sum of its children's) is not modelled, and neither is the tree height being one more than the greatest height among the children.
- The traversal orders of d3-hierarchy are not modelled. `descendants()` lists nodes breadth-first and `leaves()` lists leaves in pre-order, and no single arena order reproduces both. The model lists both in arena order, with every parent before its children. So the order of the returned list is not modelled. For a pure `getColor`, what each node's decoration holds does not depend on that order, since any parent-first order has decorated the same ancestors when a node is reached.
- The recompose layer is left out: `withPropsOnChange`, `compose`, `defaultProps` and `pure`, with their caching and referential stability. A disabled label pass returns nothing, so the props keep the list as it was; the model returns that list.
- The colour, label and identity generators are total function parameters: `getOrdinalColorScale`, `getLabelGenerator` and `getAccessorFor`. The same goes for `getInheritedColorGenerator` (border and label text colours), `treeMapTileFromProp` and `bindDefs`. The model names them as stages; it does not compute them. `PropertyAccessor` is one example of an identity accessor.
- `getColor` is a pure function here. The program's ordinal colour scale hands out colours in the order it first sees keys, and keeps that state between calls. So in the program the colours can depend on the traversal order and on earlier renders; the model does not capture that.
- Identities, colours and labels are strings. The JavaScript conversion of other values when joining (such as `undefined` becoming "") is not modelled. Datum records hold only strings and integers.
- Numbers are unbounded integers, not JavaScript doubles. This covers `value`, `labelSkipSize`, the legend sizes, spacing and padding.
- The decorated list holds node values, not references to the clone's objects. No node is written after its own callback, so the values equal what the references show at the end.
- The property `label` is the field `labelText`, because `label` is a reserved word in Dafny.
- The React rendering is left out: the `<g transform>`, the `LegendSvgItem` props besides position and size, `computeDimensions` (the normalised padding is an input), `propTypes` and `defaultProps` (LegendSvg.js lines 96-143), and the theme, motion and dimension providers.
