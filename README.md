# Felt starter kit sidebar: a Dafny model

This project models the logic of a sidebar for an embedded Felt map. It covers
three parts:

- **Layer-tree assembly** (`assembleLayerTree`) turns the flat layer list and
  the flat layer-group list into an ordered forest. A layer without a group is
  a top-level layer node. All the layers of one group share one group node,
  placed where the group's first layer appears.
- **Live-entity mirrors** (`useLiveLayer`, `useLiveLayerGroup`) hold the latest
  snapshot of one layer or group. They are seeded from the initial entity and
  overwritten by the map service's change pushes, including a push that carries
  `null`.
- **Layer-row state** (`LayerItem`, `LayerGroupItem`) covers the `filters` and
  `range` slots of a layer row, their write-then-read round trips with the map
  service, and the hide/show buttons. It also covers the icon and name shown
  for a layer, and how the forest becomes rows.

Modules, one per concern:

- `Entities` (`entities.dfy`): layers and groups. A JavaScript field that is
  absent, `null` or `undefined` is `None`. `Truthy` is JavaScript truthiness of
  an optional string.
- `LayerTree` (`layer_tree.dfy`):
  - `Tree` is a reference definition of the forest. The first remaining layer
    starts a node. If that layer is grouped, the node collects all of the
    group's layers, and the rest is assembled without them.
  - `AssembleLayerTree` is the source's single pass. It keeps a map from group
    id to the node's position in `result`. It is proved to return `Tree`.
  - Lemmas about `Tree` state the source's guarantees: partition, order, one
    node per group, lengths and the lookup of the group.
- `LiveEntity` (`live_entity.dfy`): one generic class `LiveMirror<E>` for both
  hooks. `useLiveLayer` is `LiveMirror<Layer>` with `LayerId`;
  `useLiveLayerGroup` is `LiveMirror<LayerGroup>` with `GroupId`.
  - A ghost event history ties the class to the pure `Replay`, and the lemmas
    about `Replay` state last-push-wins.
  - A subscribe/dispose log shows that exactly one subscription is live at any
    time.
  - The handler stores whatever a push carries, so the state is an
    `Option<E>`: it starts as the initial entity and a push of `null` makes it
    `None`.
- `LayersList` (`layers_list.dfy`):
  - a mock `MapService` class. It records filter writes and visibility
    requests, and answers `getLayerFilters` with an opaque `readBack` function
    of the writes so far. A real service may normalise or combine filters, so
    the model assumes nothing about the answer.
  - the `LayerItem` class, with pure functions for the icon, the display name,
    the visibility request, the range extracted from a fetched snapshot and the
    rows of the list.

Behaviour of the code that the model keeps, where a reader might expect
otherwise:

- **Re-render with the same id.** `useState` ignores every initial value after
  the first. So a re-render with a new entity of the same id keeps `current`.
- **Re-render with a new id.** It re-subscribes, but it also keeps `current`
  until a push for the new id arrives (`LiveMirror.Render`). In the list this
  does not arise: rows are keyed by entity id, so React remounts instead.
- **Empty number input.** An empty input is not treated as "clear filter".
  `Number("")` is `0`, so `HandleRangeChange` receives `0` and sends an area
  filter with it.
- **Failed service calls.** Nothing in the two core files catches a failed
  service call. A rejected `getLayerFilters` or `setLayerFilters` just stops
  the async function before its state updates. The model's service calls
  always succeed (see Left out).
- **Clearing filters.** `clearFilters` does not read the filters back after
  writing `null`.
- **A `null` push.** A group row whose live group becomes `null` renders
  nothing (src/components/LayersList.jsx:56). A layer row whose live layer
  becomes `null` throws instead, because the effect's dependency list reads
  `currentLayer.id` (line 112) before the guard on line 114 (see Findings).
  `LayerItem`'s operations therefore require a live layer: they exist only
  while the row is rendered.

## Model

| member | source | states |
|---|---|---|
| `LayerTree.FindGroupFirstMatch` | src/utils/feltUtils.js:73 | the result is the first group whose id equals the group id, and `None` exactly when no group has that id (the lookup never fails) |
| `LayerTree.Tree` | src/utils/feltUtils.js:59-85 | reference forest; it has at most as many nodes as there are input layers |
| `LayerTree.AssembleLayerTree` | src/utils/feltUtils.js:59-85 | the one-pass loop with its group-id map returns exactly the reference forest `Tree(layers, layerGroups)`; inputs are values and are not changed, and equal inputs give equal forests |
| `LayerTree.TreeSnocUngrouped` | src/utils/feltUtils.js:63-67 | a layer whose `groupId` is falsy adds one layer node at the end of the forest built so far, and changes nothing else |
| `LayerTree.TreeSnocNewGroup` | src/utils/feltUtils.js:69-78 | the first layer with a given group id appends exactly one group node, holding the looked-up group (maybe `None`) and `[layer]` |
| `LayerTree.TreeSnocSeenGroup` | src/utils/feltUtils.js:79-81 | a later layer of a seen group is appended to that group's node and the forest keeps its length and every other node |
| `LayerTree.GroupNodeKeyOccurs` | src/utils/feltUtils.js:69-78 | a group node for id `g` exists only if some input layer carries `g` |
| `LayerTree.GroupNodeExists` | src/utils/feltUtils.js:69-78 | every distinct truthy group id of the input has a group node |
| `LayerTree.GroupNodeUnique` | src/utils/feltUtils.js:69-81 | no group node after the first one for a group id has that id: there is one node per group |
| `LayerTree.GroupNodeContents` | src/utils/feltUtils.js:69-81 | the group node for `g` holds `FindGroup(groups, g)` and exactly the layers carrying `g`, in input order |
| `LayerTree.TreePartition` | src/utils/feltUtils.js:62-84 | the layers of the forest, top-level and grouped, are the input layers as a multiset: each appears exactly once |
| `LayerTree.TopLayersAreUngrouped` | src/utils/feltUtils.js:63-67 | the top-level layer nodes are exactly the ungrouped layers, in input order |
| `LayerTree.TreeLength` | src/utils/feltUtils.js:62-84 | the forest length is the number of ungrouped layers plus the number of distinct truthy group ids, at most the number of layers |
| `LayerTree.OrderExample` | src/utils/feltUtils.js:59-85 | `[A, B(g), C, D(g)]` assembles to `[A, group g with [B, D], C]` |
| `LiveEntity.LastPushWins` | src/utils/feltUtils.js:46-57 | while every re-render keeps the initial id, the mirror shows the initial entity until a push for that id and then the entity of the latest such push, and stays subscribed to that id |
| `LiveEntity.SubscribedToLatestRender` | src/utils/feltUtils.js:49-54 | the subscribed id is the id of the entity of the latest render |
| `LiveEntity.PushForOtherIdIgnored` | src/utils/feltUtils.js:50-52 | a change for an id other than the subscribed one leaves the mirror as it was |
| `LiveEntity.LiveMirror.constructor` | src/utils/feltUtils.js:46-54 | the state starts as the initial entity, and one subscription is made for its id |
| `LiveEntity.LiveMirror.Notify` | src/utils/feltUtils.js:50-53 | a push for the subscribed id replaces the whole current value with what it carries, `null` included; the id and subscriptions are unchanged |
| `LiveEntity.LiveMirror.Render` | src/utils/feltUtils.js:46-54 | a re-render keeps the current value; if the id changed, the old subscription is disposed once and one new one is made, otherwise no call is made; exactly one subscription stays live (`Valid`) |
| `LayersList.RangeAfterFetch` | src/components/LayersList.jsx:102-108 | the range becomes `[combined[0][2], combined[2][2]]` exactly when `combined` exists and both entries are truthy, and otherwise stays the prior range |
| `LayersList.FetchRecoversAreaRange` | src/components/LayersList.jsx:97-108 | reading the area filter back as the combined filter recovers the `[lo, hi]` it was built from |
| `LayersList.LayerItem.constructor` | src/components/LayersList.jsx:94-95 | `filters` starts `null` and `range` starts `[0, 70000]` |
| `LayersList.LayerItem.FetchFilters` | src/components/LayersList.jsx:97-112 | while the live layer is not `null`, stores the snapshot read for the current layer id in `filters`, and takes the range from it per `RangeAfterFetch` |
| `LayersList.LayerItem.ClearFilters` | src/components/LayersList.jsx:131-138 | writes `filters: null` for the layer, then sets `filters` to `null` and `range` to `[0, 70000]` |
| `LayersList.LayerItem.ApplyAreaFilter` | src/components/LayersList.jsx:140-154 | writes exactly `[["Area_ha","ge",lo],"and",["Area_ha","le",hi]]` for the layer, then sets `filters` to what the service reads back after that write; `range` is not touched |
| `LayersList.LayerItem.HandleRangeChange` | src/components/LayersList.jsx:156-159 | sets `range` to the new pair and applies the area filter for it |
| `LayersList.LayerItem.ToggleVisibility` | src/components/LayersList.jsx:204-210 | sends `hide: [id]` for a visible layer and `show: [id]` otherwise |
| `LayersList.VisibilityToggle` | src/components/LayersList.jsx:204-210 | the request hides exactly when the entity is visible, and names just that entity's id |
| `LayersList.ToggleGroupVisibility` | src/components/LayersList.jsx:64-70 | sends `hide: [id]` for a visible group and `show: [id]` otherwise |
| `LayersList.GroupItemView` | src/components/LayersList.jsx:53-88 | a falsy live group renders nothing; otherwise the row shows that group with all of its layer rows when it is visible and none when it is hidden |
| `LayersList.IconFor` | src/components/LayersList.jsx:116-129 | Polygon, Point, Line and Raster each get their own icon, and exactly the other types get the generic layers icon |
| `LayersList.DisplayName` | src/components/LayersList.jsx:177 | a truthy name is shown as is, an empty or missing one as "(No name)"; the shown text is never empty |
| `LayersList.LayerItemAsWritten` | src/components/LayersList.jsx:91-129 | rendering a layer row throws exactly when the live layer is `null`; otherwise it shows what `LayerItemView` shows |
| `LayersList.LayerItemView` | src/components/LayersList.jsx:114-129 | nothing exactly when the live layer is `null`; otherwise its display name (never empty), the icon of its geometry type and its visibility |
| `LayersList.NullPushBreaksLayerRow` | src/components/LayersList.jsx:112-114 | after a push of `null` for the mirrored layer the live value is `null`; the row as written then throws, and with the guard in effect it renders nothing |
| `LayersList.NullPushRemovesGroupRow` | src/components/LayersList.jsx:53-56 | after a push of `null` for the mirrored group, the group row renders nothing |
| `LayersList.RowsAsWritten` | src/components/LayersList.jsx:36-46 | building the rows throws exactly when some group node's group is undefined |
| `LayersList.Resolved` | src/components/LayersList.jsx:36-46 | the forest without its unresolved group nodes: no unresolved node is left, every kept node is from the forest, and a forest without unresolved nodes is kept whole |
| `LayersList.ResolvedAppend` | src/components/LayersList.jsx:36-46 | dropping unresolved nodes distributes over concatenation, so the kept nodes keep their order |
| `LayersList.ListRows` | src/components/LayersList.jsx:36-56 | one row per resolved node, each keyed by its entity's id; the same rows as `RowsAsWritten` whenever that does not throw |
| `LayersList.ListRowsAreRowsOfResolved` | src/components/LayersList.jsx:36-46 | the corrected rows are exactly the rows as written of the forest with its unresolved nodes dropped: the same nodes, in the same order, never a `TypeError` |
| `LayersList.UnresolvedGroupBreaksList` | src/components/LayersList.jsx:44 | a layer whose group is missing from the group list yields a group node with an undefined group, which makes the list as written throw and the corrected list render no row for it |

## Findings

| source | as written | input that shows it | evidently intended | confidence | as-written member | corrected member |
|---|---|---|---|---|---|---|
| src/components/LayersList.jsx:44 | the key of a group row is `n.group.id`, read for every group node | one layer with `groupId: "missing"` and an empty group list: `assembleLayerTree` returns a group node whose `group` is `undefined`, and reading `.id` of it throws a `TypeError` | the assembler is written to tolerate a missing group (the node's `group` may be `undefined`), so such a node should render nothing. Fixing line 44 alone is not enough: `LayerGroupItem` would call `useLiveLayerGroup(felt, undefined)`, whose dependency list `[initialGroup.id]` (src/utils/feltUtils.js:41, read again at :38) throws before the guard on line 56, which only covers a live group set to `null` by a push. `ListRows` models the fix that skips unresolved nodes before any row is built, which repairs both places | high; not executed | `LayersList.RowsAsWritten`, `LayersList.UnresolvedGroupBreaksList` | `LayersList.ListRows`, `LayersList.ListRowsAreRowsOfResolved` |
| src/components/LayersList.jsx:112-114 | the filter effect's dependency list `[currentLayer.id]` is evaluated during render, before the guard `if (!currentLayer) return null` | a shown layer row receives a change push whose `layer` is `null`: the mirror stores `null`, and the next render throws a `TypeError` at line 112, so the guard on line 114 is never reached | a falsy live layer renders nothing, as `LayerGroupItem` does for a falsy group (line 56); the guard has to come before the read, or the read has to be `currentLayer?.id` | medium, since it arises only if the service pushes `null`; not executed | `LayersList.LayerItemAsWritten`, `LayersList.NullPushBreaksLayerRow` | `LayersList.LayerItemView` |

## Left out

- `useFeltEmbed` and the React context (src/utils/feltUtils.js:6-31) are not modelled. They are SDK bootstrapping and framework plumbing.
- src/app/page.js and src/components/ViewportInfo.jsx are not part of this model. They hold fetching, composition, logging and floating-point viewport display. The assembler's inputs are taken as lists without null entries, as the page leaves them after `filter(Boolean)`.
- Async interleaving is not modelled. Each round trip is its awaited calls done back to back. Nothing is claimed about overlapping `applyAreaFilter` calls, which the code neither serialises nor cancels.
- Service failures are not modelled: every service call succeeds. The code has no `catch` around these calls, so a failure would only cut the async function short.
- Unsubscribe is recorded only as the `Dispose` call on an id change, not the cleanup on unmount, which is a React effect concern.
- `groupId` values other than strings are not modelled. A missing, `null` or empty `groupId` is falsy; other non-string falsy values such as `0` or `false` are not represented, because ids are strings.
- The shared group-node object is modelled by its position: `groupsById` maps a group id to the node's index in `result`, and the push into `group.layers` is an update of `result` at that index.
- The filter grammar is only conditions and connectors. Nested arrays inside `combined` and non-array `combined` values are not represented. `t[2]` of a connector string is its third character, as in JavaScript.
- Widgets are not modelled: the slider, the number inputs and `Number(e.target.value)`. A new range is a pair of reals and is not bounds-checked against 0..70000, as in the code.
- Some presentation is not modelled: the "Green Belt" gate, the Active Filter markup, the clear button's `filters &&` guard, opacity classes and aria labels.
- The double-click `fitViewportToBounds` (src/components/LayersList.jsx:167-171) and `showLayerDataTable` (190-194) buttons are not modelled. They are single pass-through service calls with no decision in them.
- `useLayers` and `LayersContext` are imported by src/components/LayersList.jsx:17, :24 and src/app/page.js:8, :88, but src/utils/feltUtils.js does not define them. The model assumes that `useLayers()` returns what page.js puts in `LayersContext`: the forest `assembleLayerTree(layers, layerGroups)` from src/app/page.js:36, or `null` before it is ready. `RowsAsWritten` and `ListRows` take that forest as their input.
- `LayersList.MapService`'s read-back is an uninterpreted function: the model does not say how the service combines filters.
- `LayersList.LayerItem` takes the layer id from its mirror's current layer. The model does not re-run `FetchFilters` when that id changes; it is an operation the caller invokes.
