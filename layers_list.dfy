/**
 The per-row state and decisions of the layer list (src/components/LayersList.jsx):
 a layer row's filter and range state slots and its write-then-read round
 trips with the map service, the hide/show choice of the visibility buttons,
 the geometry icon and the name fallback, and how the assembled forest becomes
 rows.

 Each async operation is modelled as its awaited calls done in sequence with
 nothing in between; the map service is a class whose filter read-back is an
 opaque function of the writes it has received.
 */
module LayersList {
  import opened Entities
  import opened LayerTree
  import opened LiveEntity

  // ---------------------------------------------------------------------------
  // Filter expressions and snapshots

  /** A JavaScript value in a filter: a number, a string, or `undefined`. */
  datatype Value = Undefined | Num(n: real) | Str(s: string)

  /** One element of a filter expression array: a `[field, op, value]` condition or a connector such as `"and"`. */
  datatype FilterTerm = Condition(field: string, op: string, operand: Value) | Connector(word: string)

  type FilterExpression = seq<FilterTerm>

  /** What `getLayerFilters` returns when it returns an object. */
  datatype FilterSnapshot = FilterSnapshot(ephemeral: Option<FilterExpression>, combined: Option<FilterExpression>)

  /** The slider's `[min, max]` pair. */
  datatype Range = Range(lo: Value, hi: Value)

  /** `[0, 70000]`, the initial and the cleared range. */
  const DefaultRange := Range(Num(0.0), Num(70000.0))

  /** The expression `applyAreaFilter` sends: area at least `lo` and at most `hi` hectares. */
  function AreaFilter(lo: real, hi: real): FilterExpression
  {
    [Condition("Area_ha", "ge", Num(lo)), Connector("and"), Condition("Area_ha", "le", Num(hi))]
  }

  /** `c[i]`, which is `undefined` past the end. */
  function At(c: FilterExpression, i: nat): Option<FilterTerm>
  {
    if i < |c| then Some(c[i]) else None
  }

  /** JavaScript truthiness of an array element: an array is truthy, a string is truthy unless empty. */
  predicate TermTruthy(t: Option<FilterTerm>)
  {
    match t
    case None => false
    case Some(Condition(_, _, _)) => true
    case Some(Connector(w)) => w != ""
  }

  /** `t[2]`: the value of a condition, the third character of a connector, or `undefined`. */
  function Third(t: FilterTerm): Value
  {
    match t
    case Condition(_, _, v) => v
    case Connector(w) => if |w| > 2 then Str([w[2]]) else Undefined
  }

  /** `combined` exists and both `combined[0]` and `combined[2]` are truthy. */
  predicate HasBounds(s: Option<FilterSnapshot>)
  {
    s.Some? && s.value.combined.Some?
    && TermTruthy(At(s.value.combined.value, 0)) && TermTruthy(At(s.value.combined.value, 2))
  }

  /** The range after the initial fetch read `s`, when the range was `prior`. */
  function RangeAfterFetch(s: Option<FilterSnapshot>, prior: Range): (r: Range)
    ensures HasBounds(s) ==> r == Range(Third(s.value.combined.value[0]), Third(s.value.combined.value[2]))
    ensures !HasBounds(s) ==> r == prior
  {
    if s.Some? && s.value.combined.Some? then
      var minFilter := At(s.value.combined.value, 0);
      var maxFilter := At(s.value.combined.value, 2);
      if TermTruthy(minFilter) && TermTruthy(maxFilter) then Range(Third(minFilter.value), Third(maxFilter.value))
      else prior
    else prior
  }

  /** Reading back an area filter as the combined filter recovers the range it was built from. */
  lemma FetchRecoversAreaRange(lo: real, hi: real, ephemeral: Option<FilterExpression>, prior: Range)
    ensures RangeAfterFetch(Some(FilterSnapshot(ephemeral, Some(AreaFilter(lo, hi)))), prior) == Range(Num(lo), Num(hi))
  {
  }

  // ---------------------------------------------------------------------------
  // The map service, as far as the layer list uses it

  /** One `setLayerFilters({layerId, filters})` call; `filters: null` is `None`. */
  datatype FilterWrite = FilterWrite(layerId: string, filters: Option<FilterExpression>)

  /** `{show: ids}` or `{hide: ids}`. */
  datatype VisibilityRequest = Show(ids: seq<string>) | Hide(ids: seq<string>)

  datatype VisibilityCall = LayerVisibility(request: VisibilityRequest) | GroupVisibility(request: VisibilityRequest)

  class MapService {
    /** Every filter write received, in order. */
    var filterWrites: seq<FilterWrite>
    /** Every visibility request received, in order. */
    var visibilityCalls: seq<VisibilityCall>
    /** The authoritative filters of a layer given the writes so far; the service may normalise or combine them. */
    const readBack: (string, seq<FilterWrite>) -> Option<FilterSnapshot>

    constructor (readBack: (string, seq<FilterWrite>) -> Option<FilterSnapshot>)
      ensures this.readBack == readBack && filterWrites == [] && visibilityCalls == []
    {
      this.readBack := readBack;
      filterWrites := [];
      visibilityCalls := [];
    }

    method SetLayerFilters(layerId: string, filters: Option<FilterExpression>)
      modifies this`filterWrites
      ensures filterWrites == old(filterWrites) + [FilterWrite(layerId, filters)]
    {
      filterWrites := filterWrites + [FilterWrite(layerId, filters)];
    }

    method GetLayerFilters(layerId: string) returns (s: Option<FilterSnapshot>)
      ensures s == readBack(layerId, filterWrites)
    {
      s := readBack(layerId, filterWrites);
    }

    method SetLayerVisibility(request: VisibilityRequest)
      modifies this`visibilityCalls
      ensures visibilityCalls == old(visibilityCalls) + [LayerVisibility(request)]
    {
      visibilityCalls := visibilityCalls + [LayerVisibility(request)];
    }

    method SetLayerGroupVisibility(request: VisibilityRequest)
      modifies this`visibilityCalls
      ensures visibilityCalls == old(visibilityCalls) + [GroupVisibility(request)]
    {
      visibilityCalls := visibilityCalls + [GroupVisibility(request)];
    }
  }

  // ---------------------------------------------------------------------------
  // Visibility buttons

  /** What the eye button of an entity with id `id` and flag `visible` sends. */
  function VisibilityToggle(id: string, visible: bool): (r: VisibilityRequest)
    ensures r.Hide? <==> visible
    ensures r.ids == [id]
  {
    if visible then Hide([id]) else Show([id])
  }

  /** The eye button of a group row (`LayerGroupItem`). */
  method ToggleGroupVisibility(service: MapService, group: LayerGroup)
    modifies service`visibilityCalls
    ensures service.visibilityCalls == old(service.visibilityCalls) + [GroupVisibility(VisibilityToggle(group.id, group.visible))]
  {
    if group.visible {
      service.SetLayerGroupVisibility(Hide([group.id]));
    } else {
      service.SetLayerGroupVisibility(Show([group.id]));
    }
  }

  /** What a group row shows: its live group in the header and the layer rows below it. */
  datatype GroupView = GroupView(group: LayerGroup, children: seq<Layer>)

  /**
   `LayerGroupItem` after `useLiveLayerGroup`: nothing for a falsy live group;
   otherwise the group's header with all of its layer rows when the group is
   visible and none when it is hidden.
   */
  function GroupItemView(current: Option<LayerGroup>, layers: seq<Layer>): (r: Option<GroupView>)
    ensures current.None? ==> r.None?
    ensures current.Some? && current.value.visible ==> r == Some(GroupView(current.value, layers))
    ensures current.Some? && !current.value.visible ==> r == Some(GroupView(current.value, []))
  {
    match current
    case None => None
    case Some(g) => Some(GroupView(g, if g.visible then layers else []))
  }

  // ---------------------------------------------------------------------------
  // Icon and name

  datatype Icon = Pentagon | MapPin | Minus | Image | Layers

  /** The icon for a layer's geometry type. */
  function IconFor(geometryType: Option<string>): (i: Icon)
    ensures i == Pentagon <==> geometryType == Some("Polygon")
    ensures i == MapPin <==> geometryType == Some("Point")
    ensures i == Minus <==> geometryType == Some("Line")
    ensures i == Image <==> geometryType == Some("Raster")
    ensures i == Layers <==> geometryType !in {Some("Polygon"), Some("Point"), Some("Line"), Some("Raster")}
  {
    match geometryType
    case Some("Polygon") => Pentagon
    case Some("Point") => MapPin
    case Some("Line") => Minus
    case Some("Raster") => Image
    case _ => Layers
  }

  /** `currentLayer.name || "(No name)"`: the text shown for a layer, never empty. */
  function DisplayName(name: Option<string>): (s: string)
    ensures Truthy(name) ==> s == name.value
    ensures !Truthy(name) ==> s == "(No name)"
    ensures s != ""
  {
    if Truthy(name) then name.value else "(No name)"
  }

  /** What a layer row shows of its live layer: the name, the geometry icon and whether it is drawn as visible. */
  datatype LayerView = LayerView(name: string, icon: Icon, visible: bool)

  /** A layer row's render: its view, or the `TypeError` thrown while rendering it. */
  datatype LayerRendering = LayerShown(view: LayerView) | LayerTypeError

  /**
   `LayerItem`'s render as written: the filter effect's dependency list
   `[currentLayer.id]` is evaluated before the `!currentLayer` guard, so a
   falsy live layer throws and the guard is never reached.
   */
  function LayerItemAsWritten(current: Option<Layer>): (r: LayerRendering)
    ensures r.LayerTypeError? <==> current.None?
    ensures r.LayerShown? ==> Some(r.view) == LayerItemView(current)
  {
    match current
    case None => LayerTypeError
    case Some(l) => LayerShown(LayerView(DisplayName(l.name), IconFor(l.geometryType), l.visible))
  }

  /**
   `LayerItem`'s render with the guard in effect: nothing for a falsy live
   layer, as `LayerGroupItem` does for a falsy group; otherwise the display
   name, never empty, and the icon of the layer's geometry type.
   */
  function LayerItemView(current: Option<Layer>): (r: Option<LayerView>)
    ensures r.None? <==> current.None?
    ensures r.Some? ==> r.value.name == DisplayName(current.value.name) && r.value.name != ""
    ensures r.Some? ==> r.value.icon == IconFor(current.value.geometryType) && r.value.visible == current.value.visible
  {
    match current
    case None => None
    case Some(l) => Some(LayerView(DisplayName(l.name), IconFor(l.geometryType), l.visible))
  }

  /** A push that carries `null` for a shown layer makes its row throw as written; with the guard in effect the row renders nothing. */
  lemma NullPushBreaksLayerRow(l: Layer)
    ensures Replay(LayerId, l, [Pushed(l.id, None)]).current == None
    ensures LayerItemAsWritten(Replay(LayerId, l, [Pushed(l.id, None)]).current) == LayerTypeError
    ensures LayerItemView(Replay(LayerId, l, [Pushed(l.id, None)]).current) == None
  {
    var push: MirrorEvent<Layer> := Pushed(l.id, None);
    assert [push][..0] == [];
  }

  /** A push that carries `null` for a shown group removes its row, header and layers alike. */
  lemma NullPushRemovesGroupRow(g: LayerGroup, layers: seq<Layer>)
    ensures GroupItemView(Replay(GroupId, g, [Pushed(g.id, None)]).current, layers) == None
  {
    var push: MirrorEvent<LayerGroup> := Pushed(g.id, None);
    assert [push][..0] == [];
  }

  // ---------------------------------------------------------------------------
  // A layer row's filter state

  /**
   The state of one `LayerItem`: its live layer, its `filters` and `range`
   slots, and the service it talks to. Its operations run only while the row
   is rendered, that is while the live layer is not `null`.
   */
  class LayerItem {
    const service: MapService
    const mirror: LiveMirror<Layer>
    var filters: Option<FilterSnapshot>
    var range: Range

    /** First render: `filters` is `null` and `range` is `[0, 70000]`. */
    constructor (service: MapService, mirror: LiveMirror<Layer>)
      ensures this.service == service && this.mirror == mirror
      ensures filters == None && range == DefaultRange
    {
      this.service := service;
      this.mirror := mirror;
      filters := None;
      range := DefaultRange;
    }

    /** The id the row's filter calls use: `currentLayer.id`. */
    function CurrentLayerId(): string
      reads this, mirror
      requires mirror.current.Some?
    {
      mirror.current.value.id
    }

    /** The effect run for the current layer id: read the filters, store them, and take the range from them when they carry bounds. */
    method FetchFilters()
      requires mirror.current.Some?
      modifies this`filters, this`range
      ensures filters == service.readBack(CurrentLayerId(), service.filterWrites)
      ensures range == RangeAfterFetch(filters, old(range))
    {
      var layerFilters := service.GetLayerFilters(mirror.current.value.id);
      filters := layerFilters;
      if layerFilters.Some? && layerFilters.value.combined.Some? {
        var minFilter := At(layerFilters.value.combined.value, 0);
        var maxFilter := At(layerFilters.value.combined.value, 2);
        if TermTruthy(minFilter) && TermTruthy(maxFilter) {
          range := Range(Third(minFilter.value), Third(maxFilter.value));
        }
      }
    }

    /** Write `filters: null`, then empty the filter slot and reset the range, without reading back. */
    method ClearFilters()
      requires mirror.current.Some?
      modifies this`filters, this`range, service`filterWrites
      ensures service.filterWrites == old(service.filterWrites) + [FilterWrite(CurrentLayerId(), None)]
      ensures filters == None && range == DefaultRange
    {
      service.SetLayerFilters(mirror.current.value.id, None);
      filters := None;
      range := DefaultRange;
    }

    /** Write the area filter for `[lo, hi]`, then store what the service reads back, not what was sent; the range is untouched. */
    method ApplyAreaFilter(lo: real, hi: real)
      requires mirror.current.Some?
      modifies this`filters, service`filterWrites
      ensures service.filterWrites == old(service.filterWrites) + [FilterWrite(CurrentLayerId(), Some(AreaFilter(lo, hi)))]
      ensures filters == service.readBack(CurrentLayerId(), service.filterWrites)
      ensures range == old(range)
    {
      var expression := AreaFilter(lo, hi);
      service.SetLayerFilters(mirror.current.value.id, Some(expression));
      var newFilters := service.GetLayerFilters(mirror.current.value.id);
      filters := newFilters;
    }

    /** A slider or number-input change: store the new range, then apply it as a filter. */
    method HandleRangeChange(lo: real, hi: real)
      requires mirror.current.Some?
      modifies this`filters, this`range, service`filterWrites
      ensures range == Range(Num(lo), Num(hi))
      ensures service.filterWrites == old(service.filterWrites) + [FilterWrite(CurrentLayerId(), Some(AreaFilter(lo, hi)))]
      ensures filters == service.readBack(CurrentLayerId(), service.filterWrites)
    {
      range := Range(Num(lo), Num(hi));
      ApplyAreaFilter(lo, hi);
    }

    /** The eye button of the layer row. */
    method ToggleVisibility()
      requires mirror.current.Some?
      modifies service`visibilityCalls
      ensures service.visibilityCalls
              == old(service.visibilityCalls) + [LayerVisibility(VisibilityToggle(CurrentLayerId(), mirror.current.value.visible))]
    {
      if mirror.current.value.visible {
        service.SetLayerVisibility(Hide([mirror.current.value.id]));
      } else {
        service.SetLayerVisibility(Show([mirror.current.value.id]));
      }
    }
  }

  /** The displayed filter comes from the read-back: a service that answers with other bounds than were sent is what the row shows. */
  method WriteReadDecoupling(readBack: (string, seq<FilterWrite>) -> Option<FilterSnapshot>, l: Layer)
    requires forall id, ws :: readBack(id, ws) == Some(FilterSnapshot(None, Some(AreaFilter(1.0, 2.0))))
  {
    var service := new MapService(readBack);
    var mirror := new LiveMirror<Layer>(LayerId, l);
    var item := new LayerItem(service, mirror);
    item.HandleRangeChange(100.0, 500.0);
    assert item.filters == Some(FilterSnapshot(None, Some(AreaFilter(1.0, 2.0))));
    assert item.range == Range(Num(100.0), Num(500.0));
    item.ClearFilters();
    assert item.filters == None && item.range == DefaultRange;
  }

  // ---------------------------------------------------------------------------
  // From forest to rows

  /** One rendered row of the list, with its React key. */
  datatype Row = LayerRow(key: string, layer: Layer) | GroupRow(key: string, group: LayerGroup, layers: seq<Layer>)

  /** The list's rendering: its rows, or the `TypeError` thrown while building them. */
  datatype Rendering = Built(rows: seq<Row>) | TypeError

  /** A group node whose group lookup found nothing. */
  predicate Unresolved(n: TreeNode) { n.GroupNode? && n.group.None? }

  /**
   `layers.map(...)` as written: a layer node's key is `n.layer.id`, a group
   node's key is `n.group.id`, which throws when `n.group` is `undefined`.
   */
  function RowsAsWritten(tree: seq<TreeNode>): (r: Rendering)
    ensures r.TypeError? <==> exists i :: 0 <= i < |tree| && Unresolved(tree[i])
  {
    if tree == [] then Built([])
    else
      var rest := RowsAsWritten(tree[1..]);
      assert forall i :: 1 <= i < |tree| ==> tree[i] == tree[1..][i - 1];
      match tree[0]
      case LayerNode(l) => if rest.TypeError? then TypeError else Built([LayerRow(l.id, l)] + rest.rows)
      case GroupNode(None, _) => TypeError
      case GroupNode(Some(g), ls) => if rest.TypeError? then TypeError else Built([GroupRow(g.id, g, ls)] + rest.rows)
  }

  /** The forest with its unresolved group nodes dropped and every other node kept, in order. */
  function Resolved(tree: seq<TreeNode>): (r: seq<TreeNode>)
    ensures |r| <= |tree|
    ensures forall i :: 0 <= i < |r| ==> !Unresolved(r[i]) && r[i] in tree
    ensures (forall i :: 0 <= i < |tree| ==> !Unresolved(tree[i])) ==> r == tree
  {
    if tree == [] then []
    else
      assert forall i :: 1 <= i < |tree| ==> tree[i] == tree[1..][i - 1];
      (if Unresolved(tree[0]) then [] else [tree[0]]) + Resolved(tree[1..])
  }

  /** Dropping unresolved nodes distributes over concatenation, so it keeps the order of the rest. */
  lemma {:induction false} ResolvedAppend(a: seq<TreeNode>, b: seq<TreeNode>)
    ensures Resolved(a + b) == Resolved(a) + Resolved(b)
  {
    if a == [] {
      assert a + b == b;
    } else {
      var head := if Unresolved(a[0]) then [] else [a[0]];
      assert (a + b)[0] == a[0];
      assert (a + b)[1..] == a[1..] + b;
      ResolvedAppend(a[1..], b);
      assert Resolved(a + b) == head + (Resolved(a[1..]) + Resolved(b));
      assert Resolved(a) == head + Resolved(a[1..]);
    }
  }

  /**
   The rows with a node whose group is missing skipped, so that no group row
   reads the id of an undefined group: one row per resolved node, each keyed
   by its entity's id, and the same rows as above whenever that does not throw.
   */
  function ListRows(tree: seq<TreeNode>): (r: seq<Row>)
    ensures |r| == |Resolved(tree)|
    ensures forall i :: 0 <= i < |r| ==> r[i].key == (if r[i].LayerRow? then r[i].layer.id else r[i].group.id)
    ensures RowsAsWritten(tree).Built? ==> RowsAsWritten(tree).rows == r
  {
    if tree == [] then []
    else
      var rest := ListRows(tree[1..]);
      match tree[0]
      case LayerNode(l) => [LayerRow(l.id, l)] + rest
      case GroupNode(None, _) => rest
      case GroupNode(Some(g), ls) => [GroupRow(g.id, g, ls)] + rest
  }

  /** The corrected rows are exactly the rows as written of the forest without its unresolved nodes: the same nodes, in the same order. */
  lemma {:induction false} ListRowsAreRowsOfResolved(tree: seq<TreeNode>)
    ensures RowsAsWritten(Resolved(tree)) == Built(ListRows(tree))
  {
    if tree != [] {
      ListRowsAreRowsOfResolved(tree[1..]);
      var rest := Resolved(tree[1..]);
      var rows := ListRows(tree[1..]);
      assert RowsAsWritten(rest) == Built(rows);
      match tree[0]
      case LayerNode(l) =>
        var t := [tree[0]] + rest;
        assert Resolved(tree) == t;
        assert t[0] == tree[0] && t[1..] == rest;
        assert RowsAsWritten(t) == Built([LayerRow(l.id, l)] + rows);
      case GroupNode(None, _) =>
        assert Resolved(tree) == rest;
      case GroupNode(Some(g), ls) =>
        var t := [tree[0]] + rest;
        assert Resolved(tree) == t;
        assert t[0] == tree[0] && t[1..] == rest;
        assert RowsAsWritten(t) == Built([GroupRow(g.id, g, ls)] + rows);
    }
  }

  /** A grouped layer whose group is not in the group list breaks the list as written, and renders no row once corrected. */
  lemma UnresolvedGroupBreaksList(l: Layer)
    requires Grouped(l)
    ensures Tree([l], []) == [GroupNode(None, [l])]
    ensures RowsAsWritten(Tree([l], [])) == TypeError
    ensures ListRows(Tree([l], [])) == []
  {
    assert Members([l], GroupKey(l)) == [l];
    assert Others([], GroupKey(l)) == [];
    assert Unresolved(Tree([l], [])[0]);
  }
}
