/**
 The entities the map service hands to the sidebar: layers and layer groups.
 JavaScript's optional and nullable fields become `Option`; "absent", `null`
 and `undefined` are all `None`.
 */
module Entities {

  datatype Option<T> = None | Some(value: T)

  /** A layer as the map service reports it. */
  datatype Layer = Layer(
    id: string,
    groupId: Option<string>,
    name: Option<string>,
    caption: Option<string>,
    geometryType: Option<string>,
    visible: bool)

  /** A layer group as the map service reports it. */
  datatype LayerGroup = LayerGroup(id: string, name: Option<string>, visible: bool)

  function LayerId(l: Layer): string { l.id }

  function GroupId(g: LayerGroup): string { g.id }

  /** JavaScript truthiness of an optional string: absent, `null` and `""` are falsy. */
  predicate Truthy(s: Option<string>) { s.Some? && s.value != "" }

  /** The layer belongs to a group: `layer.groupId` is truthy. */
  predicate Grouped(l: Layer) { Truthy(l.groupId) }

  /** The group id of a grouped layer. */
  function GroupKey(l: Layer): string
    requires Grouped(l)
  {
    l.groupId.value
  }

  /** The layer carries group id `g`. */
  predicate InGroup(l: Layer, g: string) { Grouped(l) && GroupKey(l) == g }
}
